/** Any number of upgraders and downgraders over one database, each of which may raise or die between any
    two transactions or inside one.  A transaction is one atomic step; the script transaction is two, because
    its advisory lock is held while the script runs. */
module MigrationProtocol {
  import opened Prelude
  import opened MigrationLedger

  datatype Direction = Up | Down

  datatype Phase =
    | Idle                   // not started
    | Walking                // between two versions
    | Marked(m: Migration)   // the marker is committed, the script transaction has not begun
    | Running(m: Migration)  // inside the script transaction, with its lock
    | Returned
    | Raised
    | Crashed

  datatype Runner = Runner(dir: Direction, catalog: Catalog, target: int, phase: Phase, todo: seq<nat>)

  /** schema maps a version whose script has taken effect to the checksum of that script. */
  datatype World = World(rows: Rows, schema: map<nat, string>, runners: seq<Runner>)

  /** The runner has marked a version and not yet finished it. */
  ghost predicate ActiveAt(r: Runner, v: nat) {
    (r.phase.Marked? || r.phase.Running?) && r.phase.m.version == v
  }

  ghost predicate LockFree(w: World, v: nat) {
    forall r :: r in w.runners && r.phase.Running? ==> r.phase.m.version != v
  }

  function With(w: World, i: nat, r: Runner): World
    requires i < |w.runners|
  {
    w.(runners := w.runners[i := r])
  }

  /** The versions an upgrader visits, in order. */
  function UpTodo(ms: Catalog, target: int): seq<nat> {
    if ms == [] || ms[0].version > target then []
    else
      var n := if ms[0].version + |ms| - 1 <= target then |ms| else target - ms[0].version + 1;
      seq(n, i requires 0 <= i => ms[0].version + i)
  }

  /** The versions a downgrader visits: all applied ones above the target, descending. */
  ghost predicate DownTodo(rows: Rows, target: int, todo: seq<nat>) {
    && (forall i, j :: 0 <= i < j < |todo| ==> todo[i] > todo[j])
    && (forall v :: v in todo <==> v in rows && v > target)
  }

  ghost predicate Start(w: World, i: nat, w': World)
    requires i < |w.runners|
  {
    exists todo :: StartWith(w, i, w', todo)
  }

  /** An upgrader verifies all rows first; a downgrader takes the applied versions from the rows. */
  ghost predicate StartWith(w: World, i: nat, w': World, todo: seq<nat>)
    requires i < |w.runners|
  {
    var r := w.runners[i];
    && r.phase == Idle
    && (if r.dir == Up then todo == UpTodo(r.catalog, r.target) else DownTodo(w.rows, r.target, todo))
    && w' == With(w, i,
         if r.dir == Up && !Verified(w.rows, r.catalog) then r.(phase := Raised)
         else r.(phase := Walking, todo := todo))
  }

  /** The first transaction for the next version. */
  ghost predicate Visit(w: World, i: nat, w': World)
    requires i < |w.runners|
  {
    var r := w.runners[i];
    && r.phase == Walking && r.todo != [] && LockFree(w, r.todo[0])
    && var local := Local(r.catalog, r.todo[0]);
       if local.None? || (r.dir == Down && !local.value.reversible) then w' == With(w, i, r.(phase := Raised))
       else match (if r.dir == Up then MarkUp(w.rows, local.value) else MarkDown(w.rows, local.value))
         case Err(_) => w' == With(w, i, r.(phase := Raised))
         case Ok(None) => w' == With(w, i, r.(todo := r.todo[1..]))
         case Ok(Some(rows)) => w' == With(w, i, r.(phase := Marked(local.value))).(rows := rows)
  }

  function Fault(rows: Rows, r: Runner): Option<Error>
    requires r.phase.Marked? || r.phase.Running?
  {
    if r.dir == Up then UpFault(rows, r.phase.m) else DownFault(rows, r.phase.m)
  }

  /** The second transaction takes the lock and checks the marker. */
  ghost predicate Begin(w: World, i: nat, w': World)
    requires i < |w.runners|
  {
    var r := w.runners[i];
    && r.phase.Marked? && LockFree(w, r.phase.m.version)
    && w' == With(w, i, r.(phase := if Fault(w.rows, r).Some? then Raised else Running(r.phase.m)))
  }

  /** It commits the script's effect together with the marker's new state. */
  ghost predicate Commit(w: World, i: nat, w': World)
    requires i < |w.runners|
  {
    var r := w.runners[i];
    && r.phase.Running? && r.phase.m.version in w.rows && r.todo != []
    && var m := r.phase.m;
       w' == World(
         if r.dir == Up then ClearMark(w.rows, m) else RemoveMark(w.rows, m.version),
         if r.dir == Up then w.schema[m.version := m.checksum] else w.schema - {m.version},
         w.runners[i := r.(phase := Walking, todo := r.todo[1..])])
  }

  /** The script fails, or the process dies: an open transaction is rolled back. */
  ghost predicate Stop(w: World, i: nat, w': World)
    requires i < |w.runners|
  {
    var r := w.runners[i];
    && r.phase !in {Returned, Raised, Crashed}
    && exists end ::
         end in {Raised, Crashed} && (end == Raised ==> r.phase.Running?) && w' == With(w, i, r.(phase := end))
  }

  ghost predicate Finish(w: World, i: nat, w': World)
    requires i < |w.runners|
  {
    var r := w.runners[i];
    && r.phase == Walking && r.todo == []
    && w' == With(w, i, r.(phase := if r.dir == Up && !Verified(w.rows, r.catalog) then Raised else Returned))
  }

  ghost predicate Step(w: World, i: nat, w': World)
    requires i < |w.runners|
  {
    Start(w, i, w') || Visit(w, i, w') || Begin(w, i, w') || Commit(w, i, w') || Stop(w, i, w') || Finish(w, i, w')
  }

  ghost predicate Next(w: World, w': World) {
    exists i :: 0 <= i < |w.runners| && Step(w, i, w')
  }

  ghost predicate IsRun(ws: seq<World>) {
    forall k :: 0 < k < |ws| ==> Next(ws[k - 1], ws[k])
  }

  // ----- the invariant

  /** A marker is exclusive: of the runners alive, at most one has marked a version and not finished it. */
  ghost predicate Exclusive(w: World) {
    forall i, j, v :: 0 <= i < |w.runners| && 0 <= j < |w.runners| && i != j ==>
      !(ActiveAt(w.runners[i], v) && ActiveAt(w.runners[j], v))
  }

  ghost predicate Owned(w: World, r: Runner) {
    (r.phase.Marked? || r.phase.Running?) ==>
      var m := r.phase.m;
      && r.todo != [] && r.todo[0] == m.version && m in r.catalog
      && m.version in w.rows && w.rows[m.version].dirty && w.rows[m.version].checksum == m.checksum
      && (r.dir == Up ==> w.rows[m.version].name == m.name && m.version !in w.schema)
      && (r.dir == Down ==> m.version in w.schema)
  }

  /** A clean row means its script's effect is fully there, an absent row that it is fully gone. */
  ghost predicate Honest(w: World) {
    && (forall v :: v in w.rows && !w.rows[v].dirty ==> v in w.schema)
    && (forall v :: v in w.schema ==> v in w.rows && w.schema[v] == w.rows[v].checksum)
  }

  ghost predicate Inv(w: World) {
    Exclusive(w) && Honest(w) && forall j :: 0 <= j < |w.runners| ==> Owned(w, w.runners[j])
  }

  /** No runner has started. */
  ghost predicate Fresh(w: World) {
    Honest(w) && forall r :: r in w.runners ==> r.phase == Idle
  }
}
