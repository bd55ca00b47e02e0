/** Which upgraders and downgraders, run side by side, can leave a gap in the applied versions. */
module MigrationRace {
  import opened Prelude
  import opened MigrationLedger
  import opened MigrationProtocol
  import opened MigrationSafety
  import opened MigrationPrefix

  /** An applied or marked version stands above a local one that is absent. */
  ghost predicate Gap(rows: Rows, ms: Catalog) {
    exists u, v :: u in Versions(ms) && v in rows && u < v && u !in rows
  }

  /** Some upgrader goes past u, some downgrader below it, and no irreversible version in the downgrader's way
      keeps it from u. */
  ghost predicate Crossing(w: World, ms: Catalog, i: nat, j: nat, u: nat) {
    && i < |w.runners| && j < |w.runners| && w.runners[i].dir == Up && w.runners[j].dir == Down
    && u in Versions(ms) && u + 1 in Versions(ms) && w.runners[j].target < u < w.runners[i].target
    && forall m :: m in ms && m.version >= u && (m.version == u || m.version in w.rows) ==> m.reversible
  }

  /** No runner has started, all have these migrations, and the rows are verified without a gap. */
  ghost predicate Ready(w: World, ms: Catalog) {
    Fresh(w) && Verified(w.rows, ms) && !Gap(w.rows, ms) && forall r :: r in w.runners ==> r.catalog == ms
  }

  ghost predicate Reaches(w: World, w': World) {
    exists ws :: RunFromTo(ws, w, w')
  }

  ghost predicate RunFromTo(ws: seq<World>, w: World, w': World) {
    IsRun(ws) && ws != [] && ws[0] == w && ws[|ws| - 1] == w'
  }

  // ----- without such a pair there is no gap

  /** What the runners may do: versions in add are added, versions in rem removed, and those in held stay. */
  datatype Scope = Scope(add: set<nat>, rem: set<nat>, held: set<nat>)

  ghost predicate Removable(m: Migration, c: Scope) { m.reversible && forall h :: h in c.held ==> h < m.version }

  ghost predicate Within(r: Runner, ms: Catalog, c: Scope) {
    && r.catalog == ms
    && (r.dir == Up ==> forall v :: v in Versions(ms) && v <= r.target ==> v in c.add)
    && (r.dir == Down ==> forall m :: m in ms && m.version > r.target && Removable(m, c) ==> m.version in c.rem)
  }

  ghost predicate Going(r: Runner) { r.phase.Walking? || r.phase.Marked? || r.phase.Running? }

  /** An upgrader has left applied versions behind. */
  ghost predicate Climbs(rows: Rows, r: Runner, ms: Catalog, c: Scope) {
    r.dir == Up && Going(r) ==>
      && Consecutive(r.todo) && (forall v :: v in r.todo ==> v in c.add)
      && (r.todo != [] ==> forall u :: u in Versions(ms) && u < r.todo[0] ==> u in rows)
  }

  /** A downgrader has left nothing behind that stays or that no upgrader adds. */
  ghost predicate Descends(rows: Rows, r: Runner, c: Scope) {
    r.dir == Down && Going(r) ==>
      && (forall i, j :: 0 <= i < j < |r.todo| ==> r.todo[i] > r.todo[j])
      && (forall v :: v in r.todo ==> v > r.target)
      && (forall v :: v in rows && v > r.target && (v in c.held || v !in c.add) ==> v in r.todo)
      && (!r.phase.Walking? ==> r.phase.m.reversible)
  }

  ghost predicate Ordered(w: World, ms: Catalog, c: Scope) {
    && Inv(w) && w.rows.Keys <= Versions(ms) && !Gap(w.rows, ms)
    && (forall h :: h in c.held ==> h in w.rows && h in Versions(ms) && !Local(ms, h).value.reversible)
    && (forall u, v :: u in c.rem && v in c.add ==> v <= u)
    && forall j :: 0 <= j < |w.runners| ==>
         Within(w.runners[j], ms, c) && Climbs(w.rows, w.runners[j], ms, c) && Descends(w.rows, w.runners[j], c)
  }

  lemma UpTodoLocal(ms: Catalog, target: int)
    ensures forall v :: v in UpTodo(ms, target) <==> v in Versions(ms) && v <= target
  {
    var todo := UpTodo(ms, target);
    forall v | v in Versions(ms) && v <= target ensures v in todo {
      var i :| 0 <= i < |ms| && ms[i].version == v;
      assert todo[i] == v;
    }
    forall v | v in todo ensures v in Versions(ms) && v <= target {
      var i :| 0 <= i < |todo| && todo[i] == v;
      assert ms[i].version == v;
    }
  }

  lemma StartWalks(w: World, i: nat, w': World, ms: Catalog, c: Scope)
    requires i < |w.runners| && Ordered(w, ms, c) && Start(w, i, w')
    ensures Climbs(w.rows, w'.runners[i], ms, c) && Descends(w.rows, w'.runners[i], c) && w'.rows == w.rows
  {
    hide UpTodo, Inv, Versions, Verified;
    var r := w.runners[i];
    assert Within(r, ms, c);
    var todo :| StartWith(w, i, w', todo);
    UpTodoLocal(ms, r.target);
    UpTodoConsecutive(ms, r.target);
  }

  /** A version is passed. */
  lemma NextClimbs(rows: Rows, r: Runner, r': Runner, ms: Catalog, c: Scope)
    requires Climbs(rows, r, ms, c) && Going(r) && r.dir == Up && r.todo != [] && r.todo[0] in rows
    requires r' == r.(phase := Walking, todo := r.todo[1..])
    ensures Climbs(rows, r', ms, c) && Descends(rows, r', c)
  {
  }

  lemma NextDescends(rows: Rows, rows': Rows, r: Runner, r': Runner, ms: Catalog, c: Scope)
    requires Descends(rows, r, c) && Going(r) && r.dir == Down && r.todo != []
    requires r' == r.(phase := Walking, todo := r.todo[1..]) && rows'.Keys == rows.Keys - {r.todo[0]}
    ensures Descends(rows', r', c) && Climbs(rows', r', ms, c)
  {
    assert r.todo == [r.todo[0]] + r.todo[1..];
    assert forall v :: v in r.todo <==> v == r.todo[0] || v in r.todo[1..];
  }

  // ----- what a step does to the rows

  /** The rows change under an upgrader that marks the next version, or a downgrader that finishes one. */
  ghost predicate Adds(w: World, i: nat, w': World)
    requires i < |w.runners|
  {
    var r := w.runners[i];
    && r.dir == Up && r.phase.Walking? && r.todo != [] && r.todo[0] !in w.rows
      && w'.rows.Keys == w.rows.Keys + {r.todo[0]}
    && |w'.runners| == |w.runners| && w'.runners[i].phase.Marked?
    && w'.runners == w.runners[i := r.(phase := w'.runners[i].phase)]
  }

  ghost predicate Removes(w: World, i: nat, w': World)
    requires i < |w.runners|
  {
    var r := w.runners[i];
    && r.dir == Down && r.phase.Running? && r.todo != [] && r.todo[0] == r.phase.m.version
    && w'.rows.Keys == w.rows.Keys - {r.todo[0]}
    && w'.runners == w.runners[i := r.(phase := Walking, todo := r.todo[1..])]
  }

  ghost predicate Stays(w: World, i: nat, w': World, ms: Catalog, c: Scope)
    requires i < |w.runners|
  {
    && w'.rows.Keys == w.rows.Keys && |w'.runners| == |w.runners|
    && w'.runners == w.runners[i := w'.runners[i]]
    && w'.runners[i].dir == w.runners[i].dir && w'.runners[i].target == w.runners[i].target
    && w'.runners[i].catalog == w.runners[i].catalog
    && Climbs(w'.rows, w'.runners[i], ms, c) && Descends(w'.rows, w'.runners[i], c)
  }

  lemma VisitChanges(w: World, i: nat, w': World, ms: Catalog, c: Scope)
    requires i < |w.runners| && Ordered(w, ms, c) && Visit(w, i, w')
    ensures Adds(w, i, w') || Stays(w, i, w', ms, c)
  {
    hide Inv, Versions, Gap, Local, Within;
    var r := w.runners[i];
    assert Climbs(w.rows, r, ms, c) && Descends(w.rows, r, c) && Within(r, ms, c);
    if w'.runners[i] == r.(todo := r.todo[1..]) {
      if r.dir == Up {
        NextClimbs(w.rows, r, w'.runners[i], ms, c);
      } else {
        assert w.rows.Keys == w.rows.Keys - {r.todo[0]};
        NextDescends(w.rows, w.rows, r, w'.runners[i], ms, c);
      }
    }
  }

  lemma CommitChanges(w: World, i: nat, w': World, ms: Catalog, c: Scope)
    requires i < |w.runners| && Ordered(w, ms, c) && Commit(w, i, w')
    ensures Removes(w, i, w') || Stays(w, i, w', ms, c)
  {
    hide Versions, Gap, Local, Within;
    var r := w.runners[i];
    assert Climbs(w.rows, r, ms, c) && Owned(w, r);
    if r.dir == Up {
      NextClimbs(w'.rows, r, w'.runners[i], ms, c);
    }
  }

  lemma QuietChanges(w: World, i: nat, w': World, ms: Catalog, c: Scope)
    requires i < |w.runners| && Ordered(w, ms, c)
    requires Start(w, i, w') || Begin(w, i, w') || Stop(w, i, w') || Finish(w, i, w')
    ensures Stays(w, i, w', ms, c)
  {
    hide Versions, Gap, Local, Within, Inv;
    assert Climbs(w.rows, w.runners[i], ms, c) && Descends(w.rows, w.runners[i], c);
    if Start(w, i, w') {
      StartWalks(w, i, w', ms, c);
      var todo :| StartWith(w, i, w', todo);
    }
  }

  // ----- each kind of step keeps the order

  lemma AddOrdered(w: World, i: nat, w': World, ms: Catalog, c: Scope)
    requires i < |w.runners| && Ordered(w, ms, c) && Adds(w, i, w') && Inv(w')
    ensures Ordered(w', ms, c)
  {
    hide Versions, Local, Within, Consecutive;
    var v := w.runners[i].todo[0];
    assert Climbs(w.rows, w.runners[i], ms, c) && Within(w.runners[i], ms, c) && v in c.add;
    assert w'.runners[i].catalog == ms by { assert Within(w.runners[i], ms, c); CatalogIs(w.runners[i], ms, c); }
    OwnedLocal(w', i, ms);
    forall j | 0 <= j < |w'.runners|
      ensures Within(w'.runners[j], ms, c) && Climbs(w'.rows, w'.runners[j], ms, c)
        && Descends(w'.rows, w'.runners[j], c)
    {
      assert Within(w.runners[j], ms, c) && Climbs(w.rows, w.runners[j], ms, c) && Descends(w.rows, w.runners[j], c);
      if j == i { SameScope(w.runners[i], w'.runners[i], ms, c); }
    }
  }

  lemma CatalogIs(r: Runner, ms: Catalog, c: Scope)
    requires Within(r, ms, c)
    ensures r.catalog == ms
  {
  }

  lemma OwnedLocal(w: World, i: nat, ms: Catalog)
    requires i < |w.runners| && Inv(w) && w.runners[i].catalog == ms && w.runners[i].phase.Marked?
    ensures Owned(w, w.runners[i]) && w.runners[i].todo != [] && w.runners[i].todo[0] in Versions(ms)
  {
    assert Owned(w, w.runners[i]);
  }

  lemma SameScope(r: Runner, r': Runner, ms: Catalog, c: Scope)
    requires Within(r, ms, c) && r'.dir == r.dir && r'.target == r.target && r'.catalog == r.catalog
    ensures Within(r', ms, c)
  {
  }

  /** What a downgrader takes away is in its reach, so no upgrader goes past it. */
  lemma RemovedInScope(w: World, i: nat, w': World, ms: Catalog, c: Scope)
    requires i < |w.runners| && Ordered(w, ms, c) && Removes(w, i, w')
    ensures w.runners[i].todo[0] in c.rem && w.runners[i].todo[0] !in c.held
    ensures forall v :: v in w'.rows ==> v <= w.runners[i].todo[0]
  {
    var r := w.runners[i];
    var m := r.phase.m;
    assert Within(r, ms, c) && Descends(w.rows, r, c) && Owned(w, r);
    assert r.todo[0] in r.todo && Local(ms, m.version) == Some(m);
    FirstIsGreatest(r.todo);
    assert forall h :: h in c.held && h > m.version ==> h in r.todo;
    assert Removable(m, c);
  }

  lemma FirstIsGreatest(todo: seq<nat>)
    requires todo != [] && forall i, j :: 0 <= i < j < |todo| ==> todo[i] > todo[j]
    ensures forall v :: v in todo ==> v <= todo[0]
  {
  }

  lemma RemoveOrdered(w: World, i: nat, w': World, ms: Catalog, c: Scope)
    requires i < |w.runners| && Ordered(w, ms, c) && Removes(w, i, w') && Inv(w')
    ensures Ordered(w', ms, c)
  {
    hide Versions, Local, Within, Consecutive, Inv;
    RemovedInScope(w, i, w', ms, c);
    var r := w.runners[i];
    assert Descends(w.rows, r, c);
    NextDescends(w.rows, w'.rows, r, w'.runners[i], ms, c);
    forall j | 0 <= j < |w'.runners|
      ensures Within(w'.runners[j], ms, c) && Climbs(w'.rows, w'.runners[j], ms, c)
        && Descends(w'.rows, w'.runners[j], c)
    {
      assert Within(w.runners[j], ms, c) && Climbs(w.rows, w.runners[j], ms, c) && Descends(w.rows, w.runners[j], c);
      if j == i { SameScope(w.runners[i], w'.runners[i], ms, c); }
      else if w.runners[j].todo != [] { assert w.runners[j].todo[0] in w.runners[j].todo; }
    }
  }

  lemma StayOrdered(w: World, i: nat, w': World, ms: Catalog, c: Scope)
    requires i < |w.runners| && Ordered(w, ms, c) && Stays(w, i, w', ms, c) && Inv(w')
    ensures Ordered(w', ms, c)
  {
    hide Versions, Local, Within, Consecutive, Inv;
    forall j | 0 <= j < |w'.runners|
      ensures Within(w'.runners[j], ms, c) && Climbs(w'.rows, w'.runners[j], ms, c)
        && Descends(w'.rows, w'.runners[j], c)
    {
      assert Within(w.runners[j], ms, c) && Climbs(w.rows, w.runners[j], ms, c) && Descends(w.rows, w.runners[j], c);
      if j == i { SameScope(w.runners[i], w'.runners[i], ms, c); }
    }
  }

  lemma OrderedStep(w: World, i: nat, w': World, ms: Catalog, c: Scope)
    requires i < |w.runners| && Ordered(w, ms, c) && Step(w, i, w')
    ensures Ordered(w', ms, c)
  {
    hide Start, Visit, Begin, Commit, Stop, Finish, Adds, Removes, Stays, Inv;
    assert Inv(w);
    StepKeeps(w, i, w');
    if Visit(w, i, w') {
      VisitChanges(w, i, w', ms, c);
    } else if Commit(w, i, w') {
      CommitChanges(w, i, w', ms, c);
    } else {
      QuietChanges(w, i, w', ms, c);
    }
    if Adds(w, i, w') { AddOrdered(w, i, w', ms, c); }
    else if Removes(w, i, w') { RemoveOrdered(w, i, w', ms, c); }
    else { StayOrdered(w, i, w', ms, c); }
  }

  lemma {:induction false} OrderedRun(ws: seq<World>, k: nat, ms: Catalog, c: Scope)
    requires IsRun(ws) && k < |ws| && Ordered(ws[0], ms, c)
    ensures Ordered(ws[k], ms, c)
  {
    hide Ordered, Step;
    if k > 0 {
      OrderedRun(ws, k - 1, ms, c);
      assert Next(ws[k - 1], ws[k]);
      var i :| 0 <= i < |ws[k - 1].runners| && Step(ws[k - 1], i, ws[k]);
      OrderedStep(ws[k - 1], i, ws[k], ms, c);
    }
  }

  // ----- the scope of a set of runners

  ghost function Reach(w: World, ms: Catalog): Scope {
    var held := set m | m in ms && m.version in w.rows && !m.reversible :: m.version;
    Scope(
      set v, r | v in Versions(ms) && r in w.runners && r.dir == Up && v <= r.target :: v,
      set m, r | m in ms && r in w.runners && r.dir == Down && m.version > r.target
        && m.reversible && (forall h :: h in held ==> h < m.version) :: m.version,
      held)
  }

  lemma HeldIs(w: World, ms: Catalog, v: nat)
    ensures v in Reach(w, ms).held <==> exists m :: m in ms && m.version == v && v in w.rows && !m.reversible
  {
  }

  lemma RemIs(w: World, ms: Catalog, v: nat) returns (m: Migration, j: nat)
    requires v in Reach(w, ms).rem
    ensures m in ms && m.version == v && Removable(m, Reach(w, ms))
    ensures j < |w.runners| && w.runners[j].dir == Down && v > w.runners[j].target
  {
    var r;
    m, r :| m in ms && r in w.runners && r.dir == Down && m.version > r.target && m.version == v
      && Removable(m, Reach(w, ms));
    j :| 0 <= j < |w.runners| && w.runners[j] == r;
  }

  lemma AddIs(w: World, ms: Catalog, v: nat) returns (i: nat)
    requires v in Reach(w, ms).add
    ensures v in Versions(ms) && i < |w.runners| && w.runners[i].dir == Up && v <= w.runners[i].target
  {
    var r :| r in w.runners && r.dir == Up && v <= r.target;
    i :| 0 <= i < |w.runners| && w.runners[i] == r;
  }

  lemma ScopesApart(w: World, ms: Catalog, u: nat, v: nat)
    requires u in Reach(w, ms).rem && v in Reach(w, ms).add && forall i, j :: !Crossing(w, ms, i, j, u)
    ensures v <= u
  {
    hide Reach, Versions, Local;
    var m, j := RemIs(w, ms, u);
    var i := AddIs(w, ms, v);
    assert !Crossing(w, ms, i, j, u);
    MigrationOf(ms, m);
    if v > u {
      Between(ms, u, v);
      forall x | x in ms && x.version >= u && (x.version == u || x.version in w.rows) ensures x.reversible {
        HeldIs(w, ms, x.version);
        MigrationOf(ms, x);
      }
    }
  }

  lemma MigrationOf(ms: Catalog, m: Migration)
    requires m in ms
    ensures m.version in Versions(ms) && Local(ms, m.version) == Some(m)
  {
  }

  lemma ReadyWithin(w: World, ms: Catalog, j: nat)
    requires j < |w.runners| && w.runners[j].catalog == ms
    ensures Within(w.runners[j], ms, Reach(w, ms))
  {
    assert w.runners[j] in w.runners;
  }

  lemma ReadyHeld(w: World, ms: Catalog, h: nat)
    requires h in Reach(w, ms).held
    ensures h in w.rows && h in Versions(ms) && !Local(ms, h).value.reversible
  {
    HeldIs(w, ms, h);
    var m :| m in ms && m.version == h && h in w.rows && !m.reversible;
    MigrationOf(ms, m);
  }

  lemma ReadyOrdered(w: World, ms: Catalog)
    requires Ready(w, ms) && forall i, j, u :: !Crossing(w, ms, i, j, u)
    ensures Ordered(w, ms, Reach(w, ms))
  {
    hide Reach, Versions, Local, Crossing, Within, Gap;
    var c := Reach(w, ms);
    forall u, v | u in c.rem && v in c.add ensures v <= u { ScopesApart(w, ms, u, v); }
    forall h | h in c.held ensures h in w.rows && h in Versions(ms) && !Local(ms, h).value.reversible {
      ReadyHeld(w, ms, h);
    }
    forall j | 0 <= j < |w.runners|
      ensures Within(w.runners[j], ms, c) && Climbs(w.rows, w.runners[j], ms, c) && Descends(w.rows, w.runners[j], c)
    {
      assert w.runners[j] in w.runners;
      ReadyWithin(w, ms, j);
    }
  }

  lemma Between(ms: Catalog, u: nat, v: nat)
    requires u in Versions(ms) && v in Versions(ms) && u < v
    ensures u + 1 in Versions(ms)
  {
    assert ms[u + 1 - ms[0].version] in ms;
  }

  // ----- with such a pair there is one

  lemma ReachesSelf(w: World)
    ensures Reaches(w, w)
  {
    assert RunFromTo([w], w, w);
  }

  lemma ReachesStep(w: World, a: World, i: nat, b: World)
    requires Reaches(w, a) && i < |a.runners| && Step(a, i, b)
    ensures Reaches(w, b)
  {
    hide Step;
    var ws :| RunFromTo(ws, w, a);
    assert Next(a, b);
    var all := ws + [b];
    forall k | 0 < k < |all| ensures Next(all[k - 1], all[k]) {
      if k < |ws| { assert all[k - 1] == ws[k - 1] && all[k] == ws[k]; }
    }
    assert RunFromTo(all, w, b);
  }

  /** No script transaction is open. */
  ghost predicate Quiet(w: World) { forall r :: r in w.runners ==> !r.phase.Running? }

  /** Runner i applies the next version on its list. */
  ghost function AppliedBy(w: World, i: nat, m: Migration): World
    requires i < |w.runners| && w.runners[i].todo != []
  {
    World(w.rows[m.version := CleanRow(m)], w.schema[m.version := m.checksum],
      w.runners[i := w.runners[i].(phase := Walking, todo := w.runners[i].todo[1..])])
  }

  lemma Applies(start: World, w: World, i: nat, m: Migration)
    requires Reaches(start, w) && Quiet(w) && i < |w.runners|
    requires var r := w.runners[i];
      r.dir == Up && r.phase == Walking && r.todo != [] && r.todo[0] == m.version
        && Local(r.catalog, m.version) == Some(m)
    requires m.version !in w.rows
    ensures Reaches(start, AppliedBy(w, i, m)) && Quiet(AppliedBy(w, i, m))
  {
    hide Local, Reaches;
    var r, v := w.runners[i], m.version;
    assert r in w.runners;
    var marked := With(w, i, r.(phase := Marked(m))).(rows := w.rows[v := Row(m.name, m.checksum, true, m.reversible)]);
    assert Visit(w, i, marked);
    ReachesStep(start, w, i, marked);
    var running := With(marked, i, r.(phase := Running(m)));
    QuietWith(w, i, r.(phase := Marked(m)));
    assert LockFree(marked, v) && Begin(marked, i, running);
    ReachesStep(start, marked, i, running);
    var done := AppliedBy(w, i, m);
    assert ClearMark(running.rows, m) == done.rows;
    assert Commit(running, i, done);
    ReachesStep(start, running, i, done);
    QuietWith(w, i, done.runners[i]);
  }

  lemma QuietWith(w: World, i: nat, r: Runner)
    requires Quiet(w) && i < |w.runners| && !r.phase.Running?
    ensures Quiet(With(w, i, r))
  {
  }

  /** Runner i takes the next version on its list away. */
  ghost function RevertedBy(w: World, i: nat): World
    requires i < |w.runners| && w.runners[i].todo != []
  {
    var r := w.runners[i];
    World(w.rows - {r.todo[0]}, w.schema - {r.todo[0]}, w.runners[i := r.(phase := Walking, todo := r.todo[1..])])
  }

  lemma Reverts(start: World, w: World, i: nat, m: Migration)
    requires Reaches(start, w) && Quiet(w) && i < |w.runners|
    requires var r := w.runners[i];
      r.dir == Down && r.phase == Walking && r.todo != [] && r.todo[0] == m.version
        && Local(r.catalog, m.version) == Some(m)
    requires m.version in w.rows && w.rows[m.version] == CleanRow(m) && m.reversible
    ensures Reaches(start, RevertedBy(w, i)) && Quiet(RevertedBy(w, i))
  {
    hide Local, Reaches;
    var r, v := w.runners[i], m.version;
    assert r in w.runners;
    var marked := With(w, i, r.(phase := Marked(m))).(rows := w.rows[v := w.rows[v].(dirty := true)]);
    assert Visit(w, i, marked);
    ReachesStep(start, w, i, marked);
    var running := With(marked, i, r.(phase := Running(m)));
    QuietWith(w, i, r.(phase := Marked(m)));
    assert LockFree(marked, v) && Begin(marked, i, running);
    ReachesStep(start, marked, i, running);
    var done := RevertedBy(w, i);
    assert RemoveMark(running.rows, v) == done.rows;
    assert Commit(running, i, done);
    ReachesStep(start, running, i, done);
    QuietWith(w, i, done.runners[i]);
  }

  // ----- the crossing run

  /** The rows and the schema with exactly the local versions up to b. */
  ghost function RowsTo(ms: Catalog, b: int): Rows {
    map v | v in Versions(ms) && v <= b :: CleanRow(Local(ms, v).value)
  }

  ghost function SchemaTo(ms: Catalog, b: int): map<nat, string> {
    map v | v in Versions(ms) && v <= b :: Local(ms, v).value.checksum
  }

  ghost function At(w: World, ms: Catalog, b: int, i: nat, up: Runner, j: nat, down: Runner): World
    requires i < |w.runners| && j < |w.runners|
  {
    World(RowsTo(ms, b), SchemaTo(ms, b), w.runners[i := up][j := down])
  }

  function From(x: nat, n: int): seq<nat> { if x > n then [] else seq(n - x + 1, k requires 0 <= k => x + k) }

  function DownTo(b: int, x: nat): seq<nat> {
    if b < x then [] else seq(b - x + 1, k requires 0 <= k <= b - x => b - k)
  }

  lemma RowsNext(ms: Catalog, x: nat)
    requires x in Versions(ms)
    ensures RowsTo(ms, x) == RowsTo(ms, x - 1)[x := CleanRow(Local(ms, x).value)]
    ensures SchemaTo(ms, x) == SchemaTo(ms, x - 1)[x := Local(ms, x).value.checksum]
    ensures RowsTo(ms, x) - {x} == RowsTo(ms, x - 1) && SchemaTo(ms, x) - {x} == SchemaTo(ms, x - 1)
  {
    hide Versions, Local;
  }

  /** Without a gap the applied versions are those up to some version. */
  lemma AppliedUpTo(rows: Rows, ms: Catalog) returns (b: int)
    requires rows.Keys <= Versions(ms) && !Gap(rows, ms)
    ensures ms != [] ==> ms[0].version - 1 <= b < ms[0].version + |ms|
    ensures forall v :: v in rows <==> v in Versions(ms) && v <= b
  {
    hide Gap;
    var k := 0;
    while k < |ms| && ms[k].version in rows
      invariant 0 <= k <= |ms| && forall i :: 0 <= i < k ==> ms[i].version in rows
    {
      k := k + 1;
    }
    b := if ms == [] then -1 else ms[0].version + k - 1;
    forall v | v in Versions(ms) ensures v in rows <==> v <= b {
      var i :| 0 <= i < |ms| && ms[i].version == v;
      if i >= k {
        MigrationOf(ms, ms[k]);
        NoGapAbove(rows, ms, ms[k].version, v);
      }
    }
  }

  lemma NoGapAbove(rows: Rows, ms: Catalog, u: nat, v: nat)
    requires !Gap(rows, ms) && u in Versions(ms) && u !in rows && v >= u
    ensures v !in rows
  {
  }

  /** The rows to begin with are of this kind. */
  lemma ReadyRows(w: World, ms: Catalog) returns (b: int)
    requires Ready(w, ms)
    ensures w.rows == RowsTo(ms, b) && w.schema == SchemaTo(ms, b)
    ensures ms != [] ==> ms[0].version - 1 <= b < ms[0].version + |ms|
    ensures forall v :: v in w.rows <==> v in Versions(ms) && v <= b
  {
    hide Gap, Versions, Local;
    b := AppliedUpTo(w.rows, ms);
    assert w.rows.Keys == RowsTo(ms, b).Keys && w.schema.Keys == SchemaTo(ms, b).Keys;
    forall v | v in w.rows ensures w.rows[v] == CleanRow(Local(ms, v).value) { VerifiedRow(w.rows, ms, v); }
  }

  lemma VerifiedRow(rows: Rows, ms: Catalog, v: nat)
    requires Verified(rows, ms) && v in rows
    ensures v in Versions(ms) && rows[v] == CleanRow(Local(ms, v).value)
  {
  }

  // ----- the crossing run

  ghost predicate Walker(r: Runner, dir: Direction, ms: Catalog) {
    r.dir == dir && r.catalog == ms && r.phase == Walking
  }

  lemma QuietAt(w: World, ms: Catalog, b: int, i: nat, up: Runner, j: nat, down: Runner)
    requires Quiet(w) && i < |w.runners| && j < |w.runners| && !up.phase.Running? && !down.phase.Running?
    ensures Quiet(At(w, ms, b, i, up, j, down))
  {
  }

  /** The upgrader deals with version x. */
  lemma ClimbOne(w: World, ms: Catalog, b: int, x: nat, n: int, i: nat, up: Runner, j: nat, down: Runner)
    requires i < |w.runners| && j < |w.runners| && i != j && Quiet(w) && !down.phase.Running?
    requires Walker(up, Up, ms) && up.todo == From(x, n) && x in Versions(ms) && x - 1 <= b && x <= n
    requires Reaches(w, At(w, ms, b, i, up, j, down))
    ensures Reaches(w, At(w, ms, if b < x then x else b, i, up.(todo := From(x + 1, n)), j, down))
  {
    hide Reaches, Versions, Local, At;
    var m := LocalOf(ms, x);
    assert up.todo[0] == x && up.todo[1..] == From(x + 1, n);
    QuietAt(w, ms, b, i, up, j, down);
    if x <= b {
      ClimbPast(w, ms, b, m, i, up, j, down);
    } else {
      ClimbNew(w, ms, m, i, up, j, down);
    }
  }

  lemma NotYet(ms: Catalog, x: nat)
    ensures x !in RowsTo(ms, x - 1)
  {
  }

  /** The next version is applied. */
  lemma ClimbNew(w: World, ms: Catalog, m: Migration, i: nat, up: Runner, j: nat, down: Runner)
    requires i < |w.runners| && j < |w.runners| && i != j && Walker(up, Up, ms)
    requires up.todo != [] && up.todo[0] == m.version && m.version in Versions(ms) && Local(ms, m.version) == Some(m)
    requires Quiet(At(w, ms, m.version - 1, i, up, j, down)) && Reaches(w, At(w, ms, m.version - 1, i, up, j, down))
    ensures Reaches(w, At(w, ms, m.version, i, up.(todo := up.todo[1..]), j, down))
  {
    hide Reaches, Versions, Local, RowsTo, SchemaTo;
    var a, up' := At(w, ms, m.version - 1, i, up, j, down), up.(todo := up.todo[1..]);
    assert a.runners[i] == up;
    NotYet(ms, m.version);
    Applies(w, a, i, m);
    RowsNext(ms, m.version);
    assert a.runners[i := up'] == w.runners[i := up'][j := down];
    assert AppliedBy(a, i, m) == At(w, ms, m.version, i, up', j, down);
  }

  /** An applied version is passed. */
  lemma ClimbPast(w: World, ms: Catalog, b: int, m: Migration, i: nat, up: Runner, j: nat, down: Runner)
    requires i < |w.runners| && j < |w.runners| && i != j && Walker(up, Up, ms)
    requires up.todo != [] && up.todo[0] == m.version && m.version in Versions(ms) && m.version <= b
      && Local(ms, m.version) == Some(m)
    requires Quiet(At(w, ms, b, i, up, j, down)) && Reaches(w, At(w, ms, b, i, up, j, down))
    ensures Reaches(w, At(w, ms, b, i, up.(todo := up.todo[1..]), j, down))
  {
    hide Reaches, Versions, Local, SchemaTo;
    var a, up' := At(w, ms, b, i, up, j, down), up.(todo := up.todo[1..]);
    var a' := At(w, ms, b, i, up', j, down);
    assert a.rows[m.version] == CleanRow(m);
    assert LockFree(a, m.version);
    assert w.runners[i := up][j := down][i := up'] == w.runners[i := up'][j := down];
    assert Visit(a, i, a');
    ReachesStep(w, a, i, a');
  }

  lemma LocalOf(ms: Catalog, x: nat) returns (m: Migration)
    requires x in Versions(ms)
    ensures m in ms && m.version == x && Local(ms, x) == Some(m)
  {
    m :| m in ms && m.version == x;
  }

  /** ... and with all from x up to u. */
  lemma {:induction false} ClimbTo(w: World, ms: Catalog, b: int, x: nat, u: nat, n: int, i: nat, up: Runner, j: nat,
                                   down: Runner)
    requires i < |w.runners| && j < |w.runners| && i != j && Quiet(w) && !down.phase.Running?
    requires Walker(up, Up, ms) && up.todo == From(x, n) && x - 1 <= b && x <= u + 1 && u <= n
    requires forall v: nat :: x <= v <= u ==> v in Versions(ms)
    requires Reaches(w, At(w, ms, b, i, up, j, down))
    ensures Reaches(w, At(w, ms, if b < u then u else b, i, up.(todo := From(u + 1, n)), j, down))
    decreases u + 1 - x
  {
    hide Reaches, Versions, At, From;
    if x <= u {
      ClimbOne(w, ms, b, x, n, i, up, j, down);
      ClimbTo(w, ms, if b < x then x else b, x + 1, u, n, i, up.(todo := From(x + 1, n)), j, down);
    } else {
      assert up.(todo := From(u + 1, n)) == up;
    }
  }

  /** The downgrader takes version b away. */
  lemma DescendOne(w: World, ms: Catalog, b: nat, x: nat, i: nat, up: Runner, j: nat, down: Runner)
    requires i < |w.runners| && j < |w.runners| && i != j && Quiet(w) && !up.phase.Running?
    requires Walker(down, Down, ms) && down.todo == DownTo(b, x) && x <= b && b in Versions(ms)
      && Local(ms, b).value.reversible
    requires Reaches(w, At(w, ms, b, i, up, j, down))
    ensures Reaches(w, At(w, ms, b - 1, i, up, j, down.(todo := DownTo(b - 1, x))))
  {
    hide Reaches, Versions, Local;
    var a, down' := At(w, ms, b, i, up, j, down), down.(todo := DownTo(b - 1, x));
    var m := LocalOf(ms, b);
    assert down.todo[0] == b && down.todo[1..] == DownTo(b - 1, x) && a.runners[j] == down;
    QuietAt(w, ms, b, i, up, j, down);
    RowsNext(ms, b);
    Reverts(w, a, j, m);
    assert RevertedBy(a, j) == At(w, ms, b - 1, i, up, j, down');
  }

  lemma {:induction false} DescendTo(w: World, ms: Catalog, b: int, x: nat, u: nat, i: nat, up: Runner, j: nat,
                                     down: Runner)
    requires i < |w.runners| && j < |w.runners| && i != j && Quiet(w) && !up.phase.Running?
    requires Walker(down, Down, ms) && down.todo == DownTo(b, x) && x <= u <= b + 1
    requires forall v: nat :: u <= v <= b ==> v in Versions(ms) && Local(ms, v).value.reversible
    requires Reaches(w, At(w, ms, b, i, up, j, down))
    ensures Reaches(w, At(w, ms, u - 1, i, up, j, down.(todo := DownTo(u - 1, x))))
    decreases b + 1 - u
  {
    hide Reaches, Versions, At, DownTo, Local;
    if u <= b {
      DescendOne(w, ms, b, x, i, up, j, down);
      DescendTo(w, ms, b - 1, x, u, i, up, j, down.(todo := DownTo(b - 1, x)));
    } else {
      assert down.(todo := DownTo(u - 1, x)) == down;
    }
  }

  lemma VersionsAre(ms: Catalog)
    ensures forall v :: v in Versions(ms) <==> ms != [] && ms[0].version <= v < ms[0].version + |ms|
  {
    forall v | ms != [] && ms[0].version <= v < ms[0].version + |ms| ensures v in Versions(ms) {
      assert ms[v - ms[0].version] in ms;
    }
  }

  lemma UpTodoFrom(ms: Catalog, target: int, n: int)
    requires ms != [] && ms[0].version <= n
      && n == if ms[0].version + |ms| - 1 <= target then ms[0].version + |ms| - 1 else target
    ensures UpTodo(ms, target) == From(ms[0].version, n)
  {
  }

  lemma DownTodoIs(ms: Catalog, b: int, target: int, x: nat)
    requires ms != [] && b < ms[0].version + |ms| && x == if target < ms[0].version then ms[0].version else target + 1
    ensures DownTodo(RowsTo(ms, b), target, DownTo(b, x))
  {
    VersionsAre(ms);
    var todo := DownTo(b, x);
    forall v | v in RowsTo(ms, b) && v > target ensures v in todo {
      assert todo[b - v] == v;
    }
  }

  /** The upgrader starts before anything has changed ... */
  lemma UpgraderBegins(w: World, ms: Catalog, b: int, i: nat, j: nat, n: int)
    requires Ready(w, ms) && w.rows == RowsTo(ms, b) && w.schema == SchemaTo(ms, b)
    requires i < |w.runners| && j < |w.runners| && i != j && w.runners[i].dir == Up && ms != [] && ms[0].version <= n
    requires n == if ms[0].version + |ms| - 1 <= w.runners[i].target then ms[0].version + |ms| - 1
      else w.runners[i].target
    ensures Reaches(w,
      At(w, ms, b, i, w.runners[i].(phase := Walking, todo := From(ms[0].version, n)), j, w.runners[j]))
  {
    hide Reaches, From, UpTodo, Versions, RowsTo, SchemaTo, Gap, Honest;
    assert w.runners[i] in w.runners;
    var up := w.runners[i].(phase := Walking, todo := From(ms[0].version, n));
    var first := At(w, ms, b, i, up, j, w.runners[j]);
    UpTodoFrom(ms, up.target, n);
    assert w.runners[i := up][j := w.runners[j]] == w.runners[i := up];
    assert StartWith(w, i, first, up.todo);
    ReachesSelf(w);
    ReachesStep(w, w, i, first);
  }

  /** ... and the downgrader when the rows are those up to c. */
  lemma DowngraderBegins(w: World, ms: Catalog, c: int, i: nat, up: Runner, j: nat, x: nat)
    requires i < |w.runners| && j < |w.runners| && i != j && w.runners[j].dir == Down && w.runners[j].phase == Idle
    requires ms != [] && c < ms[0].version + |ms|
    requires x == if w.runners[j].target < ms[0].version then ms[0].version else w.runners[j].target + 1
    requires Reaches(w, At(w, ms, c, i, up, j, w.runners[j]))
    ensures Reaches(w, At(w, ms, c, i, up, j, w.runners[j].(phase := Walking, todo := DownTo(c, x))))
  {
    hide Reaches, DownTo, DownTodo, RowsTo, SchemaTo;
    var down := w.runners[j];
    var down' := down.(phase := Walking, todo := DownTo(c, x));
    var second, third := At(w, ms, c, i, up, j, down), At(w, ms, c, i, up, j, down');
    DownTodoIs(ms, c, down.target, x);
    assert w.runners[i := up][j := down][j := down'] == w.runners[i := up][j := down'];
    assert StartWith(second, j, third, down'.todo);
    ReachesStep(w, second, j, third);
  }

  /** Both runners start: the upgrader first, and the downgrader once it has come past u. */
  lemma BothStart(w: World, ms: Catalog, b: int, i: nat, j: nat, u: nat, n: int, x: nat)
    requires Ready(w, ms) && w.rows == RowsTo(ms, b) && w.schema == SchemaTo(ms, b) && Crossing(w, ms, i, j, u)
    requires ms[0].version - 1 <= b < ms[0].version + |ms|
    requires n == if ms[0].version + |ms| - 1 <= w.runners[i].target then ms[0].version + |ms| - 1
      else w.runners[i].target
    requires x == if w.runners[j].target < ms[0].version then ms[0].version else w.runners[j].target + 1
    ensures var c := if b < u then u else b;
      Reaches(w, At(w, ms, c, i, w.runners[i].(phase := Walking, todo := From(u + 1, n)),
                    j, w.runners[j].(phase := Walking, todo := DownTo(c, x))))
  {
    hide Reaches, From, DownTo, At, Versions, RowsTo, SchemaTo, Gap, Honest, Verified;
    VersionsAre(ms);
    var up, down, c := w.runners[i], w.runners[j], if b < u then u else b;
    assert up in w.runners && down in w.runners;
    var up' := up.(phase := Walking, todo := From(ms[0].version, n));
    UpgraderBegins(w, ms, b, i, j, n);
    ClimbTo(w, ms, b, ms[0].version, u, n, i, up', j, down);
    var past := up.(phase := Walking, todo := From(u + 1, n));
    assert up'.(todo := From(u + 1, n)) == past;
    DowngraderBegins(w, ms, c, i, past, j, x);
  }

  ghost predicate Settled(rows: Rows) { forall v :: v in rows ==> !rows[v].dirty }

  /** The upgrader marks and applies the version above u, which is gone. */
  lemma AboveTheGap(w: World, ms: Catalog, i: nat, up: Runner, j: nat, down: Runner, u: nat, n: int)
    returns (end: World)
    requires i < |w.runners| && j < |w.runners| && i != j && Quiet(w) && !down.phase.Running?
    requires Walker(up, Up, ms) && up.todo == From(u + 1, n) && u + 1 <= n && u in Versions(ms) && u + 1 in Versions(ms)
    requires Reaches(w, At(w, ms, u - 1, i, up, j, down))
    ensures Reaches(w, end) && Gap(end.rows, ms) && Settled(end.rows)
  {
    hide Reaches, Local, Versions, Gap;
    var low := At(w, ms, u - 1, i, up, j, down);
    QuietAt(w, ms, u - 1, i, up, j, down);
    var m := LocalOf(ms, u + 1);
    assert low.runners[i] == up && From(u + 1, n)[0] == u + 1;
    Applies(w, low, i, m);
    end := AppliedBy(low, i, m);
    GapIs(end.rows, ms, u, u + 1);
  }

  lemma CrossingGaps(w: World, ms: Catalog, i: nat, j: nat, u: nat) returns (end: World)
    requires Ready(w, ms) && Crossing(w, ms, i, j, u)
    ensures Reaches(w, end) && Gap(end.rows, ms) && Settled(end.rows)
  {
    hide Reaches, Local, Versions, Gap, Settled, At, Honest, Verified;
    VersionsAre(ms);
    var b := ReadyRows(w, ms);
    var n := if ms[0].version + |ms| - 1 <= w.runners[i].target then ms[0].version + |ms| - 1 else w.runners[i].target;
    var x := if w.runners[j].target < ms[0].version then ms[0].version else w.runners[j].target + 1;
    BothStart(w, ms, b, i, j, u, n, x);
    var c := if b < u then u else b;
    var up, down := w.runners[i].(phase := Walking, todo := From(u + 1, n)),
      w.runners[j].(phase := Walking, todo := DownTo(c, x));
    assert w.runners[i] in w.runners && w.runners[j] in w.runners;
    forall v: nat | u <= v <= c ensures v in Versions(ms) && Local(ms, v).value.reversible { var m := LocalOf(ms, v); }
    DescendTo(w, ms, c, x, u, i, up, j, down);
    end := AboveTheGap(w, ms, i, up, j, down.(todo := DownTo(u - 1, x)), u, n);
  }

  lemma GapIs(rows: Rows, ms: Catalog, u: nat, v: nat)
    requires u in Versions(ms) && v in rows && u < v && u !in rows
    ensures Gap(rows, ms)
  {
  }

  /** From verified rows without a gap some run of these runners, with any interleaving, crashes and failures,
      has a gap at some moment exactly when an upgrader and a downgrader cross; and then a run has one in which
      every row is clean, so that nothing shows it. */
  lemma GapExactly(w: World, ms: Catalog)
    requires Ready(w, ms)
    ensures (exists end :: Reaches(w, end) && Gap(end.rows, ms)) <==> exists i, j, u :: Crossing(w, ms, i, j, u)
    ensures (exists end :: Reaches(w, end) && Gap(end.rows, ms) && Settled(end.rows)) <==>
      exists i, j, u :: Crossing(w, ms, i, j, u)
  {
    hide Crossing, Gap, Settled, Ordered, Ready;
    if i, j, u :| Crossing(w, ms, i, j, u) {
      var end := CrossingGaps(w, ms, i, j, u);
    } else {
      ReadyOrdered(w, ms);
      forall end | Reaches(w, end) ensures !Gap(end.rows, ms) {
        var ws :| RunFromTo(ws, w, end);
        OrderedRun(ws, |ws| - 1, ms, Reach(w, ms));
        OrderedHasNoGap(end, ms, Reach(w, ms));
      }
    }
  }

  lemma OrderedHasNoGap(w: World, ms: Catalog, c: Scope)
    requires Ordered(w, ms, c)
    ensures !Gap(w.rows, ms)
  {
  }

  /** Upgraders alone, and downgraders alone, never leave a gap. */
  lemma OneDirectionLeavesNoGap(w: World, end: World, ms: Catalog, dir: Direction)
    requires Ready(w, ms) && Reaches(w, end) && forall r :: r in w.runners ==> r.dir == dir
    ensures !Gap(end.rows, ms)
  {
    hide Ready, Reaches, Gap;
    GapExactly(w, ms);
    forall i: nat, j: nat, u: nat ensures !Crossing(w, ms, i, j, u) {
      if i < |w.runners| && j < |w.runners| { assert w.runners[i] in w.runners && w.runners[j] in w.runners; }
    }
  }

  // ----- both runners may return

  /** An upgrader that finds none of the rest of its list applies all of it. */
  lemma {:induction false} AppliesAll(start: World, w: World, ms: Catalog, i: nat, y: nat, n: int) returns (end: World)
    requires Reaches(start, w) && Quiet(w) && i < |w.runners|
    requires Walker(w.runners[i], Up, ms) && w.runners[i].todo == From(y, n) && Verified(w.rows, ms)
    requires forall v: nat :: y <= v <= n ==> v in Versions(ms) && v !in w.rows
    ensures Reaches(start, end) && Quiet(end) && Verified(end.rows, ms)
    ensures end.runners == w.runners[i := w.runners[i].(todo := [])]
    ensures forall v :: v in end.rows <==> v in w.rows || y <= v <= n
    decreases n - y
  {
    hide Reaches, Local, Versions, Quiet, Verified;
    var up := w.runners[i];
    if y > n {
      end := w;
      assert From(y, n) == [] && w.runners[i := up.(todo := [])] == w.runners;
    } else {
      var m := LocalOf(ms, y);
      assert up.todo[0] == y && up.todo[1..] == From(y + 1, n);
      Applies(start, w, i, m);
      var w' := AppliedBy(w, i, m);
      VerifiedWith(w.rows, ms, m);
      end := AppliesAll(start, w', ms, i, y + 1, n);
      assert w'.runners[i := w'.runners[i].(todo := [])] == w.runners[i := up.(todo := [])];
    }
  }

  lemma VerifiedWith(rows: Rows, ms: Catalog, m: Migration)
    requires Verified(rows, ms) && Local(ms, m.version) == Some(m)
    ensures Verified(rows[m.version := CleanRow(m)], ms)
  {
  }

  lemma VerifiedTo(ms: Catalog, b: int)
    ensures Verified(RowsTo(ms, b), ms) && Settled(RowsTo(ms, b))
  {
  }

  /** A runner whose list is done returns; an upgrader only where verification succeeds. */
  lemma Returns(start: World, w: World, ms: Catalog, i: nat)
    requires Reaches(start, w) && i < |w.runners| && w.runners[i].phase == Walking && w.runners[i].todo == []
    requires w.runners[i].catalog == ms && Verified(w.rows, ms)
    ensures Reaches(start, With(w, i, w.runners[i].(phase := Returned)))
  {
    hide Reaches, Verified;
    var end := With(w, i, w.runners[i].(phase := Returned));
    assert Finish(w, i, end);
    ReachesStep(start, w, i, end);
  }

  /** Where the runners cross and everything above the downgrader's target that is or gets applied before it is
      reversible, both may return normally, verification included, and leave the gap behind. */
  lemma BothReturn(w: World, ms: Catalog, i: nat, j: nat, u: nat) returns (end: World)
    requires Ready(w, ms) && Crossing(w, ms, i, j, u)
    requires forall m :: m in ms && m.version > w.runners[j].target && (m.version <= u || m.version in w.rows) ==>
      m.reversible
    ensures Reaches(w, end) && Gap(end.rows, ms) && Verified(end.rows, ms)
    ensures |end.runners| == |w.runners| && end.runners[i].phase == Returned && end.runners[j].phase == Returned
  {
    hide Reaches, Local, Versions, Gap, At, Honest, Verified, Quiet;
    VersionsAre(ms);
    var b := ReadyRows(w, ms);
    var n := if ms[0].version + |ms| - 1 <= w.runners[i].target then ms[0].version + |ms| - 1 else w.runners[i].target;
    var x := if w.runners[j].target < ms[0].version then ms[0].version else w.runners[j].target + 1;
    BothStart(w, ms, b, i, j, u, n, x);
    var c := if b < u then u else b;
    var up := w.runners[i].(phase := Walking, todo := From(u + 1, n));
    var down := w.runners[j].(phase := Walking, todo := DownTo(c, x));
    assert w.runners[i] in w.runners && w.runners[j] in w.runners;
    forall v: nat | x <= v <= c ensures v in Versions(ms) && Local(ms, v).value.reversible { var m := LocalOf(ms, v); }
    ReadyIsQuiet(w, ms);
    DescendTo(w, ms, c, x, x, i, up, j, down);
    end := UpgraderLast(w, ms, i, up, j, down.(todo := DownTo(x - 1, x)), u, n, x);
  }

  lemma ReadyIsQuiet(w: World, ms: Catalog)
    requires Ready(w, ms)
    ensures Quiet(w)
  {
  }

  /** The downgrader has taken everything down to x away and returns; then the upgrader applies the rest. */
  lemma UpgraderLast(w: World, ms: Catalog, i: nat, up: Runner, j: nat, down: Runner, u: nat, n: int, x: nat)
    returns (end: World)
    requires i < |w.runners| && j < |w.runners| && i != j && Quiet(w)
    requires Walker(up, Up, ms) && up.todo == From(u + 1, n) && Walker(down, Down, ms) && down.todo == []
    requires x <= u < n && u in Versions(ms) && forall v: nat :: u < v <= n ==> v in Versions(ms)
    requires Reaches(w, At(w, ms, x - 1, i, up, j, down))
    ensures Reaches(w, end) && Gap(end.rows, ms) && Verified(end.rows, ms)
    ensures |end.runners| == |w.runners| && end.runners[i].phase == Returned && end.runners[j].phase == Returned
  {
    hide Reaches, Local, Versions, Gap, Verified, Quiet;
    var low := At(w, ms, x - 1, i, up, j, down);
    VerifiedTo(ms, x - 1);
    QuietAt(w, ms, x - 1, i, up, j, down);
    Returns(w, low, ms, j);
    var returned := With(low, j, down.(phase := Returned));
    QuietWith(low, j, down.(phase := Returned));
    var full := AppliesAll(w, returned, ms, i, u + 1, n);
    Returns(w, full, ms, i);
    end := With(full, i, full.runners[i].(phase := Returned));
    GapIs(end.rows, ms, u, u + 1);
  }

  function M(v: nat): Migration { Migration(v, "m", "c", true) }

  const THREE: Catalog := [M(1), M(2), M(3)]

  /** The smallest race: versions one and two of three are applied, one runner goes up and one down to one. */
  lemma RaceLeavesGap() returns (start: World, end: World)
    ensures Ready(start, THREE) && Reaches(start, end) && Gap(end.rows, THREE) && Verified(end.rows, THREE)
    ensures |end.runners| == 2 && end.runners[0].phase == Returned && end.runners[1].phase == Returned
  {
    hide Reaches, Gap;
    start := World(map[1 := CleanRow(M(1)), 2 := CleanRow(M(2))], map[1 := "c", 2 := "c"],
      [Runner(Up, THREE, 3, Idle, []), Runner(Down, THREE, 1, Idle, [])]);
    ThreeReady(start.rows);
    assert Crossing(start, THREE, 0, 1, 2);
    end := BothReturn(start, THREE, 0, 1, 2);
  }

  lemma ThreeReady(rows: Rows)
    requires rows == map[1 := CleanRow(M(1)), 2 := CleanRow(M(2))]
    ensures Verified(rows, THREE) && !Gap(rows, THREE)
    ensures forall v :: v in Versions(THREE) <==> 1 <= v <= 3
  {
    VersionsAre(THREE);
    assert THREE[1] in THREE && Local(THREE, 1) == Some(M(1)) && Local(THREE, 2) == Some(M(2));
  }
}
