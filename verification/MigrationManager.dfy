/** One uncrashed runner: what upgrade and downgrade return, where they raise, and that they undo each other. */
module MigrationManager {
  import opened Prelude
  import opened MigrationLedger

  datatype Db<S> = Db(rows: Rows, schema: S)

  /** What the script of a version makes of the schema, where it does not fail. */
  type Script<!S> = (nat, S) -> S

  type Failing<!S> = (nat, S) -> bool

  /** The first of some versions, taken in turn, whose script fails. */
  function FirstFailing<S>(script: Script<S>, fails: Failing<S>, vs: seq<nat>, s: S): Option<nat> {
    if vs == [] then None
    else if fails(vs[0], s) then Some(vs[0])
    else FirstFailing(script, fails, vs[1..], script(vs[0], s))
  }

  /** A marker is left behind where a script fails: its transaction is rolled back, the one before it is not. */
  function DirtyAt(rows: Rows, v: nat): Rows { if v in rows then rows[v := rows[v].(dirty := true)] else rows }

  /** The versions up to the target that are not applied, ascending. */
  function Missing(rows: Rows, ms: seq<Migration>, target: int): seq<nat> {
    if ms == [] || ms[0].version > target then []
    else (if ms[0].version in rows then [] else [ms[0].version]) + Missing(rows, ms[1..], target)
  }

  /** Scripts run one after the other. */
  function RunAll<S>(script: Script<S>, vs: seq<nat>, s: S): S {
    if vs == [] then s else RunAll(script, vs[1..], script(vs[0], s))
  }

  function WithRows(rows: Rows, ms: seq<Migration>, target: int): Rows
    decreases |ms|
  {
    if ms == [] || ms[0].version > target then rows
    else WithRows(if ms[0].version in rows then rows else rows[ms[0].version := CleanRow(ms[0])], ms[1..], target)
  }

  /** The database after an upgrade. */
  function Upgraded<S>(db: Db<S>, ms: seq<Migration>, target: int, up: Script<S>): Db<S> {
    Db(WithRows(db.rows, ms, target), RunAll(up, Missing(db.rows, ms, target), db.schema))
  }

  ghost predicate Descending(vs: seq<nat>) {
    forall i, j :: 0 <= i < j < |vs| ==> vs[i] > vs[j]
  }

  ghost predicate Ascending(vs: seq<nat>) {
    forall i, j :: 0 <= i < j < |vs| ==> vs[i] < vs[j]
  }

  predicate IsGreatest(s: set<nat>, v: nat) {
    v in s && forall u :: u in s ==> u <= v
  }

  lemma HasGreatest(s: set<nat>)
    requires s != {}
    ensures exists v :: IsGreatest(s, v)
    decreases |s|
  {
    var x :| x in s;
    var rest := s - {x};
    assert forall u :: u in s <==> u == x || u in rest;
    if rest == {} {
      assert IsGreatest(s, x);
    } else {
      HasGreatest(rest);
      var y :| IsGreatest(rest, y);
      assert IsGreatest(s, if x > y then x else y);
    }
  }

  function Greatest(s: set<nat>): (v: nat)
    requires s != {}
    ensures IsGreatest(s, v)
  {
    HasGreatest(s);
    var v :| IsGreatest(s, v);
    v
  }

  /** sorted(keys, reverse=True) */
  function KeysDescending(s: set<nat>): (vs: seq<nat>)
    ensures forall v :: v in vs <==> v in s
    decreases |s|
  {
    if s == {} then [] else [Greatest(s)] + KeysDescending(s - {Greatest(s)})
  }

  lemma DescendingCons(v: nat, vs: seq<nat>)
    requires Descending(vs) && forall u :: u in vs ==> u < v
    ensures Descending([v] + vs)
  {
    assert forall i :: 0 <= i < |vs| ==> vs[i] in vs;
  }

  /** They come with the greatest first. */
  lemma {:induction false} KeysDescend(s: set<nat>)
    ensures Descending(KeysDescending(s))
    decreases |s|
  {
    hide Descending;
    if s == {} {
      NothingDescends();
    } else {
      var v := Greatest(s);
      KeysDescend(s - {v});
      assert forall u :: u in KeysDescending(s - {v}) ==> u < v;
      DescendingCons(v, KeysDescending(s - {v}));
    }
  }

  lemma NothingDescends()
    ensures Descending([])
  {
  }

  datatype Ended<S> = Ended(db: Db<S>, removed: seq<nat>, raised: bool)

  /** A downgrade over the versions still to be looked at. */
  function Downgraded<S>(db: Db<S>, todo: seq<nat>, removed: seq<nat>, ms: Catalog, target: int,
                         down: Script<S>): Ended<S>
    decreases |todo|
  {
    if todo == [] then Ended(db, removed, false)
    else
      var v, rest := todo[0], todo[1..];
      if v <= target then Downgraded(db, rest, removed, ms, target, down)
      else match Local(ms, v)
        case None => Ended(db, removed, true)
        case Some(m) =>
          if !m.reversible then Ended(db, removed, true)
          else match MarkDown(db.rows, m)
            case Err(_) => Ended(db, removed, true)
            case Ok(None) => Downgraded(db, rest, removed, ms, target, down)
            case Ok(Some(rows)) =>
              Downgraded(Db(RemoveMark(rows, v), down(v, db.schema)), rest, removed + [v], ms, target, down)
  }

  lemma MissingFrame(rows: Rows, rows': Rows, ms: seq<Migration>, target: int)
    requires forall m :: m in ms ==> (m.version in rows <==> m.version in rows')
    ensures Missing(rows, ms, target) == Missing(rows', ms, target)
  {
  }

  /** The second half of an upgrade from where version ms[0] has been dealt with. */
  lemma UpgradedStep<S>(db: Db<S>, ms: seq<Migration>, target: int, up: Script<S>)
    requires ms != [] && ms[0].version <= target && forall m :: m in ms[1..] ==> m.version != ms[0].version
    ensures var v := ms[0].version;
      var db' := if v in db.rows then db else Db(db.rows[v := CleanRow(ms[0])], up(v, db.schema));
      && Upgraded(db, ms, target, up) == Upgraded(db', ms[1..], target, up)
      && Missing(db.rows, ms, target) == (if v in db.rows then [] else [v]) + Missing(db'.rows, ms[1..], target)
  {
    var v := ms[0].version;
    if v !in db.rows {
      MissingFrame(db.rows, db.rows[v := CleanRow(ms[0])], ms[1..], target);
      assert ([v] + Missing(db.rows, ms[1..], target))[1..] == Missing(db.rows, ms[1..], target);
    } else {
      assert [] + Missing(db.rows, ms[1..], target) == Missing(db.rows, ms[1..], target);
    }
  }

  lemma LaterVersions(ms: Catalog, i: nat)
    requires i < |ms|
    ensures forall m :: m in ms[i..][1..] ==> m.version != ms[i].version
    ensures Local(ms, ms[i].version) == Some(ms[i]) && ms[i].version in Versions(ms)
  {
  }

  datatype Raised = Unverified(version: nat, fault: Fault) | ScriptFailed(version: nat)

  datatype Fault = MarkedDirty | MissingLocally | NameMismatch | ChecksumMismatch | ReversibilityMismatch

  /** What verify finds wrong with a row, in the order it looks. */
  function FaultOf(rows: Rows, ms: Catalog, v: nat): Option<Fault>
    requires v in rows
  {
    if rows[v].dirty then Some(MarkedDirty)
    else match Local(ms, v)
      case None => Some(MissingLocally)
      case Some(m) =>
        if rows[v].name != m.name then Some(NameMismatch)
        else if rows[v].checksum != m.checksum then Some(ChecksumMismatch)
        else if rows[v].reversible != m.reversible then Some(ReversibilityMismatch)
        else None
  }

  /** Each fault, on the migrations themselves; what an earlier one says is not asked for again. */
  lemma FaultExactly(rows: Rows, ms: Catalog, v: nat, m: Migration)
    requires v in rows
    ensures FaultOf(rows, ms, v) == Some(MarkedDirty) <==> rows[v].dirty
    ensures FaultOf(rows, ms, v) == Some(MissingLocally) <==>
      !rows[v].dirty && forall x :: x in ms ==> x.version != v
    ensures m in ms && m.version == v && !rows[v].dirty ==>
      && (FaultOf(rows, ms, v) == Some(NameMismatch) <==> rows[v].name != m.name)
      && (FaultOf(rows, ms, v) == Some(ChecksumMismatch) <==>
        rows[v].name == m.name && rows[v].checksum != m.checksum)
      && (FaultOf(rows, ms, v) == Some(ReversibilityMismatch) <==>
        rows[v].name == m.name && rows[v].checksum == m.checksum && rows[v].reversible != m.reversible)
  {
    if m in ms && m.version == v {
      var i :| 0 <= i < |ms| && ms[i] == m;
      assert ms[i].version == ms[0].version + i;
    }
  }

  ghost predicate FirstFault(rows: Rows, ms: Catalog, v: nat, fault: Fault) {
    v in rows && FaultOf(rows, ms, v) == Some(fault) && forall u :: u in rows && u < v ==> FaultOf(rows, ms, u) == None
  }

  ghost predicate FaultlessFrom(rows: Rows, ms: Catalog, versions: seq<nat>, i: nat) {
    forall k :: i <= k < |versions| ==> versions[k] in rows && FaultOf(rows, ms, versions[k]) == None
  }

  /** Versions are looked at from the last of the descending list on. */
  lemma FirstIs(rows: Rows, ms: Catalog, versions: seq<nat>, i: nat)
    requires i < |versions| && versions == KeysDescending(rows.Keys) && FaultlessFrom(rows, ms, versions, i + 1)
    requires versions[i] in rows && FaultOf(rows, ms, versions[i]).Some?
    ensures FirstFault(rows, ms, versions[i], FaultOf(rows, ms, versions[i]).value)
    ensures !Verified(rows, ms)
  {
    KeysDescend(rows.Keys);
    hide KeysDescending;
    forall u | u in rows && u < versions[i] ensures FaultOf(rows, ms, u) == None {
      assert u in versions;
      var k :| 0 <= k < |versions| && versions[k] == u;
    }
  }

  lemma NoFaults(rows: Rows, ms: Catalog, versions: seq<nat>)
    requires versions == KeysDescending(rows.Keys) && FaultlessFrom(rows, ms, versions, 0)
    ensures Verified(rows, ms)
  {
    hide KeysDescending;
    forall u | u in rows ensures FaultOf(rows, ms, u) == None { assert u in versions; }
  }

  class Manager<!S(!new)> {
    const local: Catalog
    const up: Script<S>
    const down: Script<S>
    const upFails: Failing<S>
    const downFails: Failing<S>
    var rows: Rows
    var schema: S

    constructor (local: Catalog, up: Script<S>, down: Script<S>, upFails: Failing<S>, downFails: Failing<S>,
                 rows: Rows, schema: S)
      ensures this.local == local && this.up == up && this.down == down
      ensures this.upFails == upFails && this.downFails == downFails && Value() == Db(rows, schema)
    {
      this.local, this.up, this.down, this.rows, this.schema := local, up, down, rows, schema;
      this.upFails, this.downFails := upFails, downFails;
    }

    function Value(): Db<S>
      reads this
    {
      Db(rows, schema)
    }

    /** royells_v20_postgres/migrations.py, verify: the first version it raises for, and why. */
    method Verify() returns (fault: Option<(nat, Fault)>)
      ensures fault == None <==> Verified(rows, local)
      ensures fault.Some? ==> FirstFault(rows, local, fault.value.0, fault.value.1)
    {
      hide FaultOf, FirstFault, Verified;
      var versions := KeysDescending(rows.Keys);
      var i := |versions|;
      while i > 0
        invariant 0 <= i <= |versions| && FaultlessFrom(rows, local, versions, i)
      {
        i := i - 1;
        assert versions[i] in versions;
        var found := FaultOf(rows, local, versions[i]);
        if found != None {
          FirstIs(rows, local, versions, i);
          return Some((versions[i], found.value));
        }
      }
      NoFaults(rows, local, versions);
      return None;
    }

    /** royells_v20_postgres/migrations.py, upgrade: the versions it returns, or what it raises.  Where a script
        fails, all versions before it are applied and its own marker stays dirty. */
    method Upgrade(target: int) returns (completed: Result<seq<nat>, Raised>)
      modifies this`rows, this`schema
      ensures !Verified(old(rows), local) ==>
        && Value() == old(Value()) && completed.Err? && completed.error.Unverified?
        && FirstFault(rows, local, completed.error.version, completed.error.fault)
      ensures Verified(old(rows), local) ==>
        match FirstFailing(up, upFails, Missing(old(rows), local, target), old(schema))
        case None =>
          && completed == Ok(Missing(old(rows), local, target))
          && Value() == Upgraded(old(Value()), local, target, up)
          && Verified(rows, local)
        case Some(v) =>
          var below := Upgraded(old(Value()), local, v - 1, up);
          completed == Err(ScriptFailed(v)) && v in Versions(local)
          && Value() == Db(DirtyAt(below.rows[v := CleanRow(Local(local, v).value)], v), below.schema)
    {
      hide Upgraded, Missing, Local, Verified, FirstFault, Versions, FirstFailing, Climbing;
      var fault := Verify();
      if fault != None {
        return Err(Unverified(fault.value.0, fault.value.1));
      }
      var done: seq<nat> := [];
      var i := 0;
      ghost var start := Value();
      ClimbStarts(start, local, target, up, upFails);
      while i < |local| && local[i].version <= target
        invariant 0 <= i <= |local| && Verified(rows, local)
        invariant Climbing(start, Value(), local, i, done, target, up, upFails)
      {
        var m := local[i];
        ghost var db := Value();
        LaterVersions(local, i);
        MarkFits(rows, local, m);
        ClimbsOn(start, db, local, i, done, target, up, upFails);
        var marked := MarkUp(rows, m);
        if marked.value != None {
          rows := marked.value.value;
          if upFails(m.version, schema) {
            return Err(ScriptFailed(m.version));
          }
          schema := up(m.version, schema);
          rows := ClearMark(rows, m);
          done := done + [m.version];
        }
        i := i + 1;
      }
      ClimbEnds(start, Value(), local, i, done, target, up, upFails);
      fault := Verify();
      assert fault == None;
      return Ok(done);
    }

    /** royells_v20_postgres/migrations.py, downgrade: what was removed, and whether it raised before the end. */
    method Downgrade(target: int) returns (removed: seq<nat>, raised: bool)
      modifies this`rows, this`schema
      ensures var keys := KeysDescending(old(rows).Keys);
        var all := Downgraded(old(Value()), keys, [], local, target, down);
        match FirstFailing(down, downFails, all.removed, old(schema))
        case None => Ended(Value(), removed, raised) == all
        case Some(v) =>
          var above := Downgraded(old(Value()), keys, [], local, v, down);
          raised && removed == above.removed && Value() == Db(DirtyAt(above.db.rows, v), above.db.schema)
    {
      hide Downgraded, FirstFailing, KeysDescending, Local, Falling, Descending, MarkDown;
      ghost var start, keys := Value(), KeysDescending(rows.Keys);
      removed := [];
      var todo := KeysDescending(rows.Keys);
      KeysDescend(rows.Keys);
      FallStarts(start, keys, local, target, down, downFails);
      while todo != []
        invariant Descending(todo)
        invariant Falling(start, keys, Value(), todo, removed, local, target, down, downFails)
        decreases |todo|
      {
        var version := todo[0];
        FirstGreatest(todo);
        FallsOn(start, keys, Value(), todo, removed, local, target, down, downFails);
        BlocksIs(rows, local, version);
        todo := todo[1..];
        if version > target {
          var m := Local(local, version);
          if m == None || !m.value.reversible {
            return removed, true;
          }
          MarkedThenRemoved(rows, local, version);
          var marked := MarkDown(rows, m.value);
          if marked.Err? {
            return removed, true;
          }
          if marked.value != None {
            rows := marked.value.value;
            assert DownFault(rows, m.value) == None;
            if downFails(version, schema) {
              return removed, true;
            }
            schema := down(version, schema);
            rows := RemoveMark(rows, version);
            removed := removed + [version];
          }
        }
      }
      FallEnds(start, keys, Value(), removed, local, target, down, downFails);
      return removed, false;
    }
  }

  // ----- the loop of upgrade

  /** Before local[i]: what is still to come makes of this database what the whole upgrade makes of the first. */
  ghost predicate Climbing<S>(start: Db<S>, db: Db<S>, ms: Catalog, i: nat, done: seq<nat>, target: int,
                              up: Script<S>, fails: Failing<S>) {
    && i <= |ms|
    && Upgraded(db, ms[i..], target, up) == Upgraded(start, ms, target, up)
    && done + Missing(db.rows, ms[i..], target) == Missing(start.rows, ms, target)
    && FirstFailing(up, fails, Missing(db.rows, ms[i..], target), db.schema)
       == FirstFailing(up, fails, Missing(start.rows, ms, target), start.schema)
    && (i < |ms| ==> db == Upgraded(start, ms, ms[i].version - 1, up))
  }

  lemma {:induction false} ClimbStarts<S>(start: Db<S>, ms: Catalog, target: int, up: Script<S>, fails: Failing<S>)
    ensures Climbing(start, start, ms, 0, [], target, up, fails)
  {
    hide Upgraded, Missing, FirstFailing;
    assert ms[0..] == ms;
    if ms != [] { NothingLeft(start, ms, ms[0].version - 1, up); }
  }

  /** A version is passed or applied, or its script is the first to fail. */
  lemma {:induction false} ClimbsOn<S>(start: Db<S>, db: Db<S>, ms: Catalog, i: nat, done: seq<nat>, target: int,
                                       up: Script<S>, fails: Failing<S>)
    requires Climbing(start, db, ms, i, done, target, up, fails) && i < |ms| && ms[i].version <= target
    ensures var v := ms[i].version;
      if v in db.rows then Climbing(start, db, ms, i + 1, done, target, up, fails)
      else if fails(v, db.schema) then
        db == Upgraded(start, ms, v - 1, up)
          && FirstFailing(up, fails, Missing(start.rows, ms, target), start.schema) == Some(v)
      else Climbing(start, Db(db.rows[v := CleanRow(ms[i])], up(v, db.schema)), ms, i + 1, done + [v], target, up,
        fails)
  {
    hide Upgraded, Missing, FirstFailing, Local, Versions;
    var m := ms[i];
    var v := m.version;
    var db' := if v in db.rows then db else Db(db.rows[v := CleanRow(m)], up(v, db.schema));
    LaterVersions(ms, i);
    UpgradedStep(db, ms[i..], target, up);
    assert ms[i..][1..] == ms[i + 1..];
    UpgradedTop(start, ms, v, up);
    SameAtTop(start, ms, v, up);
    var more := Missing(db'.rows, ms[i + 1..], target);
    if v in db.rows {
      assert [] + more == more;
    } else {
      FailingCons(up, fails, v, more, db.schema);
      Assoc(done, [v], more);
    }
  }

  lemma {:induction false} ClimbEnds<S>(start: Db<S>, db: Db<S>, ms: Catalog, i: nat, done: seq<nat>, target: int,
                                        up: Script<S>, fails: Failing<S>)
    requires Climbing(start, db, ms, i, done, target, up, fails) && (i == |ms| || ms[i].version > target)
    ensures db == Upgraded(start, ms, target, up) && done == Missing(start.rows, ms, target)
    ensures FirstFailing(up, fails, done, start.schema) == None
  {
    hide Upgraded, Missing, FirstFailing;
    NothingLeft(db, ms[i..], target, up);
    NothingFails(up, fails, db.schema);
    assert done + [] == done;
  }

  // ----- the loop of downgrade

  ghost predicate SameEnd<S>(start: Db<S>, keys: seq<nat>, db: Db<S>, todo: seq<nat>, removed: seq<nat>, ms: Catalog,
                             t: int, down: Script<S>) {
    Downgraded(db, todo, removed, ms, t, down) == Downgraded(start, keys, [], ms, t, down)
  }

  /** The same for a downgrade, and for every target from here up to the next version. */
  ghost predicate Falling<S>(start: Db<S>, keys: seq<nat>, db: Db<S>, todo: seq<nat>, removed: seq<nat>, ms: Catalog,
                             target: int,
                             down: Script<S>, fails: Failing<S>) {
    && SameEnd(start, keys, db, todo, removed, ms, target, down)
    && (todo != [] ==> forall t :: target <= t <= todo[0] ==> SameEnd(start, keys, db, todo, removed, ms, t, down))
    && FirstFailing(down, fails, Downgraded(db, todo, [], ms, target, down).removed, db.schema)
       == FirstFailing(down, fails, Downgraded(start, keys, [], ms, target, down).removed, start.schema)
  }

  lemma {:induction false} FallStarts<S>(start: Db<S>, keys: seq<nat>, ms: Catalog, target: int, down: Script<S>,
                                         fails: Failing<S>)
    ensures Falling(start, keys, start, keys, [], ms, target, down, fails)
  {
  }

  /** What the loop has come to, at a version where it goes on, fails or raises. */
  lemma {:induction false} FallsOn<S>(start: Db<S>, keys: seq<nat>, db: Db<S>, todo: seq<nat>, removed: seq<nat>,
                                      ms: Catalog, target: int,
                   down: Script<S>, fails: Failing<S>)
    requires Falling(start, keys, db, todo, removed, ms, target, down, fails) && todo != [] && Descending(todo)
    ensures var v, rest := todo[0], todo[1..];
      var all := Downgraded(start, keys, [], ms, target, down);
      var failing := FirstFailing(down, fails, all.removed, start.schema);
      if v <= target || (v !in db.rows && !Blocks(db.rows, ms, v)) then
        Falling(start, keys, db, rest, removed, ms, target, down, fails)
      else if Blocks(db.rows, ms, v) then all == Ended(db, removed, true) && failing == None
      else if fails(v, db.schema) then failing == Some(v)
        && Downgraded(start, keys, [], ms, v, down) == Ended(db, removed, false)
      else Falling(start, keys, Db(db.rows - {v}, down(v, db.schema)), rest, removed + [v], ms, target, down, fails)
  {
    hide Downgraded, FirstFailing, Local, Descending, MarkDown;
    var v, rest := todo[0], todo[1..];
    var db' := Db(db.rows - {v}, down(v, db.schema));
    FirstGreatest(todo);
    assert rest != [] ==> rest[0] in rest;
    BlocksIs(db.rows, ms, v);
    assert SameEnd(start, keys, db, todo, removed, ms, target, down);
    DownUnfold(db, todo, removed, ms, target, down);
    DownUnfold(db, todo, [], ms, target, down);
    NothingFails(down, fails, db.schema);
    if v > target {
      RemovedAppends(db', rest, [v], ms, target, down);
      FailingCons(down, fails, v, Downgraded(db', rest, [], ms, target, down).removed, db.schema);
      NothingAbove(db, todo, removed, ms, v, down);
      assert [] + [v] == [v];
      assert SameEnd(start, keys, db, todo, removed, ms, v, down);
    }
    forall t | target == t || (rest != [] && target <= t <= rest[0])
      ensures v <= target || (v !in db.rows && !Blocks(db.rows, ms, v)) ==>
        SameEnd(start, keys, db, rest, removed, ms, t, down)
      ensures v > target && v in db.rows && !Blocks(db.rows, ms, v) ==>
        SameEnd(start, keys, db', rest, removed + [v], ms, t, down)
    {
      assert SameEnd(start, keys, db, todo, removed, ms, t, down);
      DownUnfold(db, todo, removed, ms, t, down);
    }
  }

  /** A version at which a downgrade raises. */
  predicate Blocks(rows: Rows, ms: Catalog, v: nat) {
    match Local(ms, v)
    case None => true
    case Some(m) => !m.reversible || (v in rows && (rows[v].dirty || rows[v].checksum != m.checksum))
  }

  lemma BlocksIs(rows: Rows, ms: Catalog, v: nat)
    ensures match Local(ms, v)
      case None => Blocks(rows, ms, v)
      case Some(m) =>
        && (Blocks(rows, ms, v) <==> !m.reversible || MarkDown(rows, m).Err?)
        && (MarkDown(rows, m) == Ok(None) <==> v !in rows)
  {
  }

  lemma {:induction false} FallEnds<S>(start: Db<S>, keys: seq<nat>, db: Db<S>, removed: seq<nat>, ms: Catalog,
                                       target: int, down: Script<S>, fails: Failing<S>)
    requires Falling(start, keys, db, [], removed, ms, target, down, fails)
    ensures Downgraded(start, keys, [], ms, target, down) == Ended(db, removed, false)
    ensures FirstFailing(down, fails, removed, start.schema) == None
  {
    hide FirstFailing;
    NothingFails(down, fails, db.schema);
    assert SameEnd(start, keys, db, [], removed, ms, target, down);
  }

  lemma FailingCons<S>(script: Script<S>, fails: Failing<S>, v: nat, vs: seq<nat>, s: S)
    ensures FirstFailing(script, fails, [v] + vs, s) == if fails(v, s) then Some(v)
      else FirstFailing(script, fails, vs, script(v, s))
  {
    assert ([v] + vs)[1..] == vs;
  }

  lemma NothingFails<S>(script: Script<S>, fails: Failing<S>, s: S)
    ensures FirstFailing(script, fails, [], s) == None
  {
  }

  /** Whether a version is there does not change before its turn. */
  lemma SameAtTop<S>(db: Db<S>, ms: Catalog, v: nat, up: Script<S>)
    ensures v in Upgraded(db, ms, v - 1, up).rows <==> v in db.rows
  {
    WithRowsKeys(db.rows, ms, v - 1);
  }

  /** One step of a downgrade. */
  ghost predicate DownStep<S>(db: Db<S>, todo: seq<nat>, removed: seq<nat>, ms: Catalog, t: int, down: Script<S>) {
    Downgraded(db, todo, removed, ms, t, down) ==
      if todo == [] then Ended(db, removed, false)
      else
        var v, rest := todo[0], todo[1..];
        if v <= t then Downgraded(db, rest, removed, ms, t, down)
        else match Local(ms, v)
          case None => Ended(db, removed, true)
          case Some(m) =>
            if !m.reversible then Ended(db, removed, true)
            else match MarkDown(db.rows, m)
              case Err(_) => Ended(db, removed, true)
              case Ok(None) => Downgraded(db, rest, removed, ms, t, down)
              case Ok(Some(_)) => Downgraded(Db(db.rows - {v}, down(v, db.schema)), rest, removed + [v], ms, t, down)
  }

  lemma DownUnfold<S>(db: Db<S>, todo: seq<nat>, removed: seq<nat>, ms: Catalog, t: int, down: Script<S>)
    ensures DownStep(db, todo, removed, ms, t, down)
  {
    hide Local;
    if todo != [] && Local(ms, todo[0]).Some? {
      MarkedThenRemoved(db.rows, ms, todo[0]);
    }
  }

  lemma MarkedThenRemoved(rows: Rows, ms: Catalog, v: nat)
    requires Local(ms, v).Some?
    ensures var marked := MarkDown(rows, Local(ms, v).value);
      marked.Ok? && marked.value.Some? ==>
        && v in rows && RemoveMark(marked.value.value, v) == rows - {v} && marked.value.value == DirtyAt(rows, v)
        && DownFault(marked.value.value, Local(ms, v).value) == None
  {
  }

  lemma {:induction false} RemovedAppends<S>(db: Db<S>, todo: seq<nat>, removed: seq<nat>, ms: Catalog, t: int,
                                             down: Script<S>)
    ensures var r, r' := Downgraded(db, todo, [], ms, t, down), Downgraded(db, todo, removed, ms, t, down);
      r' == Ended(r.db, removed + r.removed, r.raised)
    decreases |todo|
  {
    hide Downgraded, Local, MarkDown;
    DownUnfold(db, todo, removed, ms, t, down);
    DownUnfold(db, todo, [], ms, t, down);
    assert removed + [] == removed;
    if todo != [] {
      var v, rest := todo[0], todo[1..];
      RemovedAppends(db, rest, removed, ms, t, down);
      var db' := Db(db.rows - {v}, down(v, db.schema));
      RemovedAppends(db', rest, removed + [v], ms, t, down);
      RemovedAppends(db', rest, [v], ms, t, down);
      assert [] + [v] == [v];
      Assoc(removed, [v], Downgraded(db', rest, [], ms, t, down).removed);
    }
  }

  /** Between verified rows and a local migration the first transaction does not fail, nor does the marker
      check of the second. */
  lemma MarkFits(rows: Rows, ms: Catalog, m: Migration)
    requires Verified(rows, ms) && m in ms && Local(ms, m.version) == Some(m)
    ensures MarkUp(rows, m).Ok?
    ensures m.version in rows ==> MarkUp(rows, m).value == None
    ensures m.version !in rows ==>
      && MarkUp(rows, m).value.Some? && UpFault(MarkUp(rows, m).value.value, m) == None
      && ClearMark(MarkUp(rows, m).value.value, m) == rows[m.version := CleanRow(m)]
      && Verified(rows[m.version := CleanRow(m)], ms)
  {
  }

  lemma NothingLeft<S>(db: Db<S>, ms: seq<Migration>, target: int, up: Script<S>)
    requires ms == [] || ms[0].version > target
    ensures Upgraded(db, ms, target, up) == db && Missing(db.rows, ms, target) == []
  {
  }

  // ----- what the runs return

  lemma LowestFirst(ms: Catalog)
    requires ms != []
    ensures forall m :: m in ms <==> m == ms[0] || m in ms[1..]
    ensures forall v :: v in Versions(ms) <==> v == ms[0].version || v in Versions(ms[1..])
    ensures forall v :: v in Versions(ms[1..]) ==> v > ms[0].version
  {
    assert ms == [ms[0]] + ms[1..];
    assert forall m :: m in ms <==> m == ms[0] || m in ms[1..];
  }

  lemma AscendingCons(v: nat, vs: seq<nat>)
    requires Ascending(vs) && forall u :: u in vs ==> u > v
    ensures Ascending([v] + vs)
  {
    assert forall i :: 0 <= i < |vs| ==> vs[i] in vs;
  }

  /** An upgrade applies exactly the local versions up to the target that were missing, in ascending order. */
  lemma {:induction false} MissingExactly(rows: Rows, ms: Catalog, target: int)
    ensures Ascending(Missing(rows, ms, target))
    ensures forall v :: v in Missing(rows, ms, target) <==> v in Versions(ms) && v <= target && v !in rows
    decreases |ms|
  {
    hide Ascending, Versions;
    if ms == [] {
      NoVersions();
    } else {
      LowestFirst(ms);
      if ms[0].version <= target {
        MissingExactly(rows, ms[1..], target);
        AscendingCons(ms[0].version, Missing(rows, ms[1..], target));
        assert [] + Missing(rows, ms[1..], target) == Missing(rows, ms[1..], target);
      } else {
        NoVersions();
      }
    }
  }

  lemma NoVersions()
    ensures Ascending([]) && Versions([]) == {}
  {
  }

  lemma {:induction false} WithRowsKeys(rows: Rows, ms: seq<Migration>, target: int)
    requires Contiguous(ms)
    ensures forall v :: v in WithRows(rows, ms, target) <==> v in rows || (v in Versions(ms) && v <= target)
    ensures forall v :: v in rows ==> WithRows(rows, ms, target)[v] == rows[v]
    decreases |ms|
  {
    if ms != [] && ms[0].version <= target {
      var rows' := if ms[0].version in rows then rows else rows[ms[0].version := CleanRow(ms[0])];
      WithRowsKeys(rows', ms[1..], target);
      LowestFirst(ms);
    } else if ms != [] {
      LowestFirst(ms);
    }
  }

  lemma NoElements(vs: seq<nat>)
    requires forall v :: v !in vs
    ensures vs == []
  {
    FirstIsIn(vs);
  }

  lemma FirstIsIn(vs: seq<nat>)
    ensures vs != [] ==> vs[0] in vs
  {
  }

  /** A second upgrade to the same target finds nothing to do and changes nothing. */
  lemma SecondUpgradeIsEmpty<S>(db: Db<S>, ms: Catalog, target: int, up: Script<S>)
    ensures var db' := Upgraded(db, ms, target, up);
      Missing(db'.rows, ms, target) == [] && Upgraded(db', ms, target, up) == db'
  {
    var db' := Upgraded(db, ms, target, up);
    WithRowsKeys(db.rows, ms, target);
    MissingExactly(db'.rows, ms, target);
    var none := Missing(db'.rows, ms, target);
    assert forall v :: v !in none;
    NoElements(none);
    NothingAdded(db'.rows, ms, target);
  }

  lemma {:induction false} NothingAdded(rows: Rows, ms: seq<Migration>, target: int)
    requires Missing(rows, ms, target) == []
    ensures WithRows(rows, ms, target) == rows
    decreases |ms|
  {
    if ms != [] && ms[0].version <= target { NothingAdded(rows, ms[1..], target); }
  }

  // ----- an upgrade undone

  /** Raising the target by one adds at most that one version, and adds it last. */
  lemma {:induction false} UpgradedTop<S>(db: Db<S>, ms: Catalog, v: nat, up: Script<S>)
    ensures var below, to := Upgraded(db, ms, v - 1, up), Upgraded(db, ms, v, up);
      to == if v in Versions(ms) && v !in db.rows
            then Db(below.rows[v := CleanRow(Local(ms, v).value)], up(v, below.schema))
            else below
    decreases |ms|
  {
    if ms != [] {
      LowestFirst(ms);
      var u := ms[0].version;
      if u < v {
        UpgradedStep(db, ms, v, up);
        UpgradedStep(db, ms, v - 1, up);
        var db' := if u in db.rows then db else Db(db.rows[u := CleanRow(ms[0])], up(u, db.schema));
        UpgradedTop(db', ms[1..], v, up);
      } else if u == v {
        UpgradedStep(db, ms, v, up);
        NothingLeft(db, ms, v - 1, up);
        NothingLeft(Db(db.rows[u := CleanRow(ms[0])], up(u, db.schema)), ms[1..], v, up);
        NothingLeft(db, ms[1..], v, up);
      } else {
        NothingLeft(db, ms, v, up);
        NothingLeft(db, ms, v - 1, up);
      }
    }
  }

  lemma KeysTop(s: set<nat>, v: nat)
    requires v !in s && forall u :: u in s ==> u < v
    ensures KeysDescending(s + {v}) == [v] + KeysDescending(s)
  {
    assert (s + {v}) - {v} == s;
    assert Greatest(s + {v}) == v;
  }

  /** Every version the downgrade would visit is at or below its target. */
  lemma {:induction false} NothingAbove<S>(db: Db<S>, todo: seq<nat>, removed: seq<nat>, ms: Catalog, target: int,
                                           down: Script<S>)
    requires forall v :: v in todo ==> v <= target
    ensures Downgraded(db, todo, removed, ms, target, down) == Ended(db, removed, false)
    decreases |todo|
  {
    if todo != [] {
      assert todo[0] in todo;
      assert forall v :: v in todo[1..] ==> v in todo;
      NothingAbove(db, todo[1..], removed, ms, target, down);
    }
  }

  ghost predicate Undoes<S(!new)>(up: Script<S>, down: Script<S>) {
    forall v, s :: down(v, up(v, s)) == s
  }

  lemma UndoTop<S(!new)>(below: Db<S>, m: Migration, todo: seq<nat>, removed: seq<nat>, ms: Catalog, k: nat,
                  up: Script<S>, down: Script<S>)
    requires m.version !in below.rows && Local(ms, m.version) == Some(m) && m.reversible && m.version > k
      && Undoes(up, down)
    ensures Downgraded(Db(below.rows[m.version := CleanRow(m)], up(m.version, below.schema)), [m.version] + todo,
      removed, ms, k, down)
         == Downgraded(below, todo, removed + [m.version], ms, k, down)
  {
    var rows := below.rows[m.version := CleanRow(m)];
    var marked := MarkDown(rows, m).value.value;
    assert RemoveMark(marked, m.version) == below.rows;
    assert ([m.version] + todo)[1..] == todo;
  }

  /** Downgrading to k after upgrading to T leaves the rows and the schema of upgrading to k, where no version
      above k was applied before, the versions between are reversible and each down script undoes its up
      script. */
  lemma {:induction false} DowngradeUndoesUpgrade<S(!new)>(db: Db<S>, ms: Catalog, k: nat, top: nat,
                                                    removed: seq<nat>, up: Script<S>, down: Script<S>)
    requires k <= top && Undoes(up, down)
    requires forall v :: v in db.rows ==> v <= k
    requires forall m :: m in ms && k < m.version <= top ==> m.reversible
    ensures var u := Upgraded(db, ms, top, up);
      var r := Downgraded(u, KeysDescending(u.rows.Keys), removed, ms, k, down);
      r.db == Upgraded(db, ms, k, up) && !r.raised
    decreases top
  {
    hide Upgraded, Versions, Local, KeysDescending, Downgraded;
    var u := Upgraded(db, ms, top, up);
    UpgradedKeys(db, ms, top, up);
    if top == k {
      NothingAbove(u, KeysDescending(u.rows.Keys), removed, ms, k, down);
    } else {
      var below := Upgraded(db, ms, top - 1, up);
      UpgradedKeys(db, ms, top - 1, up);
      UpgradedTop(db, ms, top, up);
      if top in Versions(ms) {
        var m := Local(ms, top).value;
        assert u.rows.Keys == below.rows.Keys + {top};
        KeysTop(below.rows.Keys, top);
        UndoTop(below, m, KeysDescending(below.rows.Keys), removed, ms, k, up, down);
        DowngradeUndoesUpgrade(db, ms, k, top - 1, removed + [top], up, down);
      } else {
        DowngradeUndoesUpgrade(db, ms, k, top - 1, removed, up, down);
      }
    }
  }

  lemma UpgradedKeys<S>(db: Db<S>, ms: Catalog, target: int, up: Script<S>)
    ensures forall v :: v in Upgraded(db, ms, target, up).rows ==> v in db.rows || v <= target
    ensures forall v :: v in db.rows ==> v in Upgraded(db, ms, target, up).rows
  {
    WithRowsKeys(db.rows, ms, target);
  }

  // ----- what a downgrade takes away, for any rows

  /** No blocking row above the target is at or above v. */
  ghost predicate Clear(rows: Rows, ms: Catalog, todo: seq<nat>, target: int, v: nat) {
    forall b :: b in todo && b > target && Blocks(rows, ms, b) ==> b < v
  }

  function Without(rows: Rows, vs: seq<nat>): Rows { rows - (set v | v in vs) }

  /** What a downgrade over the versions still to be looked at takes away. */
  ghost predicate TakesAway<S>(db: Db<S>, todo: seq<nat>, removed: seq<nat>, added: seq<nat>, ms: Catalog,
                               target: int, down: Script<S>) {
    var r := Downgraded(db, todo, removed, ms, target, down);
    && r.removed == removed + added
    && (r.raised <==> exists b :: b in todo && b > target && Blocks(db.rows, ms, b))
    && r.db == Db(Without(db.rows, added), RunAll(down, added, db.schema))
    && Descending(added)
    && forall v :: v in added <==> v in todo && v > target && Clear(db.rows, ms, todo, target, v)
  }

  lemma {:induction false} DowngradedFrom<S>(db: Db<S>, todo: seq<nat>, removed: seq<nat>, ms: Catalog, target: int,
                                             down: Script<S>)
    returns (added: seq<nat>)
    requires Descending(todo) && forall v :: v in todo ==> v in db.rows
    ensures TakesAway(db, todo, removed, added, ms, target, down)
    decreases |todo|
  {
    hide Local, TakesAway, Downgraded, Blocks;
    added := [];
    if todo == [] {
      NothingTaken(db, removed, ms, target, down);
    } else {
      var v, rest := todo[0], todo[1..];
      FirstGreatest(todo);
      if v <= target {
        added := DowngradedFrom(db, rest, removed, ms, target, down);
        PassedOver(db, todo, removed, added, ms, target, down);
      } else if !Blocks(db.rows, ms, v) {
        var later := DowngradedFrom(Db(db.rows - {v}, down(v, db.schema)), rest, removed + [v], ms, target, down);
        added := [v] + later;
        TakenAway(db, todo, removed, later, ms, target, down);
      } else {
        Blocked(db, todo, removed, ms, target, down);
      }
    }
  }

  lemma NothingTaken<S>(db: Db<S>, removed: seq<nat>, ms: Catalog, target: int, down: Script<S>)
    ensures TakesAway(db, [], removed, [], ms, target, down)
  {
    assert removed + [] == removed;
    assert Without(db.rows, []) == db.rows;
  }

  lemma PassedOver<S>(db: Db<S>, todo: seq<nat>, removed: seq<nat>, added: seq<nat>, ms: Catalog, target: int,
                      down: Script<S>)
    requires todo != [] && todo[0] <= target && Descending(todo)
    requires TakesAway(db, todo[1..], removed, added, ms, target, down)
    ensures TakesAway(db, todo, removed, added, ms, target, down)
  {
    hide Blocks, Without, RunAll, Local;
    FirstGreatest(todo);
    assert Downgraded(db, todo, removed, ms, target, down) == Downgraded(db, todo[1..], removed, ms, target, down);
    forall v ensures Clear(db.rows, ms, todo, target, v) <==> Clear(db.rows, ms, todo[1..], target, v) {
    }
  }

  lemma TakenAway<S>(db: Db<S>, todo: seq<nat>, removed: seq<nat>, later: seq<nat>, ms: Catalog, target: int,
                     down: Script<S>)
    requires todo != [] && todo[0] > target && Descending(todo) && !Blocks(db.rows, ms, todo[0])
    requires forall v :: v in todo ==> v in db.rows
    requires TakesAway(Db(db.rows - {todo[0]}, down(todo[0], db.schema)), todo[1..], removed + [todo[0]], later, ms,
      target, down)
    ensures TakesAway(db, todo, removed, [todo[0]] + later, ms, target, down)
  {
    hide Local, RunAll, Blocks, Downgraded, Without, Clear, Descending;
    var v, rest := todo[0], todo[1..];
    var db' := Db(db.rows - {v}, down(v, db.schema));
    FirstGreatest(todo);
    OneDown(db, todo, removed, ms, target, down);
    ConsElements(v, later);
    Assoc(removed, [v], later);
    WithoutCons(db.rows, v, later);
    RunCons(down, v, later, db.schema);
    OthersBlock(db.rows, ms, v);
    StillClear(db.rows, db'.rows, ms, todo, target);
    DescendingCons(v, later);
  }

  lemma Assoc<T>(a: seq<T>, b: seq<T>, c: seq<T>)
    ensures (a + b) + c == a + (b + c)
  {
  }

  lemma OneDown<S>(db: Db<S>, todo: seq<nat>, removed: seq<nat>, ms: Catalog, target: int, down: Script<S>)
    requires todo != [] && todo[0] > target && todo[0] in db.rows && !Blocks(db.rows, ms, todo[0])
    ensures Downgraded(db, todo, removed, ms, target, down)
         == Downgraded(Db(db.rows - {todo[0]}, down(todo[0], db.schema)), todo[1..], removed + [todo[0]], ms, target,
           down)
  {
    hide Local;
    Unblocked(db.rows, ms, todo[0]);
  }

  lemma WithoutCons(rows: Rows, v: nat, vs: seq<nat>)
    ensures Without(rows, [v] + vs) == Without(rows - {v}, vs)
  {
    ConsElements(v, vs);
  }

  lemma OthersBlock(rows: Rows, ms: Catalog, v: nat)
    ensures forall u :: u != v ==> (Blocks(rows, ms, u) <==> Blocks(rows - {v}, ms, u))
  {
  }

  lemma StillClear(rows: Rows, rows': Rows, ms: Catalog, todo: seq<nat>, target: int)
    requires todo != [] && Descending(todo) && !Blocks(rows, ms, todo[0])
    requires forall u :: u in todo[1..] ==> (Blocks(rows, ms, u) <==> Blocks(rows', ms, u))
    ensures forall v :: Clear(rows, ms, todo, target, v) <==> Clear(rows', ms, todo[1..], target, v)
    ensures Clear(rows, ms, todo, target, todo[0])
  {
    hide Blocks;
    FirstGreatest(todo);
  }

  lemma RunCons<S>(script: Script<S>, v: nat, vs: seq<nat>, s: S)
    ensures RunAll(script, [v] + vs, s) == RunAll(script, vs, script(v, s))
  {
    assert ([v] + vs)[1..] == vs;
  }

  lemma ConsElements(v: nat, vs: seq<nat>)
    ensures forall u :: u in [v] + vs <==> u == v || u in vs
  {
  }

  lemma FirstGreatest(todo: seq<nat>)
    requires todo != [] && Descending(todo)
    ensures Descending(todo[1..]) && forall u :: u in todo[1..] ==> u < todo[0]
    ensures forall u :: u in todo <==> u == todo[0] || u in todo[1..]
  {
  }

  lemma Unblocked(rows: Rows, ms: Catalog, v: nat)
    requires v in rows && !Blocks(rows, ms, v)
    ensures Local(ms, v).Some? && Local(ms, v).value.version == v && Local(ms, v).value.reversible
    ensures MarkDown(rows, Local(ms, v).value).Ok? && MarkDown(rows, Local(ms, v).value).value.Some?
    ensures RemoveMark(MarkDown(rows, Local(ms, v).value).value.value, v) == rows - {v}
  {
  }

  lemma Blocked<S>(db: Db<S>, todo: seq<nat>, removed: seq<nat>, ms: Catalog, target: int, down: Script<S>)
    requires todo != [] && todo[0] > target && Blocks(db.rows, ms, todo[0]) && Descending(todo)
    ensures TakesAway(db, todo, removed, [], ms, target, down)
  {
    assert Downgraded(db, todo, removed, ms, target, down) == Ended(db, removed, true);
    hide Blocks, Downgraded;
    FirstGreatest(todo);
    assert removed + [] == removed && Without(db.rows, []) == db.rows;
  }

  /** A downgrade raises exactly when some applied version above its target is not local, irreversible, dirty or
      of another checksum.  It takes away exactly the versions above the target and above every such version,
      the greatest first, and leaves the other rows as they were. */
  lemma DowngradedExactly<S>(db: Db<S>, ms: Catalog, target: int, down: Script<S>)
    ensures var r := Downgraded(db, KeysDescending(db.rows.Keys), [], ms, target, down);
      && (r.raised <==> exists b :: b in db.rows && b > target && Blocks(db.rows, ms, b))
      && Descending(r.removed)
      && (forall v :: v in r.removed <==>
            v in db.rows && v > target && forall b :: b in db.rows && b > target && Blocks(db.rows, ms, b) ==> b < v)
      && r.db == Db(Without(db.rows, r.removed), RunAll(down, r.removed, db.schema))
  {
    hide Blocks, Downgraded, Without, RunAll;
    var todo := KeysDescending(db.rows.Keys);
    KeysDescend(db.rows.Keys);
    var added := DowngradedFrom(db, todo, [], ms, target, down);
    assert [] + added == added;
    forall v ensures Clear(db.rows, ms, todo, target, v) <==>
      forall b :: b in db.rows && b > target && Blocks(db.rows, ms, b) ==> b < v
    {
      assert forall b :: b in todo <==> b in db.rows;
    }
  }
}
