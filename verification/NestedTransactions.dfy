/** The transaction layer of royells_v20_core/adapters/sqlite_database.py: one connection shared by threads,
    an outermost transaction under a re-entrant lock, and numbered savepoints for the inner ones. */
module NestedTransactions {
  import opened Prelude

  type Thread = nat

  datatype Savepoint<S> = Savepoint(name: nat, saved: S)

  /** An open transaction of the engine: what it sees now, its named savepoints with what each saved, and whether
      it was begun as a transaction; one that a savepoint opened ends with that savepoint. */
  datatype Tx<S> = Tx(current: S, savepoints: seq<Savepoint<S>>, begun: bool)

  datatype World<S> = World(durable: S, tx: Option<Tx<S>>, depths: map<Thread, nat>, owner: Option<Thread>, holds: nat)

  function Depth<S>(w: World<S>, t: Thread): nat { if t in w.depths then w.depths[t] else 0 }

  function Seen<S>(w: World<S>): S { if w.tx.Some? then w.tx.value.current else w.durable }

  // ----- the engine

  /** The most recent savepoint of a name. */
  function Find<S>(sps: seq<Savepoint<S>>, name: nat): Option<nat> {
    if sps == [] then None
    else if sps[|sps| - 1].name == name then Some(|sps| - 1) else Find(sps[..|sps| - 1], name)
  }

  lemma FindIsIndex<S>(sps: seq<Savepoint<S>>, name: nat)
    ensures Find(sps, name).Some? ==> Find(sps, name).value < |sps| && sps[Find(sps, name).value].name == name
  {
  }

  /** SAVEPOINT opens a transaction where none is open. */
  function Saved<S>(w: World<S>, name: nat): World<S> {
    var tx := if w.tx.Some? then w.tx.value else Tx(w.durable, [], false);
    w.(tx := Some(tx.(savepoints := tx.savepoints + [Savepoint(name, tx.current)])))
  }

  /** RELEASE drops the savepoint and those after it, and commits a transaction that it opened; an unknown name
      is an error. */
  function Release<S>(w: World<S>, name: nat): Option<World<S>> {
    if w.tx.None? then None
    else
      var tx := w.tx.value;
      FindIsIndex(tx.savepoints, name);
      match Find(tx.savepoints, name)
      case None => None
      case Some(i) =>
        if i == 0 && !tx.begun then Some(w.(durable := tx.current, tx := None))
        else Some(w.(tx := Some(tx.(savepoints := tx.savepoints[..i]))))
  }

  /** ROLLBACK TO keeps the savepoint and drops those after it. */
  function RollbackTo<S>(w: World<S>, name: nat): Option<World<S>> {
    if w.tx.None? then None
    else
      var tx := w.tx.value;
      FindIsIndex(tx.savepoints, name);
      match Find(tx.savepoints, name)
      case None => None
      case Some(i) => Some(w.(tx := Some(tx.(current := tx.savepoints[i].saved, savepoints := tx.savepoints[..i + 1]))))
  }

  lemma {:induction false} FindLatest<S>(sps: seq<Savepoint<S>>, name: nat)
    ensures forall i :: 0 <= i < |sps| && sps[i].name == name && (forall j :: i < j < |sps| ==> sps[j].name != name) ==>
      Find(sps, name) == Some(i)
    ensures (forall i :: 0 <= i < |sps| ==> sps[i].name != name) ==> Find(sps, name) == None
    decreases |sps|
  {
    if sps != [] {
      FindLatest(sps[..|sps| - 1], name);
      assert forall i :: 0 <= i < |sps| - 1 ==> sps[..|sps| - 1][i] == sps[i];
    }
  }

  /** ROLLBACK TO goes back to what the latest savepoint of the name saved and keeps it; RELEASE changes nothing that
      is seen, and makes it durable where that savepoint opened the transaction. */
  lemma LatestSavepoint<S>(w: World<S>, i: nat)
    requires w.tx.Some? && i < |w.tx.value.savepoints|
    requires forall j :: i < j < |w.tx.value.savepoints| ==>
      w.tx.value.savepoints[j].name != w.tx.value.savepoints[i].name
    ensures var tx := w.tx.value; var back := RollbackTo(w, tx.savepoints[i].name);
      back == Some(w.(tx := Some(Tx(tx.savepoints[i].saved, tx.savepoints[..i + 1], tx.begun))))
    ensures var tx := w.tx.value; var free := Release(w, tx.savepoints[i].name);
      && free.Some? && Seen(free.value) == Seen(w)
      && (tx.begun || i > 0 ==>
        free.value.durable == w.durable && free.value.tx == Some(Tx(tx.current, tx.savepoints[..i], tx.begun)))
      && (!tx.begun && i == 0 ==> free.value.durable == tx.current && free.value.tx == None)
  {
    FindLatest(w.tx.value.savepoints, w.tx.value.savepoints[i].name);
  }

  /** A name that no open savepoint has is an error for both. */
  lemma UnknownSavepoint<S>(w: World<S>, name: nat)
    requires w.tx.Some? ==> forall i :: 0 <= i < |w.tx.value.savepoints| ==> w.tx.value.savepoints[i].name != name
    ensures RollbackTo(w, name) == None && Release(w, name) == None
  {
    if w.tx.Some? { FindLatest(w.tx.value.savepoints, name); }
  }

  // ----- the adapter, one call of one thread at a time; fails says that the engine raises

  /** A thread may take the lock when it is free or its own. */
  predicate MayEnter<S>(w: World<S>, t: Thread) { w.owner.None? || w.owner == Some(t) }

  /** begin, commit and rollback take the lock at depth zero only. */
  predicate MayCall<S>(w: World<S>, t: Thread) { Depth(w, t) > 0 || MayEnter(w, t) }

  function Acquired<S>(w: World<S>, t: Thread): World<S> { w.(owner := Some(t), holds := w.holds + 1) }

  datatype Outcome<S> = Outcome(w: World<S>, raised: bool)

  /** Releasing a lock that is not its own raises. */
  function Released<S>(w: World<S>, t: Thread, raised: bool): Outcome<S> {
    if w.owner != Some(t) then Outcome(w, true)
    else Outcome(if w.holds <= 1 then w.(owner := None, holds := 0) else w.(holds := w.holds - 1), raised)
  }

  function AfterBegin<S>(w: World<S>, t: Thread, fails: bool): Outcome<S> {
    var d := Depth(w, t);
    if d == 0 then
      if fails || w.tx.Some? then Released(Acquired(w, t), t, true)
      else Outcome(Acquired(w, t).(tx := Some(Tx(w.durable, [], true)), depths := w.depths[t := 1]), false)
    else if fails then Outcome(w, true)
    else Outcome(Saved(w, d).(depths := w.depths[t := d + 1]), false)
  }

  function AfterCommit<S>(w: World<S>, t: Thread, fails: bool): Outcome<S> {
    var d := Depth(w, t);
    if d == 0 then (if fails then Outcome(w, true) else Outcome(w.(durable := Seen(w), tx := None), false))
    else if d == 1 then
      if fails then Released(w, t, true)
      else Released(w.(durable := Seen(w), tx := None, depths := w.depths[t := 0]), t, false)
    else if fails || Release(w, d - 1).None? then Outcome(w, true)
    else Outcome(Release(w, d - 1).value.(depths := w.depths[t := d - 1]), false)
  }

  /** An inner rollback is two commands, of which the second may raise after the first. */
  function AfterRollback<S>(w: World<S>, t: Thread, fails: bool, releaseFails: bool): Outcome<S> {
    var d := Depth(w, t);
    if d == 0 then (if fails then Outcome(w, true) else Outcome(w.(tx := None), false))
    else if d == 1 then
      if fails then Released(w, t, true)
      else Released(w.(tx := None, depths := w.depths[t := 0]), t, false)
    else if fails || RollbackTo(w, d - 1).None? then Outcome(w, true)
    else
      var back := RollbackTo(w, d - 1).value;
      if releaseFails || Release(back, d - 1).None? then Outcome(back, true)
      else Outcome(Release(back, d - 1).value.(depths := w.depths[t := d - 1]), false)
  }

  /** A query changes nothing; a change outside every transaction opens an implicit one, and may do so although
      it fails; a definition outside every transaction takes effect at once. */
  datatype Statement<!S> = Query(fails: bool) | Change(f: S -> S) | FailingChange(opens: bool) | Define(f: S -> S)

  function Opened<S>(w: World<S>): Tx<S> { if w.tx.Some? then w.tx.value else Tx(w.durable, [], true) }

  function AfterExecute<S>(w: World<S>, statement: Statement<S>): Outcome<S> {
    match statement
    case Query(fails) => Outcome(w, fails)
    case Change(f) => Outcome(w.(tx := Some(Opened(w).(current := f(Opened(w).current)))), false)
    case FailingChange(opens) => Outcome(if opens then w.(tx := Some(Opened(w))) else w, true)
    case Define(f) =>
      if w.tx.Some? then Outcome(w.(tx := Some(w.tx.value.(current := f(w.tx.value.current)))), false)
      else Outcome(w.(durable := f(w.durable)), false)
  }

  class SQLiteAdapter<!S(!new)> {
    var durable: S
    var tx: Option<Tx<S>>
    var depths: map<Thread, nat>
    var owner: Option<Thread>
    var holds: nat

    constructor (durable: S)
      ensures Value() == World(durable, None, map[], None, 0)
    {
      this.durable, tx, depths, owner, holds := durable, None, map[], None, 0;
    }

    function Value(): World<S>
      reads this
    {
      World(durable, tx, depths, owner, holds)
    }

    method AcquireLock(t: Thread)
      requires MayEnter(Value(), t)
      modifies this`owner, this`holds
      ensures Value() == Acquired(old(Value()), t)
    {
      owner, holds := Some(t), holds + 1;
    }

    method ReleaseLock(t: Thread, failed: bool) returns (raised: bool)
      modifies this`owner, this`holds
      ensures Outcome(Value(), raised) == Released(old(Value()), t, failed)
    {
      if owner != Some(t) {
        return true;
      }
      if holds <= 1 {
        owner, holds := None, 0;
      } else {
        holds := holds - 1;
      }
      return failed;
    }

    /** The engine's SAVEPOINT, RELEASE and ROLLBACK TO. */
    method SetSavepoint(name: nat)
      modifies this`tx
      ensures Value() == Saved(old(Value()), name)
    {
      var open := if tx.Some? then tx.value else Tx(durable, [], false);
      tx := Some(open.(savepoints := open.savepoints + [Savepoint(name, open.current)]));
    }

    method ReleaseSavepoint(name: nat) returns (raised: bool)
      modifies this`tx, this`durable
      ensures raised == Release(old(Value()), name).None?
      ensures Value() == if raised then old(Value()) else Release(old(Value()), name).value
    {
      var released := Release(Value(), name);
      raised := released == None;
      if !raised {
        durable, tx := released.value.durable, released.value.tx;
      }
    }

    method RollbackToSavepoint(name: nat) returns (raised: bool)
      modifies this`tx
      ensures raised == RollbackTo(old(Value()), name).None?
      ensures Value() == if raised then old(Value()) else RollbackTo(old(Value()), name).value
    {
      var back := RollbackTo(Value(), name);
      raised := back == None;
      if !raised {
        tx := back.value.tx;
      }
    }

    method Begin(t: Thread, fails: bool) returns (raised: bool)
      requires MayCall(Value(), t)
      modifies this
      ensures Outcome(Value(), raised) == AfterBegin(old(Value()), t, fails)
    {
      var depth := if t in depths then depths[t] else 0;
      if depth == 0 {
        AcquireLock(t);
      }
      if fails || (depth == 0 && tx != None) {
        raised := true;
        if depth == 0 {
          raised := ReleaseLock(t, true);
        }
        return;
      }
      if depth == 0 {
        tx := Some(Tx(durable, [], true));
      } else {
        SetSavepoint(depth);
      }
      depths := depths[t := depth + 1];
      return false;
    }

    method Commit(t: Thread, fails: bool) returns (raised: bool)
      requires MayCall(Value(), t)
      modifies this
      ensures Outcome(Value(), raised) == AfterCommit(old(Value()), t, fails)
    {
      var depth := if t in depths then depths[t] else 0;
      if depth <= 0 {
        if !fails {
          durable, tx := if tx.Some? then tx.value.current else durable, None;
        }
        return fails;
      }
      var nextDepth := depth - 1;
      raised := fails;
      if !raised {
        if nextDepth == 0 {
          durable, tx := if tx.Some? then tx.value.current else durable, None;
        } else {
          raised := ReleaseSavepoint(nextDepth);
        }
      }
      if !raised {
        depths := depths[t := nextDepth];
      }
      if nextDepth == 0 {
        raised := ReleaseLock(t, raised);
      }
    }

    method Rollback(t: Thread, fails: bool, releaseFails: bool) returns (raised: bool)
      requires MayCall(Value(), t)
      modifies this
      ensures Outcome(Value(), raised) == AfterRollback(old(Value()), t, fails, releaseFails)
    {
      var depth := if t in depths then depths[t] else 0;
      if depth <= 0 {
        if !fails {
          tx := None;
        }
        return fails;
      }
      var nextDepth := depth - 1;
      raised := fails;
      if !raised {
        if nextDepth == 0 {
          tx := None;
        } else {
          raised := RollbackToSavepoint(nextDepth);
          if !raised {
            raised := releaseFails;
          }
          if !raised {
            raised := ReleaseSavepoint(nextDepth);
          }
        }
      }
      if !raised {
        depths := depths[t := nextDepth];
      }
      if nextDepth == 0 {
        raised := ReleaseLock(t, raised);
      }
    }

    method Execute(t: Thread, statement: Statement<S>) returns (raised: bool)
      requires MayEnter(Value(), t)
      modifies this`tx, this`durable
      ensures Outcome(Value(), raised) == AfterExecute(old(Value()), statement)
    {
      match statement {
        case Query(fails) =>
          return fails;
        case Change(f) =>
          var open := Opened(Value());
          tx := Some(open.(current := f(open.current)));
          return false;
        case FailingChange(opens) =>
          if opens { tx := Some(Opened(Value())); }
          return true;
        case Define(f) =>
          if tx.Some? {
            tx := Some(tx.value.(current := f(tx.value.current)));
          } else {
            durable := f(durable);
          }
          return false;
      }
    }
  }
}
