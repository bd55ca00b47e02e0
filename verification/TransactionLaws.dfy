/** Nested transactions are a stack of snapshots. */
module TransactionLaws {
  import opened Prelude
  import opened NestedTransactions

  /** One thread at most is inside a transaction, and it holds the lock once; the savepoints open are those of
      its inner transactions, in order. */
  ghost predicate Inv<S>(w: World<S>) {
    && (forall t: Thread :: Depth(w, t) > 0 ==> w.owner == Some(t))
    && match w.owner
       case None => w.holds == 0 && (w.tx.Some? ==> w.tx.value.begun && w.tx.value.savepoints == [])
       case Some(t) =>
         w.holds == 1 && Depth(w, t) > 0 && w.tx.Some? && w.tx.value.begun && |w.tx.value.savepoints| == Depth(w, t) - 1
         && forall i :: 0 <= i < |w.tx.value.savepoints| ==> w.tx.value.savepoints[i].name == i + 1
  }

  lemma FindLast<S>(sps: seq<Savepoint<S>>, name: nat)
    requires sps != [] && sps[|sps| - 1].name == name
    ensures Find(sps, name) == Some(|sps| - 1)
  {
  }

  lemma BeginKeeps<S>(w: World<S>, t: Thread, fails: bool)
    requires Inv(w) && MayCall(w, t)
    ensures Inv(AfterBegin(w, t, fails).w)
    ensures AfterBegin(w, t, fails).raised ==> AfterBegin(w, t, fails).w == w
  {
  }

  lemma ExecuteKeeps<S>(w: World<S>, t: Thread, statement: Statement<S>)
    requires Inv(w) && MayEnter(w, t)
    ensures Inv(AfterExecute(w, statement).w)
  {
  }

  /** The one failure that breaks it is a COMMIT or ROLLBACK of the outermost transaction that raises: the lock is
      let go and the depth stays at one. */
  lemma CommitKeeps<S>(w: World<S>, t: Thread, fails: bool)
    requires Inv(w) && MayCall(w, t)
    ensures Inv(AfterCommit(w, t, fails).w) <==> !(fails && Depth(w, t) == 1)
    ensures fails && Depth(w, t) == 1 ==>
      var w' := AfterCommit(w, t, fails).w; w'.owner == None && Depth(w', t) == 1 && w'.tx == w.tx
  {
    if Depth(w, t) > 1 { FindLast(w.tx.value.savepoints, Depth(w, t) - 1); }
  }

  lemma RollbackKeeps<S>(w: World<S>, t: Thread, fails: bool, releaseFails: bool)
    requires Inv(w) && MayCall(w, t)
    ensures Inv(AfterRollback(w, t, fails, releaseFails).w) <==> !(fails && Depth(w, t) == 1)
    ensures !fails && releaseFails && Depth(w, t) > 1 ==>
      var r := AfterRollback(w, t, fails, releaseFails); var sps := w.tx.value.savepoints;
      r.raised && r.w == Become(w, sps[|sps| - 1].saved)
  {
    if Depth(w, t) > 1 {
      var sps := w.tx.value.savepoints;
      FindLast(sps, Depth(w, t) - 1);
      assert sps[..|sps| - 1 + 1] == sps;
    }
  }

  /** After such a failure no other thread can begin, because the engine's transaction is still open.  The thread
      itself needs no lock to commit or roll back once more: that ends the transaction and brings depth and lock
      back in step, and raises all the same, because the lock is not its own. */
  lemma StuckThread<S>(w: World<S>, t: Thread, u: Thread, fails: bool)
    requires Inv(w) && Depth(w, t) == 1 && u != t
    ensures var stuck := AfterCommit(w, t, true).w;
      && stuck == AfterRollback(w, t, true, false).w && MayCall(stuck, t)
      && AfterBegin(stuck, u, fails) == Outcome(stuck, true)
      && (var again := AfterCommit(stuck, t, false);
            again.raised && Inv(again.w) && again.w.owner == None && again.w.durable == Seen(w) && again.w.tx == None)
      && (var back := AfterRollback(stuck, t, false, false);
            back.raised && Inv(back.w) && back.w.owner == None && back.w.durable == w.durable && back.w.tx == None)
  {
    assert Depth(w, u) == 0;
  }

  /** Where another thread is inside by then, such a late commit makes that thread's writes durable and ends its
      transaction under it. */
  lemma LateCommit<S>(w: World<S>, t: Thread, u: Thread)
    requires Depth(w, t) == 1 && w.owner == Some(u) && u != t && w.tx.Some?
    ensures MayCall(w, t) && var late := AfterCommit(w, t, false);
      late.raised && late.w.durable == w.tx.value.current && late.w.tx == None && late.w.owner == Some(u)
      && Depth(late.w, u) == Depth(w, u)
  {
  }

  /** Outside every transaction a change is seen at once and not durable: a bare rollback drops it, a bare commit
      makes it durable, and a transaction cannot begin before one of them. */
  lemma BareChange<S>(w: World<S>, t: Thread, f: S -> S, fails: bool)
    requires Depth(w, t) == 0 && w.tx == None && MayEnter(w, t)
    ensures var changed := AfterExecute(w, Change(f));
      && !changed.raised && Seen(changed.w) == f(w.durable) && changed.w.durable == w.durable
      && AfterRollback(changed.w, t, false, fails) == Outcome(w, false)
      && AfterCommit(changed.w, t, false) == Outcome(w.(durable := f(w.durable)), false)
      && AfterBegin(changed.w, t, fails).raised
  {
  }

  /** A change that fails leaves nothing to commit, whether it opened a transaction or not, and a definition is
      durable without a commit. */
  lemma BareFailure<S>(w: World<S>, t: Thread, f: S -> S, opens: bool, fails: bool)
    requires Depth(w, t) == 0 && w.tx == None && MayEnter(w, t)
    ensures var failed, defined := AfterExecute(w, FailingChange(opens)), AfterExecute(w, Define(f));
      && failed.raised && Seen(failed.w) == w.durable
      && AfterCommit(failed.w, t, false) == AfterRollback(failed.w, t, false, fails) == Outcome(w, false)
      && !defined.raised && AfterRollback(defined.w, t, false, fails) == Outcome(w.(durable := f(w.durable)), false)
  {
  }

  /** One call by one thread, and whether the engine raises in it. */
  datatype Call<!S> =
    | BeginCall(t: Thread, fails: bool)
    | CommitCall(t: Thread, fails: bool)
    | RollbackCall(t: Thread, fails: bool, releaseFails: bool)
    | ExecuteCall(t: Thread, statement: Statement<S>)

  function AfterCall<S>(w: World<S>, c: Call<S>): World<S> {
    match c
    case BeginCall(t, fails) => AfterBegin(w, t, fails).w
    case CommitCall(t, fails) => AfterCommit(w, t, fails).w
    case RollbackCall(t, fails, releaseFails) => AfterRollback(w, t, fails, releaseFails).w
    case ExecuteCall(_, statement) => AfterExecute(w, statement).w
  }

  function AfterCalls<S>(w: World<S>, calls: seq<Call<S>>): World<S>
    decreases |calls|
  {
    if calls == [] then w else AfterCalls(AfterCall(w, calls[0]), calls[1..])
  }

  /** The lock is respected, and no COMMIT or ROLLBACK of an outermost transaction raises. */
  ghost predicate Orderly<S>(w: World<S>, calls: seq<Call<S>>)
    decreases |calls|
  {
    calls != [] ==>
      var c := calls[0];
      && (if c.ExecuteCall? then MayEnter(w, c.t) else MayCall(w, c.t))
      && ((c.CommitCall? || c.RollbackCall?) && Depth(w, c.t) == 1 ==> !c.fails)
      && Orderly(AfterCall(w, c), calls[1..])
  }

  /** Over every interleaving of any number of threads, at most one has depth above zero, and it holds the lock. */
  lemma {:induction false} OneThreadInside<S>(w: World<S>, calls: seq<Call<S>>)
    requires Inv(w) && Orderly(w, calls)
    ensures Inv(AfterCalls(w, calls))
    decreases |calls|
  {
    hide Inv, AfterBegin, AfterCommit, AfterRollback, AfterExecute;
    if calls != [] {
      match calls[0] {
        case BeginCall(t, fails) => BeginKeeps(w, t, fails);
        case CommitCall(t, fails) => CommitKeeps(w, t, fails);
        case RollbackCall(t, fails, releaseFails) => RollbackKeeps(w, t, fails, releaseFails);
        case ExecuteCall(t, statement) => ExecuteKeeps(w, t, statement);
      }
      OneThreadInside(AfterCall(w, calls[0]), calls[1..]);
    }
  }

  // ----- programs of nested transactions

  /** with adapter.transaction(): ...; a block that does not commit is one whose body raises and is caught. */
  datatype Item<!S> = Write(f: S -> S) | Block(items: seq<Item<S>>, commits: bool)

  /** What a program does to the data, with no transactions in sight. */
  function Meaning<S>(items: seq<Item<S>>, s: S): S {
    if items == [] then s
    else
      var s' := match items[0]
        case Write(f) => f(s)
        case Block(inner, commits) => if commits then Meaning(inner, s) else s;
      Meaning(items[1..], s')
  }

  /** What the adapter does, call by call, where the engine does not raise. */
  function RunAll<S>(w: World<S>, t: Thread, items: seq<Item<S>>): World<S>
    decreases items, 0
  {
    if items == [] then w
    else
      var w' := match items[0]
        case Write(f) => AfterExecute(w, Change(f)).w
        case Block(inner, commits) => RunBlock(w, t, inner, commits);
      RunAll(w', t, items[1..])
  }

  function RunBlock<S>(w: World<S>, t: Thread, items: seq<Item<S>>, commits: bool): World<S>
    decreases items, 1
  {
    var inside := RunAll(AfterBegin(w, t, false).w, t, items);
    if commits then AfterCommit(inside, t, false).w else AfterRollback(inside, t, false, false).w
  }

  ghost predicate Inside<S>(w: World<S>, t: Thread) { Inv(w) && w.owner == Some(t) }

  function Become<S>(w: World<S>, s: S): World<S>
    requires w.tx.Some?
  {
    w.(tx := Some(w.tx.value.(current := s)))
  }

  lemma OpenInner<S>(w: World<S>, t: Thread)
    requires Inside(w, t)
    ensures var w' := AfterBegin(w, t, false).w;
      && Inside(w', t) && Depth(w', t) == Depth(w, t) + 1 && w'.durable == w.durable
      && w'.tx == Some(w.tx.value.(savepoints := w.tx.value.savepoints + [Savepoint(Depth(w, t), w.tx.value.current)]))
  {
  }

  lemma CloseInner<S>(w: World<S>, t: Thread, s: S)
    requires Inside(w, t)
    ensures var inside := Become(AfterBegin(w, t, false).w, s);
      && AfterCommit(inside, t, false).w == Become(w, s)
      && AfterRollback(inside, t, false, false).w == w
  {
    var d := Depth(w, t);
    var sps := w.tx.value.savepoints;
    var inner := sps + [Savepoint(d, w.tx.value.current)];
    FindLast(inner, d);
    assert inner[..|inner| - 1] == sps && inner[..|inner| - 1 + 1] == inner;
    assert w.depths[t := d + 1][t := d] == w.depths;
  }

  lemma BecomeInside<S>(w: World<S>, t: Thread, s: S)
    requires Inside(w, t)
    ensures Inside(Become(w, s), t)
  {
  }

  /** Inside a transaction a program changes what is seen exactly as its meaning says: an inner block that rolls
      back leaves the state at its own begin, one that commits leaves its result, and neither touches the
      durable state, the depth or the savepoints around it. */
  lemma {:induction false} RunsAsMeant<S>(w: World<S>, t: Thread, items: seq<Item<S>>)
    requires Inside(w, t)
    ensures RunAll(w, t, items) == Become(w, Meaning(items, w.tx.value.current))
    decreases items
  {
    hide Inside, AfterBegin, AfterCommit, AfterRollback;
    assert w.tx.Some? by { InsideHasTx(w, t); }
    if items == [] {
      assert Become(w, w.tx.value.current) == w;
    } else {
      var s := w.tx.value.current;
      match items[0] {
        case Write(f) =>
          BecomeInside(w, t, f(s));
          assert AfterExecute(w, Change(f)).w == Become(w, f(s));
          RunsAsMeant(Become(w, f(s)), t, items[1..]);
        case Block(inner, commits) =>
          OpenInner(w, t);
          var begun := AfterBegin(w, t, false).w;
          RunsAsMeant(begun, t, inner);
          CloseInner(w, t, Meaning(inner, s));
          var s' := if commits then Meaning(inner, s) else s;
          BecomeInside(w, t, s');
          assert RunBlock(w, t, inner, commits) == Become(w, s');
          RunsAsMeant(Become(w, s'), t, items[1..]);
      }
    }
  }

  lemma InsideHasTx<S>(w: World<S>, t: Thread)
    requires Inside(w, t)
    ensures w.tx.Some?
  {
  }

  /** An outermost transaction makes the whole program's result durable at its commit and nothing before, or
      nothing at all where it rolls back, and leaves the lock free. */
  lemma OutermostIsAtomic<S>(w: World<S>, t: Thread, items: seq<Item<S>>, commits: bool)
    requires Inv(w) && w.owner == None && w.tx == None
    ensures var w' := RunBlock(w, t, items, commits);
      && Inv(w') && w'.owner == None && w'.tx == None && Depth(w', t) == 0
      && w'.durable == if commits then Meaning(items, w.durable) else w.durable
    ensures RunAll(AfterBegin(w, t, false).w, t, items).durable == w.durable
  {
    var begun := AfterBegin(w, t, false).w;
    BeginKeeps(w, t, false);
    RunsAsMeant(begun, t, items);
    var inside := RunAll(begun, t, items);
    BecomeInside(begun, t, Meaning(items, w.durable));
    CommitKeeps(inside, t, false);
    RollbackKeeps(inside, t, false, false);
  }
}
