/** What the dirty marker guarantees over every interleaving. */
module MigrationSafety {
  import opened Prelude
  import opened MigrationLedger
  import opened MigrationProtocol

  // ----- each step keeps the invariant

  /** A step that changes runner i only and neither rows nor schema keeps what the others own. */
  lemma PhaseChange(w: World, i: nat, r: Runner)
    requires i < |w.runners| && Inv(w)
    requires Owned(w, r) && forall v :: ActiveAt(r, v) ==> ActiveAt(w.runners[i], v)
    ensures Inv(With(w, i, r))
  {
  }

  lemma StartKeeps(w: World, i: nat, w': World)
    requires i < |w.runners| && Inv(w) && Start(w, i, w')
    ensures Inv(w')
  {
    var todo :| StartWith(w, i, w', todo);
    PhaseChange(w, i, w'.runners[i]);
  }

  lemma VisitKeeps(w: World, i: nat, w': World)
    requires i < |w.runners| && Inv(w) && Visit(w, i, w')
    ensures Inv(w')
  {
    if w'.rows == w.rows {
      PhaseChange(w, i, w'.runners[i]);
    } else {
      var v := w.runners[i].todo[0];
      forall j | 0 <= j < |w.runners| && j != i
        ensures !ActiveAt(w.runners[j], v) && Owned(w', w'.runners[j])
      {
        assert Owned(w, w.runners[j]);
      }
    }
  }

  lemma BeginKeeps(w: World, i: nat, w': World)
    requires i < |w.runners| && Inv(w) && Begin(w, i, w')
    ensures Inv(w')
  {
    PhaseChange(w, i, w'.runners[i]);
  }

  lemma CommitKeeps(w: World, i: nat, w': World)
    requires i < |w.runners| && Inv(w) && Commit(w, i, w')
    ensures Inv(w')
  {
    var v := w.runners[i].phase.m.version;
    assert ActiveAt(w.runners[i], v) && Owned(w, w.runners[i]);
    forall j | 0 <= j < |w.runners| && j != i
      ensures !ActiveAt(w.runners[j], v) && Owned(w', w'.runners[j])
    {
      assert Owned(w, w.runners[j]);
    }
  }

  lemma StopKeeps(w: World, i: nat, w': World)
    requires i < |w.runners| && Inv(w) && Stop(w, i, w')
    ensures Inv(w')
  {
    PhaseChange(w, i, w'.runners[i]);
  }

  lemma StepKeeps(w: World, i: nat, w': World)
    requires i < |w.runners| && Inv(w) && Step(w, i, w')
    ensures Inv(w')
  {
    hide Start, Visit, Begin, Commit, Stop, Inv;
    if Start(w, i, w') { StartKeeps(w, i, w'); }
    else if Visit(w, i, w') { VisitKeeps(w, i, w'); }
    else if Begin(w, i, w') { BeginKeeps(w, i, w'); }
    else if Commit(w, i, w') { CommitKeeps(w, i, w'); }
    else if Stop(w, i, w') { StopKeeps(w, i, w'); }
    else { FinishKeeps(w, i, w'); }
  }

  lemma FinishKeeps(w: World, i: nat, w': World)
    requires i < |w.runners| && Inv(w) && Finish(w, i, w')
    ensures Inv(w')
  {
    PhaseChange(w, i, w'.runners[i]);
  }

  // ----- whole runs

  lemma {:induction false} RunKeeps(ws: seq<World>, k: nat)
    requires IsRun(ws) && k < |ws| && Inv(ws[0])
    ensures Inv(ws[k]) && |ws[k].runners| == |ws[0].runners|
  {
    hide Inv, Step;
    if k > 0 {
      RunKeeps(ws, k - 1);
      assert Next(ws[k - 1], ws[k]);
      var i :| 0 <= i < |ws[k - 1].runners| && Step(ws[k - 1], i, ws[k]);
      StepKeeps(ws[k - 1], i, ws[k]);
      SameRunners(ws[k - 1], i, ws[k]);
    }
  }

  lemma SameRunners(w: World, i: nat, w': World)
    requires i < |w.runners| && Step(w, i, w')
    ensures |w'.runners| == |w.runners|
    ensures forall j :: 0 <= j < |w.runners| && j != i ==> w'.runners[j] == w.runners[j]
  {
    if Start(w, i, w') { var todo :| StartWith(w, i, w', todo); }
  }

  /** Over every interleaving of upgraders and downgraders with crashes anywhere: at most one runner alive has
      marked a version and not finished it, so at most one is ever in its script transaction; a clean row's
      script is fully in effect and an absent row's is fully absent. */
  lemma MarkerIsAMutex(ws: seq<World>, k: nat)
    requires IsRun(ws) && k < |ws| && Fresh(ws[0])
    ensures Exclusive(ws[k]) && Honest(ws[k])
  {
    assert Inv(ws[0]);
    RunKeeps(ws, k);
  }

  /** The second transaction never finds its marker gone or changed: those two errors cannot happen. */
  lemma MarkerIsNeverLost(ws: seq<World>, k: nat, r: Runner)
    requires IsRun(ws) && k < |ws| && Fresh(ws[0]) && r in ws[k].runners && r.phase.Marked?
    ensures Fault(ws[k].rows, r) == None
  {
    assert Inv(ws[0]);
    RunKeeps(ws, k);
    var j :| 0 <= j < |ws[k].runners| && ws[k].runners[j] == r;
    assert Owned(ws[k], ws[k].runners[j]);
  }

  // ----- a marker left behind

  /** A dirty row that no runner alive is working on. */
  ghost predicate Orphan(w: World, v: nat) {
    v in w.rows && w.rows[v].dirty && forall r :: r in w.runners ==> !ActiveAt(r, v)
  }

  /** A runner that dies, or whose script fails, after marking a version leaves such a row. */
  lemma StopOrphans(w: World, i: nat, w': World, v: nat)
    requires i < |w.runners| && Inv(w) && ActiveAt(w.runners[i], v) && Stop(w, i, w')
    ensures Orphan(w', v)
  {
    assert Owned(w, w.runners[i]);
    forall r | r in w'.runners ensures !ActiveAt(r, v) {
      var j :| 0 <= j < |w'.runners| && w'.runners[j] == r;
    }
  }

  /** Runner i is an upgrader that has not started, or has given up. */
  ghost predicate Held(w: World, i: nat) {
    i < |w.runners| && w.runners[i].dir == Up && w.runners[i].phase in {Idle, Raised, Crashed}
  }

  lemma HeldStays(w: World, i: nat, w': World)
    requires i < |w.runners| && Step(w, i, w') && exists v :: Orphan(w, v)
    ensures forall j :: Held(w, j) ==> Held(w', j)
  {
    SameRunners(w, i, w');
    if Start(w, i, w') { var todo :| StartWith(w, i, w', todo); }
  }

  /** A dirty row is changed only by a runner that is working on it. */
  lemma MarkStays(w: World, i: nat, w': World, v: nat)
    requires i < |w.runners| && Orphan(w, v) && Step(w, i, w')
    ensures |w'.runners| == |w.runners| && v in w'.rows && w'.rows[v].dirty && !ActiveAt(w'.runners[i], v)
  {
    if Start(w, i, w') { var todo :| StartWith(w, i, w', todo); }
    assert !ActiveAt(w.runners[i], v);
  }

  lemma OrphanStays(w: World, i: nat, w': World, v: nat)
    requires i < |w.runners| && Orphan(w, v) && Step(w, i, w')
    ensures Orphan(w', v)
    ensures forall j :: Held(w, j) ==> Held(w', j)
  {
    SameRunners(w, i, w');
    HeldStays(w, i, w');
    MarkStays(w, i, w', v);
    hide Step;
    forall r | r in w'.runners ensures !ActiveAt(r, v) {
      var j :| 0 <= j < |w'.runners| && w'.runners[j] == r;
      if j != i { assert w.runners[j] in w.runners; }
    }
  }

  /** Once a marker is left behind it stays, and no upgrader that starts later ever marks a version or runs a
      script. */
  lemma {:induction false} LaterUpgradesStandStill(ws: seq<World>, k: nat, n: nat, v: nat, i: nat)
    requires IsRun(ws) && k <= n < |ws| && Orphan(ws[k], v) && Held(ws[k], i)
    ensures Orphan(ws[n], v) && Held(ws[n], i)
    decreases n
  {
    hide Orphan, Held, Step;
    if k < n {
      LaterUpgradesStandStill(ws, k, n - 1, v, i);
      assert Next(ws[n - 1], ws[n]);
      var j :| 0 <= j < |ws[n - 1].runners| && Step(ws[n - 1], j, ws[n]);
      OrphanStays(ws[n - 1], j, ws[n], v);
    }
  }

  // ----- what a runner looks at, and when it returns

  /** An upgrader visits the versions of its migrations up to the target, ascending. */
  lemma VisitsExactly(ms: Catalog, target: int)
    ensures forall v :: v in UpTodo(ms, target) <==> v <= target && exists m :: m in ms && m.version == v
    ensures forall i, j :: 0 <= i < j < |UpTodo(ms, target)| ==> UpTodo(ms, target)[i] < UpTodo(ms, target)[j]
  {
    var todo := UpTodo(ms, target);
    forall v | v <= target && exists m :: m in ms && m.version == v ensures v in todo {
      var i :| 0 <= i < |ms| && ms[i].version == v;
      assert todo[i] == v;
    }
    forall v | v in todo ensures v <= target && exists m :: m in ms && m.version == v {
      var i :| 0 <= i < |todo| && todo[i] == v;
      assert ms[i] in ms && ms[i].version == v;
    }
  }

  /** It returns only behind all of them, and only where every row is clean and right by its own migrations. */
  lemma ReturnsVerified(w: World, i: nat, w': World)
    requires i < |w.runners| && i < |w'.runners| && Step(w, i, w')
    requires w.runners[i].dir == Up && w.runners[i].phase != Returned && w'.runners[i].phase == Returned
    ensures w.runners[i].todo == [] && w'.rows == w.rows
    ensures forall v :: v in w'.rows ==>
      exists m ::
        m in w.runners[i].catalog && m.version == v && w'.rows[v] == Row(m.name, m.checksum, false, m.reversible)
  {
    assert Finish(w, i, w');
    forall v | v in w'.rows
      ensures exists m ::
        m in w.runners[i].catalog && m.version == v && w'.rows[v] == Row(m.name, m.checksum, false, m.reversible)
    {
      var m := Local(w.runners[i].catalog, v).value;
      assert m in w.runners[i].catalog;
    }
  }
}
