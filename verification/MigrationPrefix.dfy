/** With upgraders only the applied versions stay a prefix of the local ones. */
module MigrationPrefix {
  import opened Prelude
  import opened MigrationLedger
  import opened MigrationProtocol
  import opened MigrationSafety

  ghost predicate Clean(rows: Rows, v: nat) { v in rows && !rows[v].dirty }

  /** Every version below an applied or marked one is applied. */
  ghost predicate Prefix(rows: Rows, ms: Catalog) {
    rows.Keys <= Versions(ms) && forall u, v :: u in Versions(ms) && v in rows && u < v ==> Clean(rows, u)
  }

  ghost predicate Consecutive(todo: seq<nat>) {
    forall j :: 0 <= j < |todo| ==> todo[j] == todo[0] + j
  }

  /** An upgrader of these migrations that has left only applied versions behind. */
  ghost predicate Passed(rows: Rows, ms: Catalog, r: Runner) {
    && r.dir == Up && r.catalog == ms
    && (r.phase.Walking? || r.phase.Marked? || r.phase.Running? ==>
          Consecutive(r.todo) && (r.todo != [] ==> forall u :: u in Versions(ms) && u < r.todo[0] ==> Clean(rows, u)))
  }

  ghost predicate PrefixInv(w: World, ms: Catalog) {
    Inv(w) && Prefix(w.rows, ms) && forall j :: 0 <= j < |w.runners| ==> Passed(w.rows, ms, w.runners[j])
  }

  /** Upgraders never take a clean row away. */
  lemma CleanStays(w: World, i: nat, w': World, ms: Catalog)
    requires i < |w.runners| && PrefixInv(w, ms) && Step(w, i, w')
    ensures forall u :: Clean(w.rows, u) ==> Clean(w'.rows, u)
  {
    assert Passed(w.rows, ms, w.runners[i]) && Owned(w, w.runners[i]);
    if Start(w, i, w') { var todo :| StartWith(w, i, w', todo); }
  }

  lemma UpTodoConsecutive(ms: Catalog, target: int)
    ensures var todo := UpTodo(ms, target);
      Consecutive(todo) && (todo != [] ==> todo[0] == ms[0].version && forall u :: u in Versions(ms) ==> u >= todo[0])
  {
  }

  lemma StepperPassed(w: World, i: nat, w': World, ms: Catalog)
    requires i < |w.runners| && PrefixInv(w, ms) && Step(w, i, w')
    requires forall u :: Clean(w.rows, u) ==> Clean(w'.rows, u)
    ensures Passed(w'.rows, ms, w'.runners[i])
  {
    hide Verified, UpTodo, Versions;
    var r := w.runners[i];
    assert Passed(w.rows, ms, r) && Owned(w, r);
    UpTodoConsecutive(ms, r.target);
    if Start(w, i, w') {
      var todo :| StartWith(w, i, w', todo);
    } else if r.todo != [] && (r.phase.Walking? || r.phase.Marked? || r.phase.Running?) {
      NextTodo(w'.rows, ms, r.todo);
    }
  }

  lemma NextTodo(rows: Rows, ms: Catalog, todo: seq<nat>)
    requires todo != [] && Consecutive(todo)
    requires forall u :: u in Versions(ms) && u < todo[0] ==> Clean(rows, u)
    ensures Consecutive(todo[1..])
    ensures Clean(rows, todo[0]) && |todo| > 1 ==> forall u :: u in Versions(ms) && u < todo[1..][0] ==> Clean(rows, u)
  {
  }

  lemma RowsPrefix(w: World, i: nat, w': World, ms: Catalog)
    requires i < |w.runners| && PrefixInv(w, ms) && Step(w, i, w')
    requires forall u :: Clean(w.rows, u) ==> Clean(w'.rows, u)
    ensures Prefix(w'.rows, ms)
  {
    hide Verified, UpTodo, Versions;
    var r := w.runners[i];
    assert Passed(w.rows, ms, r) && Owned(w, r);
    if Start(w, i, w') { var todo :| StartWith(w, i, w', todo); }
  }

  lemma PrefixStep(w: World, i: nat, w': World, ms: Catalog)
    requires i < |w.runners| && PrefixInv(w, ms) && Step(w, i, w')
    ensures PrefixInv(w', ms)
  {
    hide Step, Prefix, Inv;
    CleanStays(w, i, w', ms);
    StepKeeps(w, i, w');
    SameRunners(w, i, w');
    StepperPassed(w, i, w', ms);
    RowsPrefix(w, i, w', ms);
    forall j | 0 <= j < |w'.runners| ensures Passed(w'.rows, ms, w'.runners[j]) {
      if j != i { assert Passed(w.rows, ms, w.runners[j]); }
    }
  }

  lemma {:induction false} PrefixRun(ws: seq<World>, k: nat, ms: Catalog)
    requires IsRun(ws) && k < |ws| && PrefixInv(ws[0], ms)
    ensures PrefixInv(ws[k], ms)
  {
    hide PrefixInv, Step;
    if k > 0 {
      PrefixRun(ws, k - 1, ms);
      assert Next(ws[k - 1], ws[k]);
      var i :| 0 <= i < |ws[k - 1].runners| && Step(ws[k - 1], i, ws[k]);
      PrefixStep(ws[k - 1], i, ws[k], ms);
    }
  }

  /** With upgraders of one set of migrations only, to whatever targets and dying wherever they do, the applied
      versions are at every moment a prefix of the local ones, and only the topmost row can be dirty. */
  lemma UpgradesKeepPrefix(ws: seq<World>, k: nat, ms: Catalog)
    requires IsRun(ws) && k < |ws| && Fresh(ws[0]) && Prefix(ws[0].rows, ms)
    requires forall r :: r in ws[0].runners ==> r.dir == Up && r.catalog == ms
    ensures Prefix(ws[k].rows, ms)
  {
    assert Inv(ws[0]);
    PrefixRun(ws, k, ms);
  }
}
