/** What the journal's file says of an entry, read off the log of operations alone: which of them took effect and
    which was the last of its kind. */
module JournalHistory {
  import opened Prelude
  import opened JsonStore
  import opened JsonCrashes
  import opened MigrationJournal

  /** There was an entry at first, or one has been begun and its file put in place, the fourth step of a save. */
  ghost predicate Begun(first: Document, ops: seq<Operation>, id: string) {
    id in first || exists j :: 0 <= j < |ops| && ops[j].steps >= 4 && ops[j].change.Begin? && ops[j].change.id == id
  }

  /** Operation k concerned the entry and took effect. */
  ghost predicate Took(first: Document, ops: seq<Operation>, k: nat, id: string)
    requires k < |ops|
  {
    var c := ops[k].change;
    ops[k].steps >= 4 && c.id == id
    && (c.Begin? || (Begun(first, ops[..k], id) && (c.Complete? ==> c.status != Running)))
  }

  /** No operation from position k on begins the entry anew. */
  ghost predicate NotBegun(first: Document, ops: seq<Operation>, k: nat, id: string) {
    forall j :: k <= j < |ops| && Took(first, ops, j, id) ==> !ops[j].change.Begin?
  }

  ghost predicate NotCompleted(first: Document, ops: seq<Operation>, k: nat, id: string) {
    forall j :: k <= j < |ops| && Took(first, ops, j, id) ==> !ops[j].change.Complete?
  }

  ghost predicate NotMoved(first: Document, ops: seq<Operation>, k: nat, id: string) {
    forall j :: k <= j < |ops| && Took(first, ops, j, id) ==> !ops[j].change.Checkpoint?
  }

  /** The mismatches recorded from position k on, in order. */
  ghost function Items(first: Document, ops: seq<Operation>, k: nat, id: string): seq<string>
    decreases |ops|
  {
    if |ops| <= k then []
    else
      var n := |ops| - 1;
      Items(first, ops[..n], k, id)
        + (if Took(first, ops, n, id) && ops[n].change.Mismatch? then [ops[n].change.item] else [])
  }

  /** The metadata after those given from position k on are merged in, in order. */
  ghost function Merges(first: Document, ops: seq<Operation>, k: nat, id: string, given: map<string, string>):
      map<string, string>
    decreases |ops|
  {
    if |ops| <= k then given
    else
      var n, c := |ops| - 1, ops[|ops| - 1].change;
      Merges(first, ops[..n], k, id, given)
        + (if Took(first, ops, n, id) && (c.Checkpoint? || c.Complete?) then c.metadata else map[])
  }

  // ----- documents

  lemma BegunNext(first: Document, ops: seq<Operation>, o: Operation, id: string)
    ensures Begun(first, ops + [o], id) <==>
      Begun(first, ops, id) || (o.steps >= 4 && o.change.Begin? && o.change.id == id)
  {
    var all := ops + [o];
    assert all[|ops|] == o && forall j :: 0 <= j < |ops| ==> all[j] == ops[j];
  }

  /** An entry is there exactly when it was there at first or has been begun. */
  lemma {:induction false} BegunEntries(first: Document, ops: seq<Operation>, id: string)
    ensures id in Outcome(first, ops) <==> Begun(first, ops, id)
    decreases |ops|
  {
    hide Begun;
    if ops == [] {
      NothingBegun(first, id);
    } else {
      var n := |ops| - 1;
      BegunEntries(first, ops[..n], id);
      BegunNext(first, ops[..n], ops[n], id);
      assert ops == ops[..n] + [ops[n]];
    }
  }

  lemma NothingBegun(first: Document, id: string)
    ensures Begun(first, [], id) <==> id in first
  {
  }

  /** The last operation, if it took effect on the entry, and if not. */
  lemma LastStep(first: Document, ops: seq<Operation>, id: string)
    requires ops != []
    ensures var n := |ops| - 1; var before, after := Outcome(first, ops[..n]), Outcome(first, ops);
      if Took(first, ops, n, id) then
        id in after && (!ops[n].change.Begin? ==> id in before)
        && after[id] == match ops[n].change
           case Begin(_, operation, metadata) => Entry(operation, Running, "", map[], metadata, [])
           case Checkpoint(_, cursor, counts, metadata) =>
             before[id].(cursor := cursor, counts := counts, metadata := before[id].metadata + metadata)
           case Mismatch(_, item) => before[id].(mismatches := before[id].mismatches + [item])
           case Complete(_, status, metadata) =>
             before[id].(status := status, metadata := before[id].metadata + metadata)
      else (id in after <==> id in before) && (id in before ==> after[id] == before[id])
  {
    hide Begun;
    var n := |ops| - 1;
    BegunEntries(first, ops[..n], id);
    BegunEntries(first, ops[..n], ops[n].change.id);
  }

  lemma TookBefore(first: Document, ops: seq<Operation>, k: nat, id: string)
    requires k < |ops| - 1
    ensures Took(first, ops[..|ops| - 1], k, id) <==> Took(first, ops, k, id)
  {
    assert ops[..|ops| - 1][..k] == ops[..k];
  }

  lemma Shorter(first: Document, ops: seq<Operation>, k: nat, id: string)
    requires k < |ops|
    ensures var ops' := ops[..|ops| - 1];
      && (NotBegun(first, ops, k, id) ==> NotBegun(first, ops', k, id))
      && (NotCompleted(first, ops, k, id) ==> NotCompleted(first, ops', k, id))
      && (NotMoved(first, ops, k, id) ==> NotMoved(first, ops', k, id))
  {
    hide Took;
    var ops' := ops[..|ops| - 1];
    forall j | k <= j < |ops'| ensures Took(first, ops', j, id) <==> Took(first, ops, j, id) {
      TookBefore(first, ops, j, id);
    }
  }

  /** Each part of an entry stays as it was after k operations, or grows by what is added to it, until the entry is
      begun anew or an operation of the kind that sets it takes effect. */
  ghost predicate StaysFrom(first: Document, ops: seq<Operation>, k: nat, id: string, e: Entry) {
    id in Outcome(first, ops)
    && var e' := Outcome(first, ops)[id];
    NotBegun(first, ops, k, id) ==>
      && e'.operation == e.operation
      && (NotCompleted(first, ops, k, id) ==> e'.status == e.status)
      && (NotMoved(first, ops, k, id) ==> e'.cursor == e.cursor && e'.counts == e.counts)
      && e'.mismatches == e.mismatches + Items(first, ops, k, id)
      && e'.metadata == Merges(first, ops, k, id, e.metadata)
  }

  lemma {:induction false} StaysOn(first: Document, ops: seq<Operation>, k: nat, id: string)
    requires k <= |ops| && id in Outcome(first, ops[..k])
    ensures StaysFrom(first, ops, k, id, Outcome(first, ops[..k])[id])
    decreases |ops|
  {
    var e := Outcome(first, ops[..k])[id];
    if k == |ops| {
      assert ops[..k] == ops && Items(first, ops, k, id) == [] && Merges(first, ops, k, id, e.metadata) == e.metadata;
      assert e.mismatches + [] == e.mismatches;
    } else {
      hide Took, Outcome;
      var n := |ops| - 1;
      assert ops[..n][..k] == ops[..k];
      StaysOn(first, ops[..n], k, id);
      Shorter(first, ops, k, id);
      LastStep(first, ops, id);
      StepStays(first, ops, k, id, e);
    }
  }

  lemma StepStays(first: Document, ops: seq<Operation>, k: nat, id: string, e: Entry)
    requires k < |ops| && StaysFrom(first, ops[..|ops| - 1], k, id, e)
    requires id in Outcome(first, ops)
    ensures StaysFrom(first, ops, k, id, e)
  {
    hide Took, Outcome, NotBegun, NotCompleted, NotMoved, Items, Merges;
    var n := |ops| - 1;
    Shorter(first, ops, k, id);
    LastStep(first, ops, id);
    LastSets(first, ops, k, id);
    Additions(first, ops, k, id, e);
  }

  lemma LastSets(first: Document, ops: seq<Operation>, k: nat, id: string)
    requires k < |ops|
    ensures Took(first, ops, |ops| - 1, id) ==> var c := ops[|ops| - 1].change;
      && (NotBegun(first, ops, k, id) ==> !c.Begin?)
      && (NotCompleted(first, ops, k, id) ==> !c.Complete?)
      && (NotMoved(first, ops, k, id) ==> !c.Checkpoint?)
  {
    hide Took;
  }

  lemma Additions(first: Document, ops: seq<Operation>, k: nat, id: string, e: Entry)
    requires k < |ops|
    ensures var n, c := |ops| - 1, ops[|ops| - 1].change;
      && e.mismatches + Items(first, ops, k, id) == e.mismatches + Items(first, ops[..n], k, id)
        + (if Took(first, ops, n, id) && c.Mismatch? then [c.item] else [])
      && Merges(first, ops, k, id, e.metadata) == Merges(first, ops[..n], k, id, e.metadata)
        + (if Took(first, ops, n, id) && (c.Checkpoint? || c.Complete?) then c.metadata else map[])
  {
    hide Took;
  }

  // ----- directories

  lemma StoredAt(disks: seq<Disk<Payload>>, ops: seq<Operation>, k: nat)
    requires IsRun(disks, ops) && Ordered(disks[0], STATE_NAME) && Stored(disks[0]).Ok? && k <= |ops|
    ensures Stored(disks[k]) == Ok(Outcome(Stored(disks[0]).value, ops[..k]))
  {
    hide Stored, Ordered, Outcome;
    var disks', ops' := disks[..k + 1], ops[..k];
    forall j | 0 <= j < k ensures StepAt(disks', ops', j) {
      assert StepAt(disks, ops, j);
    }
    JournalRun(disks', ops');
  }

  /** Over every run of any number of processes, cut off anywhere, the file holds exactly the entries that it held at
      first or that were begun. */
  lemma FileHoldsBegun(disks: seq<Disk<Payload>>, ops: seq<Operation>, id: string)
    requires IsRun(disks, ops) && Ordered(disks[0], STATE_NAME) && Stored(disks[0]).Ok?
    ensures Stored(disks[|ops|]).Ok?
    ensures id in Stored(disks[|ops|]).value <==> Begun(Stored(disks[0]).value, ops, id)
  {
    StoredAt(disks, ops, |ops|);
    assert ops[..|ops|] == ops;
    BegunEntries(Stored(disks[0]).value, ops, id);
  }

  /** ... and says of an entry its last begin, with the mismatches and metadata added since, the status of the last
      complete since then, and running where there was none, and the cursor and counts of the last checkpoint since
      then, and none where there was none. */
  lemma EntryIsItsLog(disks: seq<Disk<Payload>>, ops: seq<Operation>, k: nat, id: string)
    requires IsRun(disks, ops) && Ordered(disks[0], STATE_NAME) && Stored(disks[0]).Ok? && k < |ops|
    requires var first := Stored(disks[0]).value; Took(first, ops, k, id) && NotBegun(first, ops, k + 1, id)
    ensures var first, c := Stored(disks[0]).value, ops[k].change;
      && Stored(disks[|ops|]).Ok? && id in Stored(disks[|ops|]).value
      && var e := Stored(disks[|ops|]).value[id];
      && (c.Begin? ==>
        e.operation == c.operation && e.mismatches == Items(first, ops, k + 1, id)
        && e.metadata == Merges(first, ops, k + 1, id, c.metadata))
      && (NotCompleted(first, ops, k + 1, id) && c.Begin? ==> e.status == Running)
      && (NotCompleted(first, ops, k + 1, id) && c.Complete? ==> e.status == c.status)
      && (NotMoved(first, ops, k + 1, id) && c.Begin? ==> e.cursor == "" && e.counts == map[])
      && (NotMoved(first, ops, k + 1, id) && c.Checkpoint? ==> e.cursor == c.cursor && e.counts == c.counts)
  {
    hide Stored, Ordered, Took, NotBegun, NotCompleted, NotMoved, Items, Merges, Outcome;
    var first := Stored(disks[0]).value;
    StoredAt(disks, ops, |ops|);
    assert ops[..|ops|] == ops && ops[..k + 1][..k] == ops[..k] && ops[..k + 1][k] == ops[k];
    TookInPart(first, ops, k, id);
    LastStep(first, ops[..k + 1], id);
    StaysOn(first, ops, k + 1, id);
  }

  lemma TookInPart(first: Document, ops: seq<Operation>, k: nat, id: string)
    requires k < |ops|
    ensures Took(first, ops[..k + 1], k, id) <==> Took(first, ops, k, id)
  {
    assert ops[..k + 1][..k] == ops[..k];
  }

  /** An entry on which nothing took effect is the one of before, and one that is there is never lost. */
  lemma {:induction false} EntryUntouched(disks: seq<Disk<Payload>>, ops: seq<Operation>, k: nat, id: string)
    requires IsRun(disks, ops) && Ordered(disks[0], STATE_NAME) && Stored(disks[0]).Ok? && k <= |ops|
    requires forall j :: k <= j < |ops| ==> !Took(Stored(disks[0]).value, ops, j, id)
    ensures Stored(disks[k]).Ok? && Stored(disks[|ops|]).Ok?
    ensures var before, after := Stored(disks[k]).value, Stored(disks[|ops|]).value;
      (id in before <==> id in after) && (id in before ==> before[id] == after[id])
  {
    hide Stored, Ordered, Took, Outcome;
    StoredAt(disks, ops, k);
    StoredAt(disks, ops, |ops|);
    assert ops[..|ops|] == ops;
    OutcomeUntouched(Stored(disks[0]).value, ops, k, id);
  }

  lemma {:induction false} OutcomeUntouched(first: Document, ops: seq<Operation>, k: nat, id: string)
    requires k <= |ops| && forall j :: k <= j < |ops| ==> !Took(first, ops, j, id)
    ensures var before, after := Outcome(first, ops[..k]), Outcome(first, ops);
      (id in before <==> id in after) && (id in before ==> before[id] == after[id])
    decreases |ops|
  {
    hide Took, Outcome;
    if k == |ops| {
      assert ops[..k] == ops;
    } else {
      var ops' := ops[..|ops| - 1];
      assert ops'[..k] == ops[..k];
      forall j | k <= j < |ops'| ensures !Took(first, ops', j, id) { TookBefore(first, ops, j, id); }
      OutcomeUntouched(first, ops', k, id);
      LastStep(first, ops, id);
    }
  }

  /** What list_open gives of it: an entry is open exactly when the last begin or complete of it was a begin. */
  lemma OpenIsItsLog(disks: seq<Disk<Payload>>, ops: seq<Operation>, k: nat, id: string)
    requires IsRun(disks, ops) && Ordered(disks[0], STATE_NAME) && Stored(disks[0]).Ok? && k < |ops|
    requires var first := Stored(disks[0]).value;
      Took(first, ops, k, id) && NotBegun(first, ops, k + 1, id) && NotCompleted(first, ops, k + 1, id)
    requires ops[k].change.Begin? || ops[k].change.Complete?
    ensures Stored(disks[|ops|]).Ok?
    ensures var doc := Stored(disks[|ops|]).value;
      (id in Open(doc) <==> ops[k].change.Begin?) && (id in Open(doc) ==> id in doc && Open(doc)[id] == doc[id])
  {
    hide Stored, Ordered, NotBegun, NotCompleted, NotMoved, Items, Merges, IsRun;
    EntryIsItsLog(disks, ops, k, id);
  }
}
