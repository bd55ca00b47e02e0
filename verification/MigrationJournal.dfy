/** The migration journal of royells_v20_core/migration.py: one document in the JSON store, loaded, changed
    and saved by every operation. */
module MigrationJournal {
  import opened Prelude
  import opened JsonStore
  import opened JsonCrashes
  import opened JsonRevisions

  datatype Status = Running | Succeeded | Failed | RolledBack

  datatype Entry = Entry(operation: string, status: Status, cursor: string, counts: map<string, int>,
                         metadata: map<string, string>, mismatches: seq<string>)

  /** The entries of the document; timestamps are not modelled. */
  type Document = map<string, Entry>

  /** What the state file may hold: such a document, or JSON of another shape. */
  datatype Payload = Entries(document: Document) | Misshapen

  const STATE_NAME: string := "migration_journal"

  datatype Change =
    | Begin(id: string, operation: string, metadata: map<string, string>)
    | Checkpoint(id: string, cursor: string, counts: map<string, int>, metadata: map<string, string>)
    | Mismatch(id: string, item: string)
    | Complete(id: string, status: Status, metadata: map<string, string>)

  datatype Error = UnknownJournal | InvalidStatus | Unusable | NotSaved

  /** What a change makes of the document, or why it raises. */
  function Changed(doc: Document, c: Change): Result<Document, Error> {
    match c
    case Begin(id, operation, metadata) => Ok(doc[id := Entry(operation, Running, "", map[], metadata, [])])
    case Checkpoint(id, cursor, counts, metadata) =>
      if id !in doc then Err(UnknownJournal)
      else Ok(doc[id := doc[id].(cursor := cursor, counts := counts, metadata := doc[id].metadata + metadata)])
    case Mismatch(id, item) =>
      if id !in doc then Err(UnknownJournal) else Ok(doc[id := doc[id].(mismatches := doc[id].mismatches + [item])])
    case Complete(id, status, metadata) =>
      if status == Running then Err(InvalidStatus)
      else if id !in doc then Err(UnknownJournal)
      else Ok(doc[id := doc[id].(status := status, metadata := doc[id].metadata + metadata)])
  }

  /** The document on disk: empty where there is no file yet. */
  function Stored(disk: Disk<Payload>): Result<Document, Error> {
    match Restored(disk, STATE_NAME)
    case Err(_) => Err(Unusable)
    case Ok(None) => Ok(map[])
    case Ok(Some((payload, _))) => if payload.Entries? then Ok(payload.document) else Err(Unusable)
  }

  /** The journal's own file, by name. */
  lemma JournalFile(disk: Disk<Payload>, doc: Document, revision: nat)
    requires "migration_journal.json" in disk && disk["migration_journal.json"] == Envelope(Entries(doc), revision)
    ensures Stored(disk) == Ok(doc)
  {
    assert STATE_NAME + ".json" == "migration_journal.json";
    RestoredExactly(disk, STATE_NAME, Entries(doc), revision);
  }

  /** The entries that are running. */
  function Open(doc: Document): Document { map id | id in doc && doc[id].status == Running :: doc[id] }

  lemma StateNameIsValid()
    ensures ValidName(STATE_NAME)
  {
  }

  datatype Operation = Operation(change: Change, temp: Path, steps: nat, unlinked: bool)

  /** The save of an operation by a process that knew some revision before it loaded the document. */
  function SaveBy(disk: Disk<Payload>, known: nat, o: Operation, doc: Document): Attempt<Payload> {
    Attempt(Entries(doc), RevisionAfter(disk, STATE_NAME, KnownAfterRestore(disk, STATE_NAME, known)), o.temp, o.steps,
      o.unlinked)
  }

  /** One operation on the directory, stopped after some steps of its save: the document is loaded, and a change
      that raises writes nothing. */
  function Applied(disk: Disk<Payload>, known: nat, o: Operation): Disk<Payload> {
    match Stored(disk)
    case Err(_) => disk
    case Ok(doc) =>
      match Changed(doc, o.change)
      case Err(_) => disk
      case Ok(new') => AfterAttempt(disk, STATE_NAME, SaveBy(disk, known, o, new'))
  }

  /** What that makes of the document. */
  function Done(doc: Document, o: Operation): Document {
    if o.steps >= PLACED && Changed(doc, o.change).Ok? then Changed(doc, o.change).value else doc
  }

  /** Whatever revision the process knew, its save is the newest and the document changes as a whole. */
  lemma AppliedAtomically(disk: Disk<Payload>, known: nat, o: Operation)
    requires Ordered(disk, STATE_NAME) && Stored(disk).Ok? && IsTemporary(o.temp) && o.temp !in disk
    ensures var disk' := Applied(disk, known, o);
      Ordered(disk', STATE_NAME) && Stored(disk') == Ok(Done(Stored(disk).value, o))
    ensures var doc := Stored(disk).value; Changed(doc, o.change).Ok? ==>
      Newest(disk, STATE_NAME, SaveBy(disk, known, o, Changed(doc, o.change).value).revision)
  {
    hide AfterAttempt, ValidName, Ordered, Newest, Changed;
    StateNameIsValid();
    var doc := Stored(disk).value;
    if Changed(doc, o.change).Ok? {
      var a := SaveBy(disk, known, o, Changed(doc, o.change).value);
      var p := Process(disk, known);
      RestoreCovers(p, STATE_NAME);
      CoversWritesNewest(Happened(p, STATE_NAME, Restore), STATE_NAME);
      OrderedIsGood(disk, STATE_NAME);
      AttemptIsAtomic(disk, STATE_NAME, a);
      NewestKeepsOrder(disk, STATE_NAME, a);
    }
  }

  lemma OrderedIsGood<P>(disk: Disk<P>, name: string)
    requires Ordered(disk, name)
    ensures Good(disk, name)
  {
  }

  lemma AttemptIsStopped<P>(disk: Disk<P>, name: string, a: Attempt<P>)
    ensures AfterAttempt(disk, name, a)
      == Stopped(disk, name, a.temp, Envelope(a.payload, a.revision), a.steps, a.unlinked)
  {
  }

  class Journal {
    const state: JsonRuntime<Payload>

    constructor (state: JsonRuntime<Payload>)
      ensures this.state == state
    {
      this.state := state;
    }

    /** _load_all */
    method LoadAll() returns (r: Result<Document, Error>)
      modifies state`revisions
      ensures r == Stored(state.disk)
      ensures state.Known(STATE_NAME) == KnownAfterRestore(state.disk, STATE_NAME, old(state.Known(STATE_NAME)))
    {
      StateNameIsValid();
      var restored := state.Restore(STATE_NAME);
      match restored {
        case Err(_) => return Err(Unusable);
        case Ok(None) => return Ok(map[]);
        case Ok(Some(payload)) => return if payload.Entries? then Ok(payload.document) else Err(Unusable);
      }
    }

    /** begin, checkpoint, mismatch and complete, stopped after some steps of the save. */
    method Apply(c: Change, temp: Path, steps: nat, unlinked: bool) returns (r: Result<(), Error>)
      requires IsTemporary(temp) && temp !in state.disk
      modifies state
      ensures state.disk == Applied(old(state.disk), old(state.Known(STATE_NAME)), Operation(c, temp, steps, unlinked))
      ensures c.Complete? && c.status == Running ==> r == Err(InvalidStatus) && state.revisions == old(state.revisions)
      ensures !(c.Complete? && c.status == Running) ==>
        match Stored(old(state.disk))
        case Err(e) => r == Err(e)
        case Ok(doc) =>
          if !c.Begin? && c.id !in doc then r == Err(UnknownJournal)
          else r == if steps >= 5 then Ok(()) else Err(NotSaved)
    {
      hide AfterAttempt, RevisionAfter, KnownAfterRestore;
      StateNameIsValid();
      if c.Complete? && c.status == Running {
        return Err(InvalidStatus);
      }
      var loaded := LoadAll();
      if loaded.Err? {
        return Err(loaded.error);
      }
      var changed := Changed(loaded.value, c);
      if changed.Err? {
        return Err(changed.error);
      }
      ghost var a := Attempt(Entries(changed.value), state.NextRevision(STATE_NAME), temp, steps, unlinked);
      AttemptIsStopped(state.disk, STATE_NAME, a);
      var saved := state.Save(STATE_NAME, Entries(changed.value), temp, steps, unlinked);
      return if saved == Ok(None) then Err(NotSaved) else Ok(());
    }

    /** list_open */
    method ListOpen() returns (r: Result<Document, Error>)
      modifies state`revisions
      ensures match Stored(state.disk) case Ok(doc) => r == Ok(Open(doc)) case Err(_) => r == Err(Unusable)
    {
      var loaded := LoadAll();
      match loaded {
        case Err(e) => r := Err(e);
        case Ok(doc) => r := Ok(Open(doc));
      }
    }
  }

  // ----- runs of the journal

  /** The document after operations that may each be cut off: those that raise or do not get to their last rename
      change nothing. */
  function Outcome(doc: Document, ops: seq<Operation>): Document {
    if ops == [] then doc else Done(Outcome(doc, ops[..|ops| - 1]), ops[|ops| - 1])
  }

  /** The operation is one of any process: the one before, or a new one. */
  ghost predicate StepAt(disks: seq<Disk<Payload>>, ops: seq<Operation>, k: nat)
    requires |disks| == |ops| + 1 && k < |ops|
  {
    IsTemporary(ops[k].temp) && ops[k].temp !in disks[k]
    && exists known :: disks[k + 1] == Applied(disks[k], known, ops[k])
  }

  ghost predicate IsRun(disks: seq<Disk<Payload>>, ops: seq<Operation>) {
    |disks| == |ops| + 1 && forall k :: 0 <= k < |ops| ==> StepAt(disks, ops, k)
  }

  /** Over every run of operations, each possibly cut off at any step, the directory always holds a readable
      document: the one that the operations which got to their last rename make of the first. */
  lemma {:induction false} JournalRun(disks: seq<Disk<Payload>>, ops: seq<Operation>)
    requires IsRun(disks, ops) && Ordered(disks[0], STATE_NAME) && Stored(disks[0]).Ok?
    ensures Ordered(disks[|ops|], STATE_NAME)
    ensures Stored(disks[|ops|]) == Ok(Outcome(Stored(disks[0]).value, ops))
    decreases |ops|
  {
    hide Applied, Done, Ordered, Stored;
    var n := |ops|;
    if n > 0 {
      var disks', ops' := disks[..n], ops[..n - 1];
      forall k | 0 <= k < n - 1 ensures StepAt(disks', ops', k) {
        assert StepAt(disks, ops, k);
        assert disks'[k] == disks[k] && disks'[k + 1] == disks[k + 1] && ops'[k] == ops[k];
      }
      JournalRun(disks', ops');
      assert StepAt(disks, ops, n - 1);
      var known :| disks[n] == Applied(disks[n - 1], known, ops[n - 1]);
      AppliedAtomically(disks[n - 1], known, ops[n - 1]);
    }
  }

  /** Operations of other journals, and checkpoints and mismatches of its own, keep an entry open. */
  predicate KeepsOpen(c: Change, id: string) {
    !(c.Complete? && c.id == id)
  }

  /** No open entry is lost: it stays open over every run in which it is not itself completed, with crashes
      anywhere. */
  lemma {:induction false} OpenEntriesSurvive(doc: Document, ops: seq<Operation>, id: string)
    requires id in Open(doc) && forall o :: o in ops ==> KeepsOpen(o.change, id)
    ensures id in Open(Outcome(doc, ops))
    decreases |ops|
  {
    if ops != [] {
      OpenEntriesSurvive(doc, ops[..|ops| - 1], id);
      assert ops[|ops| - 1] in ops;
    }
  }
}
