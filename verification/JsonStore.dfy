/** The previous-generation state files of royells_v20_core/adapters/json_runtime.py, with a crash
    possible after every step that changes the directory. */
module JsonStore {
  import opened Prelude

  type Path = string

  /** What a file holds, as far as reading it can tell: an envelope whose checksum and schema version are
      good, a JSON document without an envelope, or anything else. */
  datatype File<P> = Envelope(payload: P, revision: nat) | Legacy(document: P) | Corrupt

  type Disk<P> = map<Path, File<P>>

  function IsNameChar(c: char): bool {
    'A' <= c <= 'Z' || 'a' <= c <= 'z' || '0' <= c <= '9' || c == '_' || c == '.' || c == '-'
  }

  predicate ValidName(name: string) {
    1 <= |name| <= 128 && (forall c :: c in name ==> IsNameChar(c)) && name[0] !in {'_', '.', '-'}
  }

  function Primary(name: string): Path { name + ".json" }

  function Previous(name: string): Path { name + ".previous.json" }

  /** mkstemp makes a hidden file that no name can stand for. */
  predicate IsTemporary(temp: Path) { temp != "" && temp[0] == '.' }

  /** The payload and the revision, or None where decoding raises. */
  function Decode<P>(f: File<P>): Option<(P, nat)> {
    match f
    case Envelope(payload, revision) => Some((payload, revision))
    case Legacy(document) => Some((document, 0))
    case Corrupt => None
  }

  function Read<P>(disk: Disk<P>, path: Path): Option<(P, nat)> {
    if path in disk then Decode(disk[path]) else None
  }

  datatype Failure = InvalidName | Unreadable

  /** restore: the primary if it can be read, else the previous file; an error if files are there and none
      can be read, and nothing if there are none. */
  function Restored<P>(disk: Disk<P>, name: string): Result<Option<(P, nat)>, Failure> {
    if Read(disk, Primary(name)).Some? then Ok(Read(disk, Primary(name)))
    else if Read(disk, Previous(name)).Some? then Ok(Read(disk, Previous(name)))
    else if Primary(name) in disk || Previous(name) in disk then Err(Unreadable)
    else Ok(None)
  }

  /** A name has up to 128 letters, digits and three signs, and begins with none of the signs; so its files lie in the
      directory itself. */
  lemma NamesExactly(name: string)
    ensures ValidName(name) <==>
      && 0 < |name| < 129
      && ('A' <= name[0] <= 'Z' || 'a' <= name[0] <= 'z' || '0' <= name[0] <= '9')
      && forall i :: 0 <= i < |name| ==>
        'A' <= name[i] <= 'Z' || 'a' <= name[i] <= 'z' || '0' <= name[i] <= '9' || name[i] in "_.-"
    ensures ValidName(name) ==> '/' !in Primary(name) && '/' !in Previous(name) && '\\' !in name
  {
    assert forall i :: 0 <= i < |name| ==> name[i] in name;
    assert '/' !in ".json" && '/' !in ".previous.json";
  }

  /** A good envelope gives what was saved with its revision, and a document without one is read as it is under
      revision zero. */
  predicate Holds<P(==)>(disk: Disk<P>, path: Path, payload: P, revision: nat) {
    path in disk && (disk[path] == Envelope(payload, revision) || (disk[path] == Legacy(payload) && revision == 0))
  }

  predicate Damaged<P>(disk: Disk<P>, path: Path) { path !in disk || disk[path].Corrupt? }

  /** restore gives what the primary holds, and what the previous file holds where the primary is damaged or missing;
      it raises where a damaged file is all there is. */
  lemma RestoredExactly<P>(disk: Disk<P>, name: string, payload: P, revision: nat)
    ensures Restored(disk, name) == Ok(Some((payload, revision))) <==>
      Holds(disk, name + ".json", payload, revision)
      || (Damaged(disk, name + ".json") && Holds(disk, name + ".previous.json", payload, revision))
    ensures Restored(disk, name) == Ok(None) <==> name + ".json" !in disk && name + ".previous.json" !in disk
    ensures Restored(disk, name) == Err(Unreadable) <==>
      Damaged(disk, name + ".json") && Damaged(disk, name + ".previous.json")
      && (name + ".json" in disk || name + ".previous.json" in disk)
  {
  }

  /** The steps of a save up to its last rename ... */
  const PLACED: nat := 4

  /** ... and with the sync of the directory behind it, after which it returns. */
  const ALL_STEPS: nat := 5

  /** The primary becomes the previous file, if there is a primary. */
  function MovedAside<P>(disk: Disk<P>, name: string): Disk<P> {
    if Primary(name) in disk then (disk - {Primary(name)})[Previous(name) := disk[Primary(name)]] else disk
  }

  lemma MoveBesideTemporary<P>(disk: Disk<P>, name: string, temp: Path, f: File<P>)
    requires temp != Primary(name) && temp != Previous(name)
    ensures MovedAside(disk[temp := f], name) == MovedAside(disk, name)[temp := f]
  {
  }

  lemma DropTemporary<P>(disk: Disk<P>, temp: Path, f: File<P>)
    ensures disk[temp := f] - {temp} == disk - {temp}
  {
  }

  /** The directory after the first steps of an atomic write: a temporary file begun, written in full, the
      primary moved to the previous file if there is one, the temporary file moved to the primary. */
  function Written<P>(disk: Disk<P>, name: string, temp: Path, f: File<P>, steps: nat): Disk<P> {
    if steps == 0 then disk
    else if steps == 1 then disk[temp := Corrupt]
    else if steps == 2 then disk[temp := f]
    else if steps == 3 then MovedAside(disk, name)[temp := f]
    else (MovedAside(disk, name) - {temp})[Primary(name) := f]
  }

  /** ... and when it stopped there.  A write that raises goes on to unlink its temporary file, which may fail;
      a process that dies does not get to that. */
  function Stopped<P>(disk: Disk<P>, name: string, temp: Path, f: File<P>, steps: nat, unlinked: bool): Disk<P> {
    if unlinked && steps < PLACED then Written(disk, name, temp, f, steps) - {temp}
      else Written(disk, name, temp, f, steps)
  }

  /** The revision a save would write: what the process knows, else what the primary says. */
  function RevisionAfter<P>(disk: Disk<P>, name: string, known: nat): nat {
    1 + (if known == 0 && Read(disk, Primary(name)).Some? then Read(disk, Primary(name)).value.1 else known)
  }

  class JsonRuntime<P(==)> {
    var disk: Disk<P>
    var revisions: map<string, nat>

    constructor (disk: Disk<P>)
      ensures this.disk == disk && revisions == map[]
    {
      this.disk, revisions := disk, map[];
    }

    function Known(name: string): nat
      reads this
    {
      if name in revisions then revisions[name] else 0
    }

    /** A new process over the same directory. */
    method Restart()
      modifies this`revisions
      ensures revisions == map[]
    {
      revisions := map[];
    }

    /** The steps of _atomic_write that change the directory, as many as are given. */
    method WriteSteps(name: string, temp: Path, f: File<P>, steps: nat)
      requires ValidName(name) && IsTemporary(temp) && temp !in disk
      modifies this`disk
      ensures disk == Written(old(disk), name, temp, f, steps)
    {
      FileNames(name, temp);
      if steps == 0 { return; }
      disk := disk[temp := Corrupt];
      if steps == 1 { return; }
      disk := disk[temp := f];
      if steps == 2 { return; }
      MoveBesideTemporary(old(disk), name, temp, f);
      if Primary(name) in disk {
        disk := (disk - {Primary(name)})[Previous(name) := disk[Primary(name)]];
      }
      assert disk == MovedAside(old(disk), name)[temp := f];
      if steps == 3 { return; }
      DropTemporary(MovedAside(old(disk), name), temp, f);
      disk := (disk - {temp})[Primary(name) := disk[temp]];
    }

    /** _atomic_write, stopped after the given number of steps. */
    method AtomicWrite(name: string, temp: Path, f: File<P>, steps: nat, unlinked: bool)
      requires ValidName(name) && IsTemporary(temp) && temp !in disk
      modifies this`disk
      ensures disk == Stopped(old(disk), name, temp, f, steps, unlinked)
    {
      WriteSteps(name, temp, f, steps);
      if steps < PLACED && unlinked {
        disk := disk - {temp};
      }
    }

    function NextRevision(name: string): nat
      reads this
    {
      RevisionAfter(disk, name, Known(name))
    }

    /** save: the revision, or None where it did not return. */
    method Save(name: string, payload: P, temp: Path, steps: nat, unlinked: bool)
      returns (r: Result<Option<nat>, Failure>)
      requires IsTemporary(temp) && temp !in disk
      modifies this
      ensures !ValidName(name) ==> r == Err(InvalidName) && disk == old(disk) && revisions == old(revisions)
      ensures ValidName(name) ==>
        disk == Stopped(old(disk), name, temp, Envelope(payload, old(NextRevision(name))), steps, unlinked)
      ensures ValidName(name) && steps >= ALL_STEPS ==>
        r == Ok(Some(old(NextRevision(name)))) && revisions == old(revisions)[name := old(NextRevision(name))]
      ensures ValidName(name) && steps < ALL_STEPS ==> r == Ok(None) && revisions == old(revisions)
    {
      if !ValidName(name) {
        return Err(InvalidName);
      }
      var currentRevision := Known(name);
      if Primary(name) in disk && currentRevision == 0 {
        var decoded := Decode(disk[Primary(name)]);
        if decoded != None {
          currentRevision := decoded.value.1;
        }
      }
      var revision := currentRevision + 1;
      AtomicWrite(name, temp, Envelope(payload, revision), steps, unlinked);
      if steps < ALL_STEPS {
        return Ok(None);
      }
      revisions := revisions[name := revision];
      return Ok(Some(revision));
    }

    /** restore tries the two files in order and remembers the revision it read. */
    method Restore(name: string) returns (r: Result<Option<P>, Failure>)
      modifies this`revisions
      ensures !ValidName(name) ==> r == Err(InvalidName) && revisions == old(revisions)
      ensures ValidName(name) ==>
        match Restored(disk, name)
        case Err(e) => r == Err(e) && revisions == old(revisions)
        case Ok(None) => r == Ok(None) && revisions == old(revisions)
        case Ok(Some((payload, revision))) =>
          r == Ok(Some(payload)) && revisions == old(revisions)[name := Greater(old(Known(name)), revision)]
    {
      if !ValidName(name) {
        return Err(InvalidName);
      }
      var failed := false;
      var paths := [Primary(name), Previous(name)];
      for i := 0 to 2
        invariant revisions == old(revisions) && paths == [Primary(name), Previous(name)]
        invariant i > 0 ==> Read(disk, Primary(name)).None?
        invariant i > 1 ==> Read(disk, Previous(name)).None?
        invariant failed == ((i > 0 && Primary(name) in disk) || (i > 1 && Previous(name) in disk))
      {
        assert paths[i] == if i == 0 then Primary(name) else Previous(name);
        if paths[i] in disk {
          var decoded := Decode(disk[paths[i]]);
          if decoded != None {
            revisions := revisions[name := Greater(Known(name), decoded.value.1)];
            return Ok(Some(decoded.value.0));
          }
          failed := true;
        }
      }
      return if failed then Err(Unreadable) else Ok(None);
    }

    /** delete, stopped after the given number of unlinks; the revision is forgotten last. */
    method Delete(name: string, steps: nat) returns (r: Result<(), Failure>)
      modifies this
      ensures !ValidName(name) ==> r == Err(InvalidName) && disk == old(disk) && revisions == old(revisions)
      ensures ValidName(name) ==> r == Ok(()) && disk == Deleted(old(disk), name, steps)
      ensures ValidName(name) ==> revisions == if steps < 3 then old(revisions) else old(revisions) - {name}
    {
      if !ValidName(name) {
        return Err(InvalidName);
      }
      r := Ok(());
      if steps == 0 { return; }
      disk := disk - {Primary(name)};
      if steps == 1 { return; }
      disk := disk - {Previous(name)};
      if steps == 2 { return; }
      revisions := revisions - {name};
    }
  }

  function Greater(a: nat, b: nat): (m: nat)
    ensures m >= a && m >= b && (m == a || m == b)
  {
    if a > b then a else b
  }

  function Deleted<P>(disk: Disk<P>, name: string, steps: nat): Disk<P> {
    if steps == 0 then disk
    else if steps == 1 then disk - {Primary(name)}
    else disk - {Primary(name), Previous(name)}
  }

  lemma FileNames(name: string, temp: Path)
    requires ValidName(name) && IsTemporary(temp)
    ensures Primary(name) != Previous(name) && temp != Primary(name) && temp != Previous(name)
  {
    assert Primary(name)[0] == name[0] && Previous(name)[0] == name[0];
    assert |Primary(name)| != |Previous(name)|;
  }
}
