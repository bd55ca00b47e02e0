/** The revisions a state gets over the lives of any number of processes, one after the other. */
module JsonRevisions {
  import opened Prelude
  import opened JsonStore
  import opened JsonCrashes

  datatype Event<P> = Restart | Restore | Save(payload: P, temp: Path, steps: nat, unlinked: bool)

  /** The directory, and the revision the running process knows for the name; 0 where it knows none. */
  datatype Process<P> = Process(disk: Disk<P>, known: nat)

  function SaveOf<P>(p: Process<P>, name: string, e: Event<P>): Attempt<P>
    requires e.Save?
  {
    Attempt(e.payload, RevisionAfter(p.disk, name, p.known), e.temp, e.steps, e.unlinked)
  }

  function KnownAfterRestore<P>(disk: Disk<P>, name: string, known: nat): nat {
    match Restored(disk, name)
    case Ok(Some((_, revision))) => Greater(known, revision)
    case _ => known
  }

  function Happened<P>(p: Process<P>, name: string, e: Event<P>): Process<P> {
    match e
    case Restart => p.(known := 0)
    case Restore => p.(known := KnownAfterRestore(p.disk, name, p.known))
    case Save(_, _, steps, _) =>
      var a := SaveOf(p, name, e);
      Process(AfterAttempt(p.disk, name, a), if steps >= ALL_STEPS then a.revision else p.known)
  }

  function After<P>(p: Process<P>, name: string, events: seq<Event<P>>): Process<P> {
    if events == [] then p else Happened(After(p, name, events[..|events| - 1]), name, events[|events| - 1])
  }

  /** What the process has done: nothing since it started, or a restore, or a save whose new file is in place
      although it did not return. */
  datatype Phase = Started | Informed | Unsure

  function PhaseAfter<P>(events: seq<Event<P>>): Phase {
    if events == [] then Started
    else match events[|events| - 1]
      case Restart => Started
      case Restore => Informed
      case Save(_, _, steps, _) => if steps == PLACED then Unsure else PhaseAfter(events[..|events| - 1])
  }

  /** Every process restores before it saves, and again after a save that failed once its file was in place. */
  ghost predicate Careful<P>(p: Process<P>, name: string, events: seq<Event<P>>) {
    forall k :: 0 <= k < |events| && events[k].Save? ==>
      PhaseAfter(events[..k]) == Informed
        && Fits(After(p, name, events[..k]).disk, SaveOf(After(p, name, events[..k]), name, events[k]))
  }

  /** The process knows of every revision on disk. */
  predicate Covers<P>(p: Process<P>, name: string) {
    RevisionOf(p.disk, Primary(name)) <= p.known && RevisionOf(p.disk, Previous(name)) <= p.known
  }

  lemma CoversWritesNewest<P>(p: Process<P>, name: string)
    requires Covers(p, name)
    ensures Newest(p.disk, name, RevisionAfter(p.disk, name, p.known))
  {
  }

  lemma RestoreCovers<P>(p: Process<P>, name: string)
    requires Ordered(p.disk, name)
    ensures Covers(Happened(p, name, Restore), name)
  {
  }

  lemma SaveCovers<P>(p: Process<P>, name: string, e: Event<P>)
    requires ValidName(name) && Ordered(p.disk, name) && Covers(p, name) && e.Save? && Fits(p.disk, SaveOf(p, name, e))
    ensures Ordered(Happened(p, name, e).disk, name)
    ensures e.steps != PLACED ==> Covers(Happened(p, name, e), name)
  {
    FileNames(name, e.temp);
    CoversWritesNewest(p, name);
    NewestKeepsOrder(p.disk, name, SaveOf(p, name, e));
  }

  /** In every such run, over any number of processes and with saves cut off or failing at any step, the files
      are in order at every moment and the next save of a process that has restored writes a revision above
      every revision on disk. */
  lemma {:induction false} RevisionsRise<P>(p: Process<P>, name: string, events: seq<Event<P>>)
    requires ValidName(name) && Ordered(p.disk, name) && Careful(p, name, events)
    ensures var q := After(p, name, events);
      Ordered(q.disk, name)
      && (PhaseAfter(events) == Informed ==>
        Covers(q, name) && Newest(q.disk, name, RevisionAfter(q.disk, name, q.known)))
    decreases |events|
  {
    hide Ordered, Covers, Newest, Happened, RevisionAfter, Fits;
    if events != [] {
      var n := |events| - 1;
      var before, e := events[..n], events[n];
      forall k | 0 <= k < n && before[k].Save?
        ensures PhaseAfter(before[..k]) == Informed
        ensures Fits(After(p, name, before[..k]).disk, SaveOf(After(p, name, before[..k]), name, before[k]))
      {
        assert before[..k] == events[..k] && before[k] == events[k];
      }
      RevisionsRise(p, name, before);
      var q := After(p, name, before);
      if e.Save? {
        SaveCovers(q, name, e);
      } else {
        QuietEvent(q, name, e);
        RestoreCovers(q, name);
      }
      if PhaseAfter(events) == Informed { CoversWritesNewest(After(p, name, events), name); }
    }
  }

  lemma QuietEvent<P>(p: Process<P>, name: string, e: Event<P>)
    requires !e.Save?
    ensures Happened(p, name, e).disk == p.disk
  {
  }

  /** So every save of such a run writes the newest revision. */
  lemma EverySaveIsNewest<P>(p: Process<P>, name: string, events: seq<Event<P>>, k: nat)
    requires ValidName(name) && Ordered(p.disk, name) && Careful(p, name, events) && k < |events| && events[k].Save?
    ensures var q := After(p, name, events[..k]); Newest(q.disk, name, SaveOf(q, name, events[k]).revision)
  {
    var before := events[..k];
    forall i | 0 <= i < k && before[i].Save?
      ensures PhaseAfter(before[..i]) == Informed
      ensures Fits(After(p, name, before[..i]).disk, SaveOf(After(p, name, before[..i]), name, before[i]))
    {
      assert before[..i] == events[..i];
    }
    RevisionsRise(p, name, before);
  }

  /** Where a save fails once its file is in place, as when the sync of the directory raises, the next save of
      the same process repeats the revision exactly when the process had restored or written one before. */
  lemma RepeatedRevision<P>(p: Process<P>, name: string, e: Event<P>)
    requires ValidName(name) && Ordered(p.disk, name) && Covers(p, name)
    requires e.Save? && e.steps == PLACED && Fits(p.disk, SaveOf(p, name, e))
    ensures var q := Happened(p, name, e); var next := RevisionAfter(q.disk, name, q.known);
      && (Newest(q.disk, name, next) <==> p.known == 0)
      && (next == RevisionOf(q.disk, Primary(name)) <==> p.known > 0)
  {
    FileNames(name, e.temp);
  }

  /** Where a process saves without having restored, the revision is above all on disk exactly when there is a
      primary, or no previous file with a revision of its own: not after a crash between the two renames. */
  lemma UnreadRevision<P>(disk: Disk<P>, name: string)
    requires Ordered(disk, name)
    ensures Newest(disk, name, RevisionAfter(disk, name, 0)) <==>
      Primary(name) in disk || RevisionOf(disk, Previous(name)) == 0
  {
  }
}
