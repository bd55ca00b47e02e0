/** Whole runs of the queue: the table is what the log of outcomes says it is, so leases exclude and stale
    workers are shut out. */
module QueueRuns {
  import opened Prelude
  import opened LeasedQueue

  /** The table after the events, if every dequeue picked a row it was allowed to pick. */
  ghost function Run(es: seq<Event>): Option<Table> {
    if es == [] then Some(map[])
    else
      var e := es[|es| - 1];
      match Run(es[..|es| - 1])
      case None => None
      case Some(t) => if Allowed(t, e) then Some(After(t, e)) else None
  }

  ghost predicate ClockRuns(es: seq<Event>) {
    forall i, j :: 0 <= i < j < |es| ==> es[i].now <= es[j].now
  }

  /** What a worker or producer saw: an operation and whether it took effect. */
  datatype Seen = Seen(e: Event, ok: bool)

  ghost function Log(es: seq<Event>): (log: seq<Seen>)
    requires Run(es).Some?
    ensures |log| == |es|
    ensures forall i :: 0 <= i < |es| ==> log[i].e == es[i]
  {
    if es == [] then []
    else
      var e := es[|es| - 1];
      Log(es[..|es| - 1]) + [Seen(e, Succeeds(Run(es[..|es| - 1]).value, e))]
  }

  predicate ClaimsId(s: Seen, id: Id) {
    s.ok && ((s.e.op.Dequeue? && s.e.op.pick == Some(id)) || (s.e.op.Reserve? && s.e.op.id == id))
  }

  predicate RemovesId(s: Seen, id: Id) { s.ok && ((s.e.op.Ack? && s.e.op.id == id) || s.e.op.Clear?) }

  // ----- the history of one item, read off the log alone

  function Front(log: seq<Seen>): seq<Seen>
    requires log != []
  {
    log[..|log| - 1]
  }

  /** The lease given by the last claim or heartbeat, unless the item was released or removed since. */
  function LastLease(log: seq<Seen>, id: Id): Option<Hold> {
    if log == [] then None
    else
      var s := log[|log| - 1];
      if ClaimsId(s, id) then Some(Hold(s.e.op.worker, LeaseEnd(s.e.now, s.e.op.visibility)))
      else if RemovesId(s, id) || (s.ok && s.e.op.Release? && s.e.op.id == id) then None
      else if s.ok && s.e.op.Heartbeat? && s.e.op.id == id
      then Some(Hold(s.e.op.worker, LeaseEnd(s.e.now, s.e.op.visibility)))
      else LastLease(Front(log), id)
  }

  /** Claims since the item was last inserted. */
  function ClaimCount(log: seq<Seen>, id: Id): nat {
    if log == [] || RemovesId(log[|log| - 1], id) then 0
    else (if ClaimsId(log[|log| - 1], id) then 1 else 0) + ClaimCount(Front(log), id)
  }

  /** Inserted, and neither acknowledged nor cleared away since. */
  function Present(log: seq<Seen>, id: Id): bool {
    if log == [] || RemovesId(log[|log| - 1], id) then false
    else (log[|log| - 1].ok && log[|log| - 1].e.op.Enqueue? && log[|log| - 1].e.op.id == id) || Present(Front(log), id)
  }

  lemma RunFront(es: seq<Event>)
    requires es != [] && Run(es).Some?
    ensures var es', e := es[..|es| - 1], es[|es| - 1];
      Run(es').Some? && Allowed(Run(es').value, e) && Run(es).value == After(Run(es').value, e)
      && Log(es) == Log(es') + [Seen(e, Succeeds(Run(es').value, e))]
  {
  }

  ghost predicate Agrees(t: Table, log: seq<Seen>, id: Id) {
    && (id in t <==> Present(log, id))
    && (if id in t then t[id].hold == LastLease(log, id) && t[id].attempts == ClaimCount(log, id)
        else LastLease(log, id) == None && ClaimCount(log, id) == 0)
  }

  lemma LogNext(log: seq<Seen>, s: Seen, id: Id)
    ensures Present(log + [s], id) <==>
      !RemovesId(s, id) && ((s.ok && s.e.op.Enqueue? && s.e.op.id == id) || Present(log, id))
    ensures ClaimCount(log + [s], id) ==
      if RemovesId(s, id) then 0 else (if ClaimsId(s, id) then 1 else 0) + ClaimCount(log, id)
    ensures LastLease(log + [s], id) ==
      if ClaimsId(s, id) || (s.ok && s.e.op.Heartbeat? && s.e.op.id == id)
      then Some(Hold(s.e.op.worker, LeaseEnd(s.e.now, s.e.op.visibility)))
      else if RemovesId(s, id) || (s.ok && s.e.op.Release? && s.e.op.id == id) then None
      else LastLease(log, id)
  {
    var log' := log + [s];
    assert Front(log') == log && log'[|log'| - 1] == s;
  }

  lemma AgreesStep(t: Table, e: Event, log: seq<Seen>, id: Id)
    requires Allowed(t, e) && Agrees(t, log, id)
    ensures Agrees(After(t, e), log + [Seen(e, Succeeds(t, e))], id)
  {
    hide LastLease, ClaimCount, Present;
    LogNext(log, Seen(e, Succeeds(t, e)), id);
  }

  /** The table is exactly its log: an item is there from its insertion until an ack or a clear, its lease is
      the last one given and not taken back, and its attempts are the claims since it was inserted. */
  lemma {:induction false} TableIsItsLog(es: seq<Event>, id: Id)
    requires Run(es).Some?
    ensures Agrees(Run(es).value, Log(es), id)
  {
    if es != [] {
      RunFront(es);
      TableIsItsLog(es[..|es| - 1], id);
      AgreesStep(Run(es[..|es| - 1]).value, es[|es| - 1], Log(es[..|es| - 1]), id);
    }
  }

  // ----- leases

  /** While an item's latest lease runs no claim of it succeeds, whoever asks and however. */
  lemma LeaseExcludes(es: seq<Event>, e: Event, id: Id)
    requires Run(es).Some? && Allowed(Run(es).value, e)
    requires LastLease(Log(es), id).Some? && e.now < LastLease(Log(es), id).value.until
    ensures !ClaimsId(Seen(e, Succeeds(Run(es).value, e)), id)
  {
    TableIsItsLog(es, id);
  }

  /** An operation by which the named worker works on an item it holds. */
  predicate WorksAs(op: Op, id: Id, worker: Worker) {
    || op == Ack(id, Some(worker))
    || (op.Release? && op.id == id && op.who == Some(worker))
    || (op.Heartbeat? && op.id == id && op.worker == worker)
  }

  /** Ack, nack and heartbeat succeed exactly for the worker whose name is on the latest lease, expired or not;
      for every other worker they return false and change nothing. */
  lemma OnlyTheHolderWorks(es: seq<Event>, e: Event, id: Id, worker: Worker)
    requires Run(es).Some? && WorksAs(e.op, id, worker)
    ensures var t := Run(es).value; var lease := LastLease(Log(es), id);
      && (Succeeds(t, e) <==> lease.Some? && lease.value.worker == worker)
      && (!Succeeds(t, e) ==> After(t, e) == t)
  {
    TableIsItsLog(es, id);
  }

  /** After another worker has claimed the item, nothing the old worker does to it takes effect until the old
      worker claims it again. */
  lemma {:induction false} ReclaimShutsOut(es: seq<Event>, k: nat, e: Event, id: Id, former: Worker)
    requires Run(es).Some? && k < |es| && ClaimsId(Log(es)[k], id) && Log(es)[k].e.op.worker != former
    requires forall j :: k < j < |es| ==> !(ClaimsId(Log(es)[j], id) && Log(es)[j].e.op.worker == former)
    requires WorksAs(e.op, id, former)
    ensures !Succeeds(Run(es).value, e) && After(Run(es).value, e) == Run(es).value
  {
    LeaseNotBy(es, k, id, former);
    OnlyTheHolderWorks(es, e, id, former);
  }

  lemma {:induction false} LeaseNotBy(es: seq<Event>, k: nat, id: Id, former: Worker)
    requires Run(es).Some? && k < |es| && ClaimsId(Log(es)[k], id) && Log(es)[k].e.op.worker != former
    requires forall j :: k < j < |es| ==> !(ClaimsId(Log(es)[j], id) && Log(es)[j].e.op.worker == former)
    ensures LastLease(Log(es), id).Some? ==> LastLease(Log(es), id).value.worker != former
  {
    var es', e := es[..|es| - 1], es[|es| - 1];
    var log := Log(es);
    RunFront(es);
    assert Front(log) == Log(es');
    if k < |es| - 1 {
      assert forall j :: 0 <= j < |es'| ==> log[j] == Log(es')[j];
      LeaseNotBy(es', k, id, former);
      TableIsItsLog(es', id);
    }
  }

  // ----- reserving and dequeuing

  /** With a clock that never runs back, a reserved item stays available. */
  lemma {:induction false} ReservedIsAvailable(es: seq<Event>, id: Id)
    requires Run(es).Some? && ClockRuns(es) && id in Run(es).value && Run(es).value[id].hold.Some?
    ensures es != [] && Run(es).value[id].availableAt <= es[|es| - 1].now
  {
    if es != [] {
      var es' := es[..|es| - 1];
      RunFront(es);
      var t := Run(es').value;
      if id in t && t[id].hold.Some? {
        ReservedIsAvailable(es', id);
        assert es[|es| - 2].now <= es[|es| - 1].now;
      }
    }
  }

  /** Then reserve(id) succeeds exactly on the items dequeue may choose from. */
  lemma ReserveMatchesDequeue(es: seq<Event>, now: Time, id: Id, worker: Worker, visibility: real)
    requires Run(es).Some? && ClockRuns(es + [Event(now, Reserve(id, worker, visibility))])
    ensures Succeeds(Run(es).value, Event(now, Reserve(id, worker, visibility))) <==>
      id in Candidates(Run(es).value, now)
  {
    var all := es + [Event(now, Reserve(id, worker, visibility))];
    var t := Run(es).value;
    assert forall i, j :: 0 <= i < j < |es| ==> all[i].now <= all[j].now && all[i] == es[i] && all[j] == es[j];
    if id in t && t[id].hold.Some? {
      ReservedIsAvailable(es, id);
      assert all[|es| - 1].now <= all[|es|].now;
    }
  }

  // ----- draining the queue at one instant

  /** Successive dequeues at one instant, each of which gets an item. */
  ghost predicate Drains(t: Table, now: Time, picks: seq<Id>, worker: Worker, visibility: real)
    decreases |picks|
  {
    picks != [] ==>
      var e := Event(now, Dequeue(worker, visibility, Some(picks[0])));
      Allowed(t, e) && Drains(After(t, e), now, picks[1..], worker, visibility)
  }

  ghost function Drained(t: Table, now: Time, picks: seq<Id>, worker: Worker, visibility: real): Table
    requires Drains(t, now, picks, worker, visibility)
    decreases |picks|
  {
    if picks == [] then t
    else Drained(After(t, Event(now, Dequeue(worker, visibility, Some(picks[0])))), now, picks[1..], worker, visibility)
  }

  lemma ClaimTakesOne(t: Table, now: Time, id: Id, worker: Worker, visibility: real)
    requires IsFirst(t, Candidates(t, now), id)
    ensures var t' := After(t, Event(now, Dequeue(worker, visibility, Some(id))));
      && Candidates(t', now) == Candidates(t, now) - {id}
      && forall x :: x in t && x != id ==> x in t' && t'[x] == t[x]
  {
    assert id in Candidates(t, now);
  }

  /** Priorities never rise, and among equals neither the time of availability nor, that being equal too, the time
      of creation falls. */
  predicate InOrder(a: Row, b: Row) {
    a.priority >= b.priority
    && (a.priority == b.priority ==>
      a.availableAt <= b.availableAt && (a.availableAt == b.availableAt ==> a.createdAt <= b.createdAt))
  }

  lemma OrderOf(a: Row, b: Row)
    ensures InOrder(a, b) <==> !Before(b, a)
  {
  }

  /** They return distinct eligible items in the order of priority, availability and creation; once no more is
      got, they have returned all of them. */
  lemma {:induction false} DrainIsSorted(t: Table, now: Time, picks: seq<Id>, worker: Worker, visibility: real)
    requires Drains(t, now, picks, worker, visibility)
    ensures forall i :: 0 <= i < |picks| ==> picks[i] in Candidates(t, now)
    ensures forall i, j :: 0 <= i < j < |picks| ==> picks[i] != picks[j] && InOrder(t[picks[i]], t[picks[j]])
    ensures Candidates(Drained(t, now, picks, worker, visibility), now) == Candidates(t, now) - set p | p in picks
    decreases |picks|
  {
    if picks != [] {
      hide Before, InOrder;
      var p, rest := picks[0], picks[1..];
      var t' := After(t, Event(now, Dequeue(worker, visibility, Some(p))));
      ClaimTakesOne(t, now, p, worker, visibility);
      DrainIsSorted(t', now, rest, worker, visibility);
      PicksCons(p, rest, picks);
      forall i, j | 0 <= i < j < |picks| ensures picks[i] != picks[j] && InOrder(t[picks[i]], t[picks[j]]) {
        assert picks[j] == rest[j - 1] && rest[j - 1] in Candidates(t', now);
        OrderOf(t[picks[i]], t[picks[j]]);
        if i > 0 { assert picks[i] == rest[i - 1] && rest[i - 1] in Candidates(t', now); }
      }
      forall i | 0 <= i < |picks| ensures picks[i] in Candidates(t, now) {
        if i > 0 { assert picks[i] == rest[i - 1] && rest[i - 1] in Candidates(t', now); }
      }
    }
  }

  lemma PicksCons(p: Id, rest: seq<Id>, picks: seq<Id>)
    requires picks != [] && p == picks[0] && rest == picks[1..]
    ensures (set x | x in picks) == {p} + (set x | x in rest)
  {
    assert picks == [p] + rest;
  }

  lemma DrainIsComplete(t: Table, now: Time, picks: seq<Id>, worker: Worker, visibility: real)
    requires Drains(t, now, picks, worker, visibility)
    requires Allowed(Drained(t, now, picks, worker, visibility), Event(now, Dequeue(worker, visibility, None)))
    ensures (set p | p in picks) == Candidates(t, now)
  {
    DrainIsSorted(t, now, picks, worker, visibility);
    var got := set p | p in picks;
    forall p | p in picks ensures p in Candidates(t, now) {
      var i :| 0 <= i < |picks| && picks[i] == p;
    }
    assert got <= Candidates(t, now) && Candidates(t, now) - got == {};
    assert forall x :: x in Candidates(t, now) ==> x in got || x in Candidates(t, now) - got;
  }

  // ----- edges

  /** peek and dequeue disagree on whether there is anything exactly when every eligible item is an expired
      reservation. */
  lemma PeekMissesExpired(t: Table, now: Time)
    ensures (Pending(t, now) == {} && Candidates(t, now) != {}) <==>
      Candidates(t, now) != {} && forall x :: x in Candidates(t, now) ==> t[x].hold.Some?
  {
    assert forall x :: x in Pending(t, now) <==> x in Candidates(t, now) && t[x].hold.None?;
  }

  /** Ownership goes by name: when a worker's expired item is claimed by another process of the same name, the
      first process can still acknowledge it away. */
  lemma SameNameAcks() returns (es: seq<Event>)
    ensures |es| == 4 && Run(es).Some? && ClockRuns(es)
    ensures es[1].op == es[2].op == Reserve("x", "w", 1.0)
    ensures ClaimsId(Log(es)[1], "x") && ClaimsId(Log(es)[2], "x") && RemovesId(Log(es)[3], "x")
  {
    var a, b := Event(0.0, Enqueue("x", "", 0, 0.0)), Event(0.0, Reserve("x", "w", 1.0));
    var c, d := Event(1.0, Reserve("x", "w", 1.0)), Event(1.0, Ack("x", Some("w")));
    assert Run([]) == Some(map[]);
    assert [a][..0] == [] && [a, b][..1] == [a] && [a, b, c][..2] == [a, b] && [a, b, c, d][..3] == [a, b, c];
    assert Run([a]).Some? && Run([a, b]).Some? && Run([a, b, c]).Some?;
    es := [a, b, c, d];
    RunFront([a]); RunFront([a, b]); RunFront([a, b, c]); RunFront(es);
  }
}
