/** Every column of a row, and whether it can be claimed, read off the log in times and texts alone: what counts is
    the last outcome of the right kind. */
module QueueHistory {
  import opened Prelude
  import opened LeasedQueue
  import opened QueueRuns

  predicate InsertsId(s: Seen, id: Id) { s.ok && s.e.op.Enqueue? && s.e.op.id == id }

  predicate ReleasesId(s: Seen, id: Id) { s.ok && s.e.op.Release? && s.e.op.id == id }

  predicate ExtendsId(s: Seen, id: Id) { s.ok && s.e.op.Heartbeat? && s.e.op.id == id }

  /** The outcome gives a lease on the item. */
  predicate Leases(s: Seen, id: Id) { ClaimsId(s, id) || ExtendsId(s, id) }

  lemma LogFront(es: seq<Event>)
    requires es != [] && Run(es).Some?
    ensures var es', e := es[..|es| - 1], es[|es| - 1];
      && Run(es').Some? && Allowed(Run(es').value, e) && Run(es).value == After(Run(es').value, e)
      && Log(es)[|es'|] == Seen(e, Succeeds(Run(es').value, e))
      && forall j :: 0 <= j < |es'| ==> Log(es)[j] == Log(es')[j]
  {
    RunFront(es);
  }

  lemma Unmoved(t: Table, e: Event, id: Id)
    requires Allowed(t, e) && id in t && !RemovesId(Seen(e, Succeeds(t, e)), id)
    ensures id in After(t, e)
    ensures var s, r, r' := Seen(e, Succeeds(t, e)), t[id], After(t, e)[id];
      r'.payload == r.payload && r'.priority == r.priority && r'.createdAt == r.createdAt
      && (!ReleasesId(s, id) ==> r'.availableAt == r.availableAt && r'.lastError == r.lastError)
      && (!ReleasesId(s, id) && !Leases(s, id) ==> r' == r)
  {
  }

  // ----- columns

  /** Payload, priority and time of creation are those of the insertion. */
  lemma {:induction false} InsertedColumns(es: seq<Event>, k: nat, id: Id)
    requires Run(es).Some? && k < |es| && InsertsId(Log(es)[k], id)
    requires forall j :: k < j < |es| ==> !RemovesId(Log(es)[j], id)
    ensures var t, op := Run(es).value, es[k].op;
      id in t && t[id].payload == op.payload && t[id].priority == op.priority && t[id].createdAt == es[k].now
  {
    LogFront(es);
    if k < |es| - 1 {
      InsertedColumns(es[..|es| - 1], k, id);
      Unmoved(Run(es[..|es| - 1]).value, es[|es| - 1], id);
    }
  }

  /** Until it is first released an item is available at the time it was inserted for and has no error. */
  lemma {:induction false} InsertedAvailability(es: seq<Event>, k: nat, id: Id)
    requires Run(es).Some? && k < |es| && InsertsId(Log(es)[k], id)
    requires forall j :: k < j < |es| ==> !RemovesId(Log(es)[j], id) && !ReleasesId(Log(es)[j], id)
    ensures var t := Run(es).value; id in t && t[id].availableAt == es[k].op.readyAt && t[id].lastError == ""
  {
    LogFront(es);
    if k < |es| - 1 {
      InsertedAvailability(es[..|es| - 1], k, id);
      Unmoved(Run(es[..|es| - 1]).value, es[|es| - 1], id);
    }
  }

  /** From then on it is what the last release says: not before the delay is over, a negative delay being none,
      and with the first thousand characters of the error. */
  lemma {:induction false} ReleasedAvailability(es: seq<Event>, k: nat, id: Id)
    requires Run(es).Some? && k < |es| && ReleasesId(Log(es)[k], id)
    requires forall j :: k < j < |es| ==> !RemovesId(Log(es)[j], id) && !ReleasesId(Log(es)[j], id)
    ensures var t, op, s := Run(es).value, es[k].op, es[k].now;
      && id in t && t[id].availableAt == (if op.delay < 0.0 then s else s + op.delay)
      && t[id].lastError <= op.error && |t[id].lastError| == if |op.error| < 1000 then |op.error| else 1000
  {
    LogFront(es);
    if k < |es| - 1 {
      ReleasedAvailability(es[..|es| - 1], k, id);
      Unmoved(Run(es[..|es| - 1]).value, es[|es| - 1], id);
    }
  }

  /** The row was last updated by the last outcome that concerned it. */
  lemma {:induction false} LastUpdate(es: seq<Event>, k: nat, id: Id)
    requires Run(es).Some? && k < |es|
    requires var s := Log(es)[k]; InsertsId(s, id) || Leases(s, id) || ReleasesId(s, id)
    requires forall j :: k < j < |es| ==>
      var s := Log(es)[j]; !Leases(s, id) && !ReleasesId(s, id) && !RemovesId(s, id)
    ensures id in Run(es).value && Run(es).value[id].updatedAt == es[k].now
  {
    LogFront(es);
    if k < |es| - 1 {
      LastUpdate(es[..|es| - 1], k, id);
      Unmoved(Run(es[..|es| - 1]).value, es[|es| - 1], id);
    }
  }

  // ----- when a claim succeeds

  /** Position k gave the item its latest lease, and nothing has taken it back. */
  ghost predicate LeasedAt(es: seq<Event>, k: nat, id: Id)
    requires Run(es).Some?
  {
    k < |es| && Leases(Log(es)[k], id)
    && forall j :: k < j < |es| ==>
      var s := Log(es)[j]; !Leases(s, id) && !ReleasesId(s, id) && !RemovesId(s, id)
  }

  lemma {:induction false} LeaseEnds(es: seq<Event>, k: nat, id: Id)
    requires Run(es).Some? && LeasedAt(es, k, id)
    ensures var t, s, v := Run(es).value, es[k].now, es[k].op.visibility;
      id in t && t[id].hold == Some(Hold(es[k].op.worker, if v < 1.0 then s + 1.0 else s + v))
  {
    LogFront(es);
    if k < |es| - 1 {
      LeaseEnds(es[..|es| - 1], k, id);
      Unmoved(Run(es[..|es| - 1]).value, es[|es| - 1], id);
    }
  }

  /** A lease lasts as long as it was asked for, and a second at least: until then nothing claims the item, and from
      then on reserving it succeeds, and dequeue may choose it if the clock does not run back. */
  lemma LeaseLasts(es: seq<Event>, k: nat, e: Event, id: Id)
    requires Run(es).Some? && LeasedAt(es, k, id)
    ensures var t, s, v := Run(es).value, es[k].now, es[k].op.visibility;
      && (Allowed(t, e) && (e.now < s + v || e.now < s + 1.0) ==> !ClaimsId(Seen(e, Succeeds(t, e)), id))
      && (e.now >= s + v && e.now >= s + 1.0 && e.op.Reserve? && e.op.id == id ==> Succeeds(t, e))
      && (e.now >= s + v && e.now >= s + 1.0 && ClockRuns(es + [e]) ==> id in Candidates(t, e.now))
  {
    LeaseEnds(es, k, id);
    if e.now >= es[k].now + es[k].op.visibility && e.now >= es[k].now + 1.0 && ClockRuns(es + [e]) {
      var all := es + [e];
      forall i, j | 0 <= i < j < |es| ensures es[i].now <= es[j].now { assert all[i].now <= all[j].now; }
      ReservedIsAvailable(es, id);
      assert all[|es| - 1].now <= all[|es|].now;
    }
  }

  /** Position k inserted the item or put it back, for the given time, and nothing has claimed it since. */
  ghost predicate WaitingSince(es: seq<Event>, k: nat, id: Id, ready: Time)
    requires Run(es).Some?
  {
    && k < |es|
    && ((InsertsId(Log(es)[k], id) && ready == es[k].op.readyAt)
        || (ReleasesId(Log(es)[k], id)
            && ready == if es[k].op.delay < 0.0 then es[k].now else es[k].now + es[k].op.delay))
    && forall j :: k < j < |es| ==>
      var s := Log(es)[j]; !Leases(s, id) && !ReleasesId(s, id) && !RemovesId(s, id)
  }

  lemma {:induction false} NotHeld(es: seq<Event>, k: nat, id: Id, ready: Time)
    requires Run(es).Some? && WaitingSince(es, k, id, ready)
    ensures id in Run(es).value && Run(es).value[id].hold == None && Run(es).value[id].availableAt == ready
  {
    LogFront(es);
    if k < |es| - 1 {
      NotHeld(es[..|es| - 1], k, id, ready);
      Unmoved(Run(es[..|es| - 1]).value, es[|es| - 1], id);
    }
  }

  /** An item that waits can be claimed, by either way, and be seen by peek, exactly from its time on. */
  lemma WaitingIsClaimable(es: seq<Event>, k: nat, e: Event, id: Id, ready: Time)
    requires Run(es).Some? && WaitingSince(es, k, id, ready)
    ensures var t := Run(es).value;
      && (e.op.Reserve? && e.op.id == id ==> (Succeeds(t, e) <==> ready <= e.now))
      && (id in Candidates(t, e.now) <==> ready <= e.now)
      && (id in Pending(t, e.now) <==> ready <= e.now)
  {
    NotHeld(es, k, id, ready);
  }

  /** Without a worker's name ack and nack succeed exactly while somebody's lease has not been taken back. */
  lemma {:induction false} UnnamedWork(es: seq<Event>, e: Event, id: Id)
    requires Run(es).Some? && (e.op.Ack? || e.op.Release?) && e.op.id == id && e.op.who == None
    ensures Succeeds(Run(es).value, e) <==> exists k :: 0 <= k < |es| && LeasedAt(es, k, id)
  {
    var t := Run(es).value;
    if exists k :: 0 <= k < |es| && LeasedAt(es, k, id) {
      var k :| 0 <= k < |es| && LeasedAt(es, k, id);
      LeaseEnds(es, k, id);
    }
    if id in t && t[id].hold.Some? {
      var k := HeldSince(es, id);
      assert LeasedAt(es, k, id);
    }
  }

  lemma {:induction false} HeldSince(es: seq<Event>, id: Id) returns (k: nat)
    requires Run(es).Some? && id in Run(es).value && Run(es).value[id].hold.Some?
    ensures LeasedAt(es, k, id)
  {
    LogFront(es);
    var es' := es[..|es| - 1];
    if Leases(Log(es)[|es'|], id) {
      k := |es'|;
    } else {
      k := HeldSince(es', id);
    }
  }
}
