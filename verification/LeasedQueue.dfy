/** The reservation table of royells_v20_core/adapters/sqlite_queue.py: one queue, its operations as
    functions of the table, and the adapter's methods proved to compute them. */
module LeasedQueue {
  import opened Prelude

  type Id = string
  type Worker = string
  type Time = real

  /** status='reserved' with its owner and the end of its lease; the three columns change together. */
  datatype Hold = Hold(worker: Worker, until: Time)

  datatype Row = Row(payload: string, priority: int, availableAt: Time, hold: Option<Hold>,
                     attempts: nat, lastError: string, createdAt: Time, updatedAt: Time)

  type Table = map<Id, Row>

  /** Visibility timeouts below one second are raised to it. */
  function LeaseEnd(now: Time, visibility: real): Time { now + if visibility > 1.0 then visibility else 1.0 }

  /** What dequeue may choose from. */
  predicate Candidate(r: Row, now: Time) {
    r.availableAt <= now && (r.hold.None? || r.hold.value.until <= now)
  }

  /** What reserve accepts: an expired reservation is not asked for its availability again. */
  predicate Reservable(r: Row, now: Time) {
    if r.hold.None? then r.availableAt <= now else r.hold.value.until <= now
  }

  /** ORDER BY priority DESC, available_at ASC, created_at ASC */
  predicate Before(a: Row, b: Row) {
    a.priority > b.priority
    || (a.priority == b.priority
        && (a.availableAt < b.availableAt || (a.availableAt == b.availableAt && a.createdAt < b.createdAt)))
  }

  /** One of the rows that may be the first of the ordered result; ties are the engine's choice. */
  predicate IsFirst(t: Table, ids: set<Id>, id: Id)
    requires ids <= t.Keys
  {
    id in ids && forall x :: x in ids ==> !Before(t[x], t[id])
  }

  function Candidates(t: Table, now: Time): set<Id> { set x | x in t && Candidate(t[x], now) }

  function Pending(t: Table, now: Time): set<Id> { set x | x in t && t[x].hold.None? && t[x].availableAt <= now }

  // ----- operations as events

  datatype Op =
    | Enqueue(id: Id, payload: string, priority: int, readyAt: Time)
    | Dequeue(worker: Worker, visibility: real, pick: Option<Id>)
    | Reserve(id: Id, worker: Worker, visibility: real)
    | Ack(id: Id, who: Option<Worker>)
    | Release(id: Id, who: Option<Worker>, delay: real, error: string)
    | Heartbeat(id: Id, worker: Worker, visibility: real)
    | Clear

  datatype Event = Event(now: Time, op: Op)

  /** The only choice an event has is dequeue's among equals. */
  predicate Allowed(t: Table, e: Event) {
    e.op.Dequeue? ==>
      if e.op.pick.None? then Candidates(t, e.now) == {} else IsFirst(t, Candidates(t, e.now), e.op.pick.value)
  }

  /** WHERE status='reserved' AND item_id=? [AND reserved_by=?] */
  predicate HeldBy(t: Table, id: Id, who: Option<Worker>) {
    id in t && t[id].hold.Some? && (who.Some? ==> t[id].hold.value.worker == who.value)
  }

  /** What the caller is told: a row was changed. */
  predicate Succeeds(t: Table, e: Event) {
    match e.op
    case Enqueue(id, _, _, _) => id !in t
    case Dequeue(_, _, pick) => pick.Some?
    case Reserve(id, _, _) => id in t && Reservable(t[id], e.now)
    case Ack(id, who) => HeldBy(t, id, who)
    case Release(id, who, _, _) => HeldBy(t, id, who)
    case Heartbeat(id, worker, _) => HeldBy(t, id, Some(worker))
    case Clear => true
  }

  function Claimed(r: Row, worker: Worker, visibility: real, now: Time): Row {
    r.(hold := Some(Hold(worker, LeaseEnd(now, visibility))), attempts := r.attempts + 1, updatedAt := now)
  }

  function Max0(x: real): real { if x > 0.0 then x else 0.0 }

  function Truncated(s: string): string { if |s| <= 1000 then s else s[..1000] }

  function After(t: Table, e: Event): Table
    requires Allowed(t, e)
  {
    if !Succeeds(t, e) then t
    else match e.op
      case Enqueue(id, payload, priority, readyAt) =>
        t[id := Row(payload, priority, readyAt, None, 0, "", e.now, e.now)]
      case Dequeue(worker, visibility, pick) => t[pick.value := Claimed(t[pick.value], worker, visibility, e.now)]
      case Reserve(id, worker, visibility) => t[id := Claimed(t[id], worker, visibility, e.now)]
      case Ack(id, _) => t - {id}
      case Release(id, _, delay, error) =>
        t[id := t[id].(hold := None, availableAt := e.now + Max0(delay), lastError := Truncated(error),
          updatedAt := e.now)]
      case Heartbeat(id, worker, visibility) =>
        t[id := t[id].(hold := Some(Hold(worker, LeaseEnd(e.now, visibility))), updatedAt := e.now)]
      case Clear => map[]
  }

  lemma {:induction false} HasFirst(t: Table, ids: set<Id>)
    requires ids <= t.Keys && ids != {}
    ensures exists id :: IsFirst(t, ids, id)
    decreases |ids|
  {
    var x :| x in ids;
    var rest := ids - {x};
    assert forall y :: y in ids <==> y == x || y in rest;
    if rest == {} {
      assert IsFirst(t, ids, x);
    } else {
      HasFirst(t, rest);
      var y :| IsFirst(t, rest, y);
      assert IsFirst(t, ids, if Before(t[x], t[y]) then x else y);
    }
  }

  // ----- the adapter

  class Queue {
    var rows: Table

    constructor ()
      ensures rows == map[]
    {
      rows := map[];
    }

    /** _claim with no item id: dequeue. */
    method ClaimAny(worker: Worker, visibility: real, now: Time) returns (item: Option<(Id, Row)>)
      modifies this
      ensures var e := Event(now, Dequeue(worker, visibility, if item.Some? then Some(item.value.0) else None));
        Allowed(old(rows), e) && rows == After(old(rows), e)
      ensures item.Some? ==> item.value.0 in rows && item.value.1 == rows[item.value.0]
    {
      var ids := Candidates(rows, now);
      if ids == {} {
        return None;
      }
      HasFirst(rows, ids);
      var id :| id in ids && IsFirst(rows, ids, id);
      rows := rows[id := Claimed(rows[id], worker, visibility, now)];
      return Some((id, rows[id]));
    }

    /** _claim with an item id: reserve. */
    method ClaimOne(id: Id, worker: Worker, visibility: real, now: Time) returns (item: Option<Row>)
      modifies this
      ensures var e := Event(now, Reserve(id, worker, visibility));
        rows == After(old(rows), e) && (item.Some? <==> Succeeds(old(rows), e))
      ensures item.Some? ==> id in rows && item.value == rows[id]
    {
      if id !in rows || !Reservable(rows[id], now) {
        return None;
      }
      rows := rows[id := Claimed(rows[id], worker, visibility, now)];
      return Some(rows[id]);
    }

    /** INSERT OR IGNORE */
    method Enqueue(id: Id, payload: string, priority: int, readyAt: Time, now: Time)
      modifies this
      ensures rows == After(old(rows), Event(now, Op.Enqueue(id, payload, priority, readyAt)))
    {
      if id !in rows {
        rows := rows[id := Row(payload, priority, readyAt, None, 0, "", now, now)];
      }
    }

    /** _peek_sync looks at pending rows only. */
    method Peek(now: Time) returns (item: Option<(Id, Row)>)
      ensures item.None? <==> Pending(rows, now) == {}
      ensures item.Some? ==>
        item.value.0 in rows && IsFirst(rows, Pending(rows, now), item.value.0) && item.value.1 == rows[item.value.0]
    {
      var ids := Pending(rows, now);
      if ids == {} {
        return None;
      }
      HasFirst(rows, ids);
      var id :| id in ids && IsFirst(rows, ids, id);
      return Some((id, rows[id]));
    }

    method Ack(id: Id, who: Option<Worker>, now: Time) returns (ok: bool)
      modifies this
      ensures var e := Event(now, Op.Ack(id, who)); rows == After(old(rows), e) && ok == Succeeds(old(rows), e)
    {
      ok := HeldBy(rows, id, who);
      if ok {
        rows := rows - {id};
      }
    }

    /** nack and retry. */
    method Release(id: Id, who: Option<Worker>, delay: real, error: string, now: Time) returns (ok: bool)
      modifies this
      ensures var e := Event(now, Op.Release(id, who, delay, error));
        rows == After(old(rows), e) && ok == Succeeds(old(rows), e)
    {
      ok := HeldBy(rows, id, who);
      if ok {
        var row := rows[id];
        rows := rows[id := row.(hold := None, availableAt := now + Max0(delay), lastError := Truncated(error),
          updatedAt := now)];
      }
    }

    method Heartbeat(id: Id, worker: Worker, visibility: real, now: Time) returns (ok: bool)
      modifies this
      ensures var e := Event(now, Op.Heartbeat(id, worker, visibility));
        rows == After(old(rows), e) && ok == Succeeds(old(rows), e)
    {
      ok := HeldBy(rows, id, Some(worker));
      if ok {
        rows := rows[id := rows[id].(hold := Some(Hold(worker, LeaseEnd(now, visibility))), updatedAt := now)];
      }
    }

    method Clear(now: Time) returns (count: nat)
      modifies this
      ensures rows == After(old(rows), Event(now, Op.Clear)) && count == |old(rows)|
    {
      count := |rows|;
      rows := map[];
    }
  }
}
