/** The replay guard of royells_compute_helper_service.py is a sliding window over everything it ever
    accepted, and with the freshness check it admits a request at most once. */
module ReplayWindow {

  type RequestId = string

  type Entries = map<RequestId, real>

  function Unexpired(entries: Entries, now: real): Entries { map k | k in entries && entries[k] > now :: entries[k] }

  predicate Admits(entries: Entries, id: RequestId, now: real, capacity: int) {
    id !in Unexpired(entries, now) && |Unexpired(entries, now)| < capacity
  }

  function Claimed(entries: Entries, id: RequestId, now: real, ttl: int, capacity: int): Entries {
    if Admits(entries, id, now, capacity) then Unexpired(entries, now)[id := now + ttl as real]
      else Unexpired(entries, now)
  }

  class ReplayGuard {
    const ttlSeconds: int
    const capacity: int
    var entries: Entries

    constructor (ttlSeconds: int, capacity: int)
      ensures this.ttlSeconds == ttlSeconds && this.capacity == capacity && entries == map[]
    {
      this.ttlSeconds, this.capacity, entries := ttlSeconds, capacity, map[];
    }

    method Claim(id: RequestId, now: real) returns (ok: bool)
      modifies this
      ensures ok == Admits(old(entries), id, now, capacity)
      ensures entries == Claimed(old(entries), id, now, ttlSeconds, capacity)
    {
      var expired := set key | key in entries && entries[key] <= now;
      while expired != {}
        invariant forall key :: key in entries ==> key in old(entries) && entries[key] == old(entries)[key]
        invariant forall key :: key in old(entries) ==> key in entries || old(entries)[key] <= now
        invariant expired == set key | key in entries && entries[key] <= now
        decreases |expired|
      {
        var key :| key in expired;
        entries := entries - {key};
        expired := expired - {key};
      }
      assert forall key :: key in entries ==> key !in expired;
      assert entries == Unexpired(old(entries), now);
      if id in entries || |entries| >= capacity {
        return false;
      }
      entries := entries[id := now + ttlSeconds as real];
      return true;
    }
  }

  // ----- the window over the whole history

  datatype Accepted = Accepted(id: RequestId, at: real)

  /** The ids accepted less than ttl ago, over everything ever accepted. */
  function Window(history: seq<Accepted>, now: real, ttl: int): set<RequestId> {
    set a | a in history && a.at + ttl as real > now :: a.id
  }

  /** Claims in the order they were made, with a clock that does not run back. */
  datatype Attempt = Attempt(id: RequestId, now: real)

  ghost predicate ClockRuns(cs: seq<Attempt>) {
    forall i, j :: 0 <= i < j < |cs| ==> cs[i].now <= cs[j].now
  }

  function EntriesAfter(cs: seq<Attempt>, ttl: int, capacity: int): Entries {
    if cs == [] then map[]
    else
      var c := cs[|cs| - 1];
      Claimed(EntriesAfter(cs[..|cs| - 1], ttl, capacity), c.id, c.now, ttl, capacity)
  }

  function History(cs: seq<Attempt>, ttl: int, capacity: int): seq<Accepted> {
    if cs == [] then []
    else
      var c := cs[|cs| - 1];
      History(cs[..|cs| - 1], ttl, capacity)
        + if Admits(EntriesAfter(cs[..|cs| - 1], ttl, capacity), c.id, c.now, capacity) then [Accepted(c.id, c.now)]
          else []
  }

  lemma {:induction false} EntriesAreTheWindow(cs: seq<Attempt>, ttl: int, capacity: int, now: real)
    requires ClockRuns(cs) && (cs != [] ==> cs[|cs| - 1].now <= now)
    ensures Unexpired(EntriesAfter(cs, ttl, capacity), now).Keys == Window(History(cs, ttl, capacity), now, ttl)
    decreases |cs|
  {
    if cs != [] {
      var cs', c := cs[..|cs| - 1], cs[|cs| - 1];
      var entries, history := EntriesAfter(cs', ttl, capacity), History(cs', ttl, capacity);
      EntriesAreTheWindow(cs', ttl, capacity, now);
      if Admits(entries, c.id, c.now, capacity) {
        WindowCons(history, Accepted(c.id, c.now), now, ttl);
      } else {
        assert history + [] == history;
      }
      assert forall k :: k in Unexpired(entries, now) ==> k in Unexpired(entries, c.now);
    }
  }

  lemma WindowCons(history: seq<Accepted>, a: Accepted, now: real, ttl: int)
    ensures Window(history + [a], now, ttl)
      == Window(history, now, ttl) + (if a.at + ttl as real > now then {a.id} else {})
  {
    assert forall x :: x in history + [a] <==> x in history || x == a;
    assert forall k :: k in Window(history, now, ttl) ==> k in Window(history + [a], now, ttl);
    if a.at + ttl as real > now { assert a.id in Window(history + [a], now, ttl); }
  }

  /** A claim succeeds exactly when its id was not accepted within the last ttl and fewer than capacity ids
      were, over the whole history and not just what is still stored. */
  lemma ClaimIsTheWindowTest(cs: seq<Attempt>, id: RequestId, now: real, ttl: int, capacity: int)
    requires ClockRuns(cs + [Attempt(id, now)])
    ensures var window := Window(History(cs, ttl, capacity), now, ttl);
      Admits(EntriesAfter(cs, ttl, capacity), id, now, capacity) <==> id !in window && |window| < capacity
  {
    var all := cs + [Attempt(id, now)];
    assert forall i, j :: 0 <= i < j < |cs| ==> all[i] == cs[i] && all[j] == cs[j];
    if cs != [] { assert all[|cs| - 1].now <= all[|cs|].now; }
    EntriesAreTheWindow(cs, ttl, capacity, now);
    KeyCount(Unexpired(EntriesAfter(cs, ttl, capacity), now));
  }

  lemma KeyCount(m: Entries)
    ensures |m| == |m.Keys|
  {
  }

  // ----- with the freshness check

  /** abs(int(time.time()) - timestamp) <= skew */
  predicate Fresh(timestamp: int, now: real, skew: int) {
    -skew <= now.Floor - timestamp <= skew
  }

  /** Two claims of one id both succeed only ttl or more apart. */
  lemma {:induction false} AcceptedApart(cs: seq<Attempt>, i: nat, j: nat, ttl: int, capacity: int)
    requires ClockRuns(cs) && i < j < |History(cs, ttl, capacity)|
    requires History(cs, ttl, capacity)[i].id == History(cs, ttl, capacity)[j].id
    ensures History(cs, ttl, capacity)[j].at >= History(cs, ttl, capacity)[i].at + ttl as real
    decreases |cs|
  {
    var cs', c := cs[..|cs| - 1], cs[|cs| - 1];
    var h, h' := History(cs, ttl, capacity), History(cs', ttl, capacity);
    if j < |h'| {
      assert h[i] == h'[i] && h[j] == h'[j];
      AcceptedApart(cs', i, j, ttl, capacity);
    } else {
      assert cs' + [c] == cs;
      ClaimIsTheWindowTest(cs', c.id, c.now, ttl, capacity);
      assert h[i] == h'[i] && h'[i] in h';
    }
  }

  /** A request is its id and timestamp, which its signature binds.  It is checked for freshness at some moment
      and claims its id at most lag later. */
  predicate ClaimsInTime(timestamp: int, checkedAt: real, claimedAt: real, skew: int, lag: real) {
    Fresh(timestamp, checkedAt, skew) && checkedAt <= claimedAt <= checkedAt + lag
  }

  /** One request claims its id twice in a run, fresh and in time both times, and is accepted both times. */
  ghost predicate Twice(cs: seq<Attempt>, i: nat, j: nat, timestamp: int, checkedI: real, checkedJ: real,
                        ttl: int, capacity: int, skew: int, lag: real) {
    var h := History(cs, ttl, capacity);
    && ClockRuns(cs) && i < j < |h| && h[i].id == h[j].id
    && ClaimsInTime(timestamp, checkedI, h[i].at, skew, lag) && ClaimsInTime(timestamp, checkedJ, h[j].at, skew, lag)
  }

  /** Whatever else is claimed in between, one request is accepted at most once when ttl is at least twice the
      skew and one second more, and the lag on top. */
  lemma AcceptedOnce(cs: seq<Attempt>, i: nat, j: nat, timestamp: int, checkedI: real, checkedJ: real,
                     ttl: int, capacity: int, skew: int, lag: real)
    requires Twice(cs, i, j, timestamp, checkedI, checkedJ, ttl, capacity, skew, lag)
    ensures ttl as real < (2 * skew + 1) as real + lag
  {
    AcceptedApart(cs, i, j, ttl, capacity);
  }

  /** The bound is sharp: for every ttl below it some run accepts a request twice. */
  lemma AcceptedTwice(id: RequestId, timestamp: int, ttl: int, capacity: int, skew: int, lag: real)
    returns (cs: seq<Attempt>, checkedI: real, checkedJ: real)
    requires ttl > 0 && capacity > 0 && skew >= 0 && lag >= 0.0 && ttl as real < (2 * skew + 1) as real + lag
    ensures Twice(cs, 0, 1, timestamp, checkedI, checkedJ, ttl, capacity, skew, lag)
    ensures forall c :: c in cs ==> c.id == id
  {
    var a, b := Attempt(id, (timestamp - skew) as real), Attempt(id, (timestamp - skew + ttl) as real);
    cs := [a, b];
    assert cs[..1] == [a] && [a][..0] == [];
    assert EntriesAfter([], ttl, capacity) == map[] && History([], ttl, capacity) == [];
    assert Unexpired(map[], a.now) == map[];
    assert EntriesAfter([a], ttl, capacity) == map[id := b.now] && History([a], ttl, capacity) == [Accepted(id, a.now)];
    assert Unexpired(map[id := b.now], b.now) == map[];
    assert History(cs, ttl, capacity) == [Accepted(id, a.now), Accepted(id, b.now)];
    var edge := (timestamp + skew) as real;
    checkedI := a.now;
    checkedJ := if ttl <= 2 * skew then b.now else if b.now - lag > edge then b.now - lag else edge;
  }

  /** Some run accepts some request twice exactly when ttl is below twice the skew, a second and the lag. */
  lemma TwiceExactly(ttl: int, capacity: int, skew: int, lag: real)
    requires ttl > 0 && capacity > 0 && skew >= 0 && lag >= 0.0
    ensures (exists cs, i, j, timestamp, checkedI, checkedJ ::
               Twice(cs, i, j, timestamp, checkedI, checkedJ, ttl, capacity, skew, lag))
        <==> ttl as real < (2 * skew + 1) as real + lag
  {
    hide Twice;
    forall cs, i, j, timestamp, checkedI, checkedJ
      | Twice(cs, i, j, timestamp, checkedI, checkedJ, ttl, capacity, skew, lag)
      ensures ttl as real < (2 * skew + 1) as real + lag
    {
      AcceptedOnce(cs, i, j, timestamp, checkedI, checkedJ, ttl, capacity, skew, lag);
    }
    if ttl as real < (2 * skew + 1) as real + lag {
      var cs, checkedI, checkedJ := AcceptedTwice("", 0, ttl, capacity, skew, lag);
    }
  }
}
