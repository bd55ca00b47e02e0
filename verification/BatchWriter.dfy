/** The bounded batch writer of royells_v20_postgres/batch_writer.py: flushing takes a batch under the lock,
    writes it outside the lock, and puts it back if the write fails. */
module BatchWriter {
  import opened Prelude

  type Row = seq<string>

  function Least(a: nat, b: nat): (m: nat)
    ensures m <= a && m <= b && (m == a || m == b)
  {
    if a < b then a else b
  }

  /** The rows waiting, the batch each flusher is writing, and the rows written, in the order of the commits. */
  datatype World = World(pending: seq<Row>, flights: seq<seq<Row>>, written: seq<Row>, maxPending: nat, batchSize: nat)

  datatype Step =
    | Add(row: Row)
    | Take(i: nat)    // flush: the batch leaves the queue
    | Write(i: nat)   // its transaction commits
    | Fail(i: nat)    // or fails, and the batch goes back to the front

  predicate Enabled(w: World, s: Step) {
    match s
    case Add(_) => true
    case Take(i) => i < |w.flights| && w.flights[i] == []
    case Write(i) => i < |w.flights| && w.flights[i] != []
    case Fail(i) => i < |w.flights| && w.flights[i] != []
  }

  function Batch(w: World): seq<Row> { w.pending[..Least(w.batchSize, |w.pending|)] }

  /** A full queue refuses the row. */
  function After(w: World, s: Step): World
    requires Enabled(w, s)
  {
    match s
    case Add(row) => if |w.pending| >= w.maxPending then w else w.(pending := w.pending + [row])
    case Take(i) => w.(pending := w.pending[|Batch(w)|..], flights := w.flights[i := Batch(w)])
    case Write(i) => w.(written := w.written + w.flights[i], flights := w.flights[i := []])
    case Fail(i) => w.(pending := w.flights[i] + w.pending, flights := w.flights[i := []])
  }

  class PostgresBatchWriter {
    const batchSize: nat
    const maxPending: nat
    var pending: seq<Row>
    var table: seq<Row>  // what the database holds

    /** max(1, batch_size) and max(batch_size, max_pending) */
    constructor (batchSize: int, maxPending: int)
      ensures this.batchSize == (if batchSize > 1 then batchSize else 1)
      ensures this.maxPending == (if maxPending > this.batchSize then maxPending else this.batchSize)
      ensures pending == [] && table == []
    {
      var size := if batchSize > 1 then batchSize else 1;
      this.batchSize, this.maxPending := size, if maxPending > size then maxPending else size;
      pending, table := [], [];
    }

    /** One flusher of its own, seen between its calls. */
    function Value(): World
      reads this
    {
      World(pending, [[]], table, maxPending, batchSize)
    }

    method Add(row: Row) returns (r: Option<nat>)
      modifies this`pending
      ensures Value() == After(old(Value()), Step.Add(row))
      ensures r == if |old(pending)| >= maxPending then None else Some(|pending|)
    {
      if |pending| >= maxPending {
        return None;
      }
      pending := pending + [row];
      return Some(|pending|);
    }

    /** None where the write raises. */
    method Flush(fails: bool) returns (r: Option<nat>)
      modifies this
      ensures var taken := After(old(Value()), Take(0));
        && (taken.flights[0] == [] ==> Value() == taken && r == Some(0))
        && (taken.flights[0] != [] ==> Value() == After(taken, if fails then Fail(0) else Write(0)))
        && (taken.flights[0] != [] ==> r == if fails then None else Some(|taken.flights[0]|))
    {
      var count := Least(batchSize, |pending|);
      var rows := pending[..count];
      pending := pending[count..];
      if rows == [] {
        return Some(0);
      }
      if fails {
        pending := rows + pending;
        return None;
      }
      table := table + rows;
      return Some(|rows|);
    }
  }

  // ----- runs

  ghost predicate AllEnabled(w: World, steps: seq<Step>)
    decreases |steps|
  {
    steps != [] ==> Enabled(w, steps[0]) && AllEnabled(After(w, steps[0]), steps[1..])
  }

  function AfterAll(w: World, steps: seq<Step>): World
    requires AllEnabled(w, steps)
    decreases |steps|
  {
    if steps == [] then w else AfterAll(After(w, steps[0]), steps[1..])
  }

  /** The rows the queue took, in order. */
  function Accepted(w: World, steps: seq<Step>): seq<Row>
    requires AllEnabled(w, steps)
    decreases |steps|
  {
    if steps == [] then []
    else
      (if steps[0].Add? && |w.pending| < w.maxPending then [steps[0].row] else [])
      + Accepted(After(w, steps[0]), steps[1..])
  }

  function InFlight(flights: seq<seq<Row>>): seq<Row> {
    if flights == [] then [] else flights[0] + InFlight(flights[1..])
  }

  /** How often a row occurs in a sequence. */
  function Count(s: seq<Row>, x: Row): nat { multiset(s)[x] }

  function CountAll(w: World, x: Row): nat { Count(w.written, x) + Count(InFlight(w.flights), x) + Count(w.pending, x) }

  lemma CountConcat(a: seq<Row>, b: seq<Row>, x: Row)
    ensures Count(a + b, x) == Count(a, x) + Count(b, x)
  {
    assert multiset(a + b) == multiset(a) + multiset(b);
  }

  lemma {:induction false} Replaced(flights: seq<seq<Row>>, i: nat, rows: seq<Row>, x: Row)
    requires i < |flights|
    ensures Count(InFlight(flights[i := rows]), x) + Count(flights[i], x)
      == Count(InFlight(flights), x) + Count(rows, x)
    ensures |InFlight(flights[i := rows])| + |flights[i]| == |InFlight(flights)| + |rows|
    decreases |flights|
  {
    hide Count;
    var f := flights[i := rows];
    CountConcat(flights[0], InFlight(flights[1..]), x);
    CountConcat(f[0], InFlight(f[1..]), x);
    if i == 0 {
      assert f[1..] == flights[1..];
    } else {
      assert f[1..] == flights[1..][i - 1 := rows];
      Replaced(flights[1..], i - 1, rows, x);
    }
  }

  lemma StepConserves(w: World, s: Step, x: Row)
    requires Enabled(w, s)
    ensures CountAll(After(w, s), x)
      == CountAll(w, x) + if s.Add? && |w.pending| < w.maxPending then Count([s.row], x) else 0
  {
    hide Count, InFlight;
    NoRows(x);
    match s {
      case Add(row) => CountConcat(w.pending, [row], x);
      case Take(i) =>
        Replaced(w.flights, i, Batch(w), x);
        var rest := w.pending[|Batch(w)|..];
        assert w.pending == Batch(w) + rest;
        CountConcat(Batch(w), rest, x);
      case Write(i) =>
        Replaced(w.flights, i, [], x);
        CountConcat(w.written, w.flights[i], x);
      case Fail(i) =>
        Replaced(w.flights, i, [], x);
        CountConcat(w.flights[i], w.pending, x);
    }
  }

  lemma NoRows(x: Row)
    ensures Count([], x) == 0
  {
  }

  /** With any number of flushers and any failures no row is lost or doubled: each occurs among the rows written,
      being written and waiting as often as it was accepted. */
  lemma {:induction false} RowsAreConserved(w: World, steps: seq<Step>, x: Row)
    requires AllEnabled(w, steps)
    ensures CountAll(AfterAll(w, steps), x) == CountAll(w, x) + Count(Accepted(w, steps), x)
    decreases |steps|
  {
    hide CountAll, Count;
    NoRows(x);
    if steps != [] {
      StepConserves(w, steps[0], x);
      RowsAreConserved(After(w, steps[0]), steps[1..], x);
      var added := if steps[0].Add? && |w.pending| < w.maxPending then [steps[0].row] else [];
      CountConcat(added, Accepted(After(w, steps[0]), steps[1..]), x);
    }
  }

  // ----- the bound

  ghost predicate Bounded(w: World) {
    && |w.pending| + |InFlight(w.flights)| <= w.maxPending + |w.flights| * w.batchSize
    && forall f :: f in w.flights ==> |f| <= w.batchSize
  }

  lemma {:induction false} FlightsBound(flights: seq<seq<Row>>, batchSize: nat)
    requires forall f :: f in flights ==> |f| <= batchSize
    ensures |InFlight(flights)| <= |flights| * batchSize
    decreases |flights|
  {
    if flights != [] {
      assert flights[0] in flights;
      FlightsBound(flights[1..], batchSize);
      assert |flights| * batchSize == batchSize + (|flights| - 1) * batchSize;
    }
  }

  lemma StepBounded(w: World, s: Step)
    requires Enabled(w, s) && Bounded(w)
    ensures Bounded(After(w, s)) && After(w, s).maxPending == w.maxPending && |After(w, s).flights| == |w.flights|
  {
    hide InFlight;
    match s {
      case Add(_) => FlightsBound(w.flights, w.batchSize);
      case Take(i) => Replaced(w.flights, i, Batch(w), []);
      case Write(i) => Replaced(w.flights, i, [], []);
      case Fail(i) => Replaced(w.flights, i, [], []);
    }
  }

  /** Rows waiting and rows being written never exceed max_pending and one batch for each flusher. */
  lemma {:induction false} PendingIsBounded(w: World, steps: seq<Step>)
    requires AllEnabled(w, steps) && Bounded(w)
    ensures Bounded(AfterAll(w, steps))
    decreases |steps|
  {
    hide Bounded;
    if steps != [] {
      StepBounded(w, steps[0]);
      PendingIsBounded(After(w, steps[0]), steps[1..]);
    }
  }

  // ----- one flusher

  function InOrder(w: World): seq<Row>
    requires |w.flights| == 1
  {
    w.written + w.flights[0] + w.pending
  }

  lemma OneStepKeepsOrder(w: World, s: Step)
    requires |w.flights| == 1 && Enabled(w, s)
    ensures |After(w, s).flights| == 1
    ensures InOrder(After(w, s)) == InOrder(w) + (if s.Add? && |w.pending| < w.maxPending then [s.row] else [])
  {
  }

  /** With one flusher the rows written, then the batch being written, then the rows waiting, are at every moment
      the accepted rows in order, whichever writes fail. */
  lemma {:induction false} OneFlusherKeepsOrder(w: World, steps: seq<Step>)
    requires AllEnabled(w, steps) && |w.flights| == 1
    ensures |AfterAll(w, steps).flights| == 1
    ensures InOrder(AfterAll(w, steps)) == InOrder(w) + Accepted(w, steps)
    decreases |steps|
  {
    if steps != [] {
      hide InOrder;
      var w' := After(w, steps[0]);
      OneStepKeepsOrder(w, steps[0]);
      OneFlusherKeepsOrder(w', steps[1..]);
    }
  }
}
