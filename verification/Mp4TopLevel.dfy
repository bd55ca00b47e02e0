/** The two independent readers of a file's top-level boxes: the bounded head and tail probe of
    royells_compute_helper.py, and the validator of royells_v21_micro_workers.py. */
module Mp4TopLevel {
  import opened Prelude
  import opened Mp4Boxes
  import opened Mp4Parser
  import opened Mp4Exact

  // ----- the head scan

  /** _safe_brand: printable ASCII or nothing. */
  function SafeBrand(value: seq<byte>): Option<seq<byte>> {
    if |value| == 4 && forall b :: b in value ==> 0x20 <= b < 0x7F then Some(value) else None
  }

  /** Four printable bytes are a brand, blanks among them, and nothing else is. */
  lemma BrandExactly(value: seq<byte>)
    ensures |value| == 4 && (forall i :: 0 <= i < 4 ==> 0x20 <= value[i] <= 0x7E) ==> SafeBrand(value) == Some(value)
    ensures |value| != 4 || (exists i :: 0 <= i < 4 && !(0x20 <= value[i] <= 0x7E)) ==> SafeBrand(value) == None
    ensures forall name :: name in ["isom", "mp42", "qt  ", "M4V "] ==>
      SafeBrand(Letters(name)) == Some(Letters(name))
  {
    assert forall i :: 0 <= i < |value| ==> value[i] in value;
  }

  /** The brand after a box at the start of s. */
  function BrandAfter(s: seq<byte>, h: Header, brand: Option<seq<byte>>): Option<seq<byte>> {
    if h.kind == FTYP && h.headerSize + 4 <= h.size <= |s| then SafeBrand(s[h.headerSize..h.headerSize + 4]) else brand
  }

  datatype HeadEnd = HeadEnd(brand: Option<seq<byte>>, moov: Option<seq<byte>>, partial: bool)

  /** The head scan standing before s, with total bytes of the file left. */
  function HeadRun(s: seq<byte>, total: nat, boxes: nat, brand: Option<seq<byte>>, lim: Limits): HeadEnd
    decreases |s|
  {
    if |s| < 8 || boxes >= lim.maxBoxes then HeadEnd(brand, None, false)
    else match ReadHeader(s)
      case None => HeadEnd(brand, None, true)
      case Some(h) =>
        if h.size < h.headerSize || h.size > total then HeadEnd(brand, None, false)
        else if h.size > |s| then HeadEnd(brand, None, true)
        else if h.kind == MOOV then HeadEnd(brand, Some(s[..h.size]), false)
        else HeadRun(s[h.size..], total - h.size, boxes + 1, BrandAfter(s, h, brand), lim)
  }

  /** royells_compute_helper.py, _scan_head_top_level. */
  method ScanHeadTopLevel(head: seq<byte>, totalSize: nat, limits: Limits)
    returns (majorBrand: Option<seq<byte>>, moov: Option<seq<byte>>, partial: bool)
    requires |head| <= totalSize
    ensures HeadEnd(majorBrand, moov, partial) == HeadRun(head, totalSize, 0, None, limits)
  {
    hide ReadHeader, SafeBrand;
    var position, boxes := 0, 0;
    majorBrand, moov, partial := None, None, false;
    assert head[0..] == head;
    while position + 8 <= |head| && boxes < limits.maxBoxes
      invariant 0 <= position <= |head| && moov == None && !partial
      invariant HeadRun(head[position..], totalSize - position, boxes, majorBrand, limits)
        == HeadRun(head, totalSize, 0, None, limits)
      decreases |head| - position
    {
      var header := BoxHeader(head, position, |head|);
      ghost var s := head[position..];
      assert head[position..|head|] == s;
      if header == None {
        partial := true;
        break;
      }
      var h := header.value;
      if h.size < h.headerSize || position + h.size > totalSize {
        break;
      }
      var end := position + h.size;
      boxes := boxes + 1;
      if end > |head| {
        partial := true;
        break;
      }
      assert s[h.size..] == head[end..] && s[..h.size] == head[position..end];
      if h.kind == FTYP && h.size >= h.headerSize + 4 {
        assert s[h.headerSize..h.headerSize + 4] == head[position + h.headerSize..position + h.headerSize + 4];
        majorBrand := SafeBrand(head[position + h.headerSize..position + h.headerSize + 4]);
      } else if h.kind == MOOV {
        moov := Some(head[position..end]);
        break;
      }
      position := end;
    }
  }

  // ----- the tail search

  datatype TailEnd = TailEnd(moov: Option<seq<byte>>, atEnd: Option<bool>, warning: Option<Warning>)

  function LastTypeOffset(tail: seq<byte>): nat { if |tail| >= 8 then |tail| - 8 else 0 }

  /** The search from one candidate position of the type field on; tailEnd is where the tail ends in the file. */
  function TailRun(tail: seq<byte>, at: nat, tailOffset: nat, total: nat, warning: Option<Warning>,
                   lim: Limits): TailEnd
    requires at >= 4
    decreases |tail| - at
  {
    if at > LastTypeOffset(tail) then TailEnd(None, None, warning)
    else if tail[at..at + 4] != MOOV then TailRun(tail, at + 1, tailOffset, total, warning, lim)
    else
      var s := tail[at - 4..];
      match ReadHeader(s)
      case None => TailRun(tail, at + 1, tailOffset, total, Some(TruncatedMoovHeader), lim)
      case Some(h) =>
        if h.size < h.headerSize then TailRun(tail, at + 1, tailOffset, total, warning, lim)
        else if tailOffset + at - 4 + h.size > total
          then TailRun(tail, at + 1, tailOffset, total, Some(MalformedMoovSize), lim)
        else if h.size > lim.maxBoxBytes then TailEnd(None, None, Some(MoovTooLarge))
        else if h.size > |s| then TailRun(tail, at + 1, tailOffset, total, Some(MoovOutsideTail), lim)
        else TailEnd(Some(s[..h.size]), Some(tailOffset + at - 4 + h.size == total), None)
  }

  /** royells_compute_helper.py, _find_tail_moov. */
  method FindTailMoov(tail: seq<byte>, tailOffset: nat, totalSize: nat, limits: Limits)
    returns (moov: Option<seq<byte>>, atEnd: Option<bool>, warning: Option<Warning>)
    ensures TailEnd(moov, atEnd, warning) == TailRun(tail, 4, tailOffset, totalSize, None, limits)
  {
    hide ReadHeader;
    moov, atEnd, warning := None, None, None;
    var typeOffset := 4;
    while typeOffset <= LastTypeOffset(tail)
      invariant typeOffset >= 4
      invariant TailRun(tail, typeOffset, tailOffset, totalSize, warning, limits)
        == TailRun(tail, 4, tailOffset, totalSize, None, limits)
    {
      if tail[typeOffset..typeOffset + 4] == MOOV {
        var start := typeOffset - 4;
        var header := BoxHeader(tail, start, |tail|);
        assert tail[start..|tail|] == tail[start..];
        if header == None {
          warning := Some(TruncatedMoovHeader);
        } else {
          var h := header.value;
          var absoluteEnd := tailOffset + start + h.size;
          if h.size < h.headerSize {
          } else if absoluteEnd > totalSize {
            warning := Some(MalformedMoovSize);
          } else if h.size > limits.maxBoxBytes {
            return None, None, Some(MoovTooLarge);
          } else if start + h.size > |tail| {
            warning := Some(MoovOutsideTail);
          } else {
            assert tail[start..][..h.size] == tail[start..start + h.size];
            return Some(tail[start..start + h.size]), Some(absoluteEnd == totalSize), None;
          }
        }
      }
      typeOffset := typeOffset + 1;
    }
  }

  /** A box header of type moov at a type position: announced no smaller than itself and inside the file. */
  predicate Candidate(tail: seq<byte>, at: nat, tailOffset: nat, total: nat)
    requires 4 <= at && at + 8 <= |tail|
  {
    tail[at..at + 4] == MOOV && ReadHeader(tail[at - 4..]).Some?
    && var h := ReadHeader(tail[at - 4..]).value; h.headerSize <= h.size && tailOffset + at - 4 + h.size <= total
  }

  function CandidateSize(tail: seq<byte>, at: nat): nat
    requires 4 <= at && at + 8 <= |tail|
  {
    if ReadHeader(tail[at - 4..]).Some? then ReadHeader(tail[at - 4..]).value.size else 0
  }

  /** The search ends at the position, because of a candidate that is too large or one that is in the tail. */
  predicate EndsSearch(tail: seq<byte>, at: nat, tailOffset: nat, total: nat, lim: Limits)
    requires 4 <= at && at + 8 <= |tail|
  {
    Candidate(tail, at, tailOffset, total)
    && (CandidateSize(tail, at) > lim.maxBoxBytes || at - 4 + CandidateSize(tail, at) <= |tail|)
  }

  ghost predicate FirstEnd(tail: seq<byte>, start: nat, at: nat, tailOffset: nat, total: nat, lim: Limits)
    requires start >= 4
  {
    start <= at && at + 8 <= |tail| && EndsSearch(tail, at, tailOffset, total, lim)
    && forall i :: start <= i < at ==> !EndsSearch(tail, i, tailOffset, total, lim)
  }

  /** What a position that does not end the search is warned about. */
  function Concern(tail: seq<byte>, at: nat, tailOffset: nat, total: nat): Option<Warning>
    requires 4 <= at && at + 8 <= |tail|
  {
    if tail[at..at + 4] != MOOV then None
    else match ReadHeader(tail[at - 4..])
      case None => Some(TruncatedMoovHeader)
      case Some(h) =>
        if h.size < h.headerSize then None
        else if tailOffset + at - 4 + h.size > total then Some(MalformedMoovSize)
        else Some(MoovOutsideTail)
  }

  ghost predicate Endless(tail: seq<byte>, start: nat, tailOffset: nat, total: nat, lim: Limits)
    requires start >= 4
  {
    forall at :: start <= at && at + 8 <= |tail| ==> !EndsSearch(tail, at, tailOffset, total, lim)
  }

  lemma TailNext(tail: seq<byte>, at: nat, tailOffset: nat, total: nat, warning: Option<Warning>, lim: Limits)
    requires 4 <= at && at + 8 <= |tail|
    ensures TailRun(tail, at, tailOffset, total, warning, lim) ==
      if EndsSearch(tail, at, tailOffset, total, lim) then Ending(tail, at, tailOffset, total, lim)
      else
        var concern := Concern(tail, at, tailOffset, total);
        TailRun(tail, at + 1, tailOffset, total, if concern.Some? then concern else warning, lim)
  {
    hide ReadHeader;
    var n := CandidateSize(tail, at);
    if at - 4 + n <= |tail| { assert tail[at - 4..][..n] == tail[at - 4..at - 4 + n]; }
  }

  /** The box at the position, unless it is too large. */
  function Ending(tail: seq<byte>, at: nat, tailOffset: nat, total: nat, lim: Limits): TailEnd
    requires 4 <= at && at + 8 <= |tail| && EndsSearch(tail, at, tailOffset, total, lim)
  {
    var n := CandidateSize(tail, at);
    if n > lim.maxBoxBytes then TailEnd(None, None, Some(MoovTooLarge))
    else TailEnd(Some(tail[at - 4..at - 4 + n]), Some(tailOffset + at - 4 + n == total), None)
  }

  /** The search gives the first candidate that ends it, and nothing but a warning where there is none. */
  lemma {:induction false} TailIsFirst(tail: seq<byte>, start: nat, tailOffset: nat, total: nat,
                                       warning: Option<Warning>, lim: Limits)
    requires start >= 4
    ensures var r := TailRun(tail, start, tailOffset, total, warning, lim);
      && (forall at :: FirstEnd(tail, start, at, tailOffset, total, lim) ==>
        r == Ending(tail, at, tailOffset, total, lim))
      && (Endless(tail, start, tailOffset, total, lim) ==> r.moov == None && r.atEnd == None)
    decreases |tail| - start
  {
    hide EndsSearch, Ending, Concern, TailRun;
    if start + 8 <= |tail| {
      TailNext(tail, start, tailOffset, total, warning, lim);
      var concern := Concern(tail, start, tailOffset, total);
      TailIsFirst(tail, start + 1, tailOffset, total, if concern.Some? then concern else warning, lim);
    } else {
      TailOver(tail, start, tailOffset, total, warning, lim);
    }
  }

  /** ... which is that of the last position with one. */
  lemma {:induction false} TailLastWarning(tail: seq<byte>, start: nat, tailOffset: nat, total: nat,
                                           warning: Option<Warning>, lim: Limits)
    requires start >= 4 && Endless(tail, start, tailOffset, total, lim)
    ensures var r := TailRun(tail, start, tailOffset, total, warning, lim);
      && (forall at :: LastConcern(tail, start, at, tailOffset, total) ==>
        r.warning == Concern(tail, at, tailOffset, total))
      && (Unconcerned(tail, start, tailOffset, total) ==> r.warning == warning)
    decreases |tail| - start
  {
    hide EndsSearch, Ending, Concern, TailRun;
    if start + 8 <= |tail| {
      TailNext(tail, start, tailOffset, total, warning, lim);
      var concern := Concern(tail, start, tailOffset, total);
      TailLastWarning(tail, start + 1, tailOffset, total, if concern.Some? then concern else warning, lim);
    } else {
      TailOver(tail, start, tailOffset, total, warning, lim);
    }
  }

  ghost predicate Unconcerned(tail: seq<byte>, start: nat, tailOffset: nat, total: nat)
    requires start >= 4
  {
    forall at :: start <= at && at + 8 <= |tail| ==> Concern(tail, at, tailOffset, total) == None
  }

  ghost predicate LastConcern(tail: seq<byte>, start: nat, at: nat, tailOffset: nat, total: nat)
    requires start >= 4
  {
    start <= at && at + 8 <= |tail| && Concern(tail, at, tailOffset, total).Some?
    && Unconcerned(tail, at + 1, tailOffset, total)
  }

  lemma TailOver(tail: seq<byte>, at: nat, tailOffset: nat, total: nat, warning: Option<Warning>, lim: Limits)
    requires at >= 4 && at + 8 > |tail|
    ensures TailRun(tail, at, tailOffset, total, warning, lim) == TailEnd(None, None, warning)
  {
  }

  // ----- one inspection

  /** The values in the order of their first occurrence. */
  function Distinct<T(==,!new)>(values: seq<T>): (r: seq<T>)
    ensures forall x :: x in r <==> x in values
    ensures forall i, j :: 0 <= i < j < |r| ==> r[i] != r[j]
  {
    if values == [] then []
    else
      var init, last := Distinct(values[..|values| - 1]), values[|values| - 1];
      assert values == values[..|values| - 1] + [last];
      if last in init then init else init + [last]
  }

  method DeduplicateDimensions(values: seq<Size>) returns (r: seq<Size>)
    ensures r == Distinct(values)
  {
    var seen: set<Size> := {};
    r := [];
    for i := 0 to |values|
      invariant r == Distinct(values[..i])
      invariant forall x :: x in seen <==> x in r
    {
      assert values[..i + 1][..i] == values[..i];
      if values[i] !in seen {
        seen := seen + {values[i]};
        r := r + [values[i]];
      }
    }
    assert values[..|values|] == values;
  }

  function ProbeWindowSizes(size: nat, maximum: nat): (r: (nat, nat))
    ensures r.0 <= size && r.1 <= size
  {
    if size <= maximum then (size, size) else (maximum / 2, maximum - maximum / 2)
  }

  /** A file within the bound is read whole; of a longer one two windows that share the bound out between them,
      the first of them the smaller where it is odd. */
  lemma WindowsExactly(size: nat, maximum: nat)
    ensures var (head, tail) := ProbeWindowSizes(size, maximum);
      if size <= maximum then head == tail == size else head + tail == maximum && 0 <= tail - head <= 1
  {
  }

  datatype Inspection = Inspection(recognized: bool, complete: bool, brand: Option<seq<byte>>, moovFound: bool,
    moovParsed: bool, moovAtEnd: Option<bool>, duration: Option<Ratio>, dimensions: seq<Size>, warnings: seq<Warning>)

  /** The movie box an inspection settles on, and the warnings given on the way. */
  datatype Located = Located(brand: Option<seq<byte>>, moov: Option<seq<byte>>, atEnd: Option<bool>,
    warnings: seq<Warning>)

  function Locate(file: seq<byte>, lim: Limits): Located {
    var (headSize, tailSize) := ProbeWindowSizes(|file|, lim.probeBytes);
    var head := HeadRun(file[..headSize], |file|, 0, None, lim);
    var w := if head.partial then [HeadProbeEnded] else [];
    if head.moov.Some? || tailSize == |file| then Located(head.brand, head.moov, None, w)
    else
      var tail := TailRun(file[|file| - tailSize..], 4, |file| - tailSize, |file|, None, lim);
      Located(head.brand, tail.moov, if tail.moov.Some? then tail.atEnd else None,
        if tail.warning.Some? then Warned(FRESH.(warnings := w), tail.warning.value).warnings else w)
  }

  function Unrecognised(): Inspection { Inspection(false, true, None, false, false, None, None, [], []) }

  function Inspected(file: seq<byte>, lim: Limits): Inspection {
    if |file| < 8 then Unrecognised()
    else
      var at := Locate(file, lim);
      var st := FRESH.(warnings := at.warnings);
      if at.moov.None? then
        var w := if at.brand.Some? then Warned(st, MoovNotFound).warnings else st.warnings;
        Inspection(at.brand.Some?, at.brand.None?, at.brand, false, false, None, None, [], w)
      else if |at.moov.value| > lim.maxBoxBytes then
        Inspection(at.brand.Some?, at.brand.None?, at.brand, true, false, at.atEnd, None, [],
          Warned(st, MoovTooLarge).warnings)
      else
        var r := AfterMoov(at.moov.value, st, lim);
        Inspection(at.brand.Some?, at.brand.None? || (r.complete && r.st.warnings == []), at.brand, true, r.complete,
          Some(if at.atEnd.Some? then at.atEnd.value else |at.moov.value| == |file|),
          r.st.duration, Distinct(r.st.sizes), r.st.warnings)
  }

  /** The first half of _inspect_mp4: look for the movie box in the two windows. */
  method FindMoov(head: seq<byte>, tail: seq<byte>, size: nat, limits: Limits, ghost file: seq<byte>)
    returns (brand: Option<seq<byte>>, moov: Option<seq<byte>>, moovAtEnd: Option<bool>, state: Mp4State)
    requires size == |file| && head == file[..ProbeWindowSizes(size, limits.probeBytes).0]
    requires tail == file[size - ProbeWindowSizes(size, limits.probeBytes).1..]
    ensures fresh(state) && state.Value() == FRESH.(warnings := Locate(file, limits).warnings)
    ensures Locate(file, limits) == Located(brand, moov, moovAtEnd, state.warnings)
    ensures moov == None ==> moovAtEnd == None
  {
    hide HeadRun, TailRun;
    var partial;
    brand, moov, partial := ScanHeadTopLevel(head, size, limits);
    moovAtEnd := None;
    state := new Mp4State();
    if partial {
      state.Warn(HeadProbeEnded);
    }
    if moov == None && size - |tail| > 0 {
      var tailMoov, atEnd, warning := FindTailMoov(tail, size - |tail|, size, limits);
      if warning != None {
        state.Warn(warning.value);
      }
      if tailMoov != None {
        moov, moovAtEnd := tailMoov, atEnd;
      }
    }
  }

  /** What a read of some bytes from an offset on returns; None where it raises. */
  type Reader = (nat, nat) -> Option<seq<byte>>

  /** A read that gives all the bytes it was asked for gives those of the file. */
  ghost predicate Reads(read: Reader, file: seq<byte>) {
    forall at: nat, n: nat | at + n <= |file| ::
      read(at, n).Some? && |read(at, n).value| == n ==> read(at, n).value == file[at..at + n]
  }

  function Unread(w: Warning): Inspection { Inspection(false, false, None, false, false, None, None, [], [w]) }

  /** One or two windows are read; a small file is its own tail. */
  function Probed(file: seq<byte>, read: Reader, lim: Limits): Inspection {
    var (h, t) := ProbeWindowSizes(|file|, lim.probeBytes);
    if |file| < 8 then Unrecognised()
    else if read(0, h).None? || (t < |file| && read(|file| - t, t).None?) then Unread(ProbeReadFailed)
    else if |read(0, h).value| != h || (t < |file| && |read(|file| - t, t).value| != t) then Unread(ProbeReadTruncated)
    else Inspected(file, lim)
  }

  predicate FindsNothing(r: Inspection) {
    !r.recognized && r.brand == None && !r.moovFound && !r.moovParsed && r.moovAtEnd == None && r.duration == None
    && r.dimensions == []
  }

  /** Fewer than eight bytes are no such file and nothing is missing; a read that fails or comes back short makes the
      inspection incomplete, and its warning says which. */
  lemma ProbeEndsEarly(file: seq<byte>, read: Reader, lim: Limits)
    ensures var r, whole := Probed(file, read, lim), |file| <= lim.probeBytes;
      var (h, t) := ProbeWindowSizes(|file|, lim.probeBytes);
      && (|file| < 8 ==> FindsNothing(r) && r.complete && r.warnings == [])
      && (|file| >= 8 && (read(0, h).None? || (!whole && read(|file| - t, t).None?)) ==>
        FindsNothing(r) && !r.complete && r.warnings == [ProbeReadFailed])
      && (|file| >= 8 && read(0, h).Some? && |read(0, h).value| != h && (whole || read(|file| - t, t).Some?) ==>
        FindsNothing(r) && !r.complete && r.warnings == [ProbeReadTruncated])
  {
  }

  /** royells_compute_helper.py, _inspect_mp4. */
  method InspectMp4(size: nat, read: Reader, limits: Limits, ghost file: seq<byte>) returns (r: Inspection)
    requires size == |file| && Reads(read, file)
    ensures r == Probed(file, read, limits)
  {
    hide Inspected;
    if size < 8 {
      return Unrecognised();
    }
    var (headSize, tailSize) := ProbeWindowSizes(size, limits.probeBytes);
    var headRead := read(0, headSize);
    if headRead == None {
      return Unread(ProbeReadFailed);
    }
    var tailOffset := size - tailSize;
    var tailRead := if tailOffset == 0 then headRead else read(tailOffset, tailSize);
    if tailRead == None {
      return Unread(ProbeReadFailed);
    }
    var head, tail := headRead.value, tailRead.value;
    if |head| != headSize || |tail| != tailSize {
      return Unread(ProbeReadTruncated);
    }
    assert head == file[..headSize] && tail == file[tailOffset..] by {
      assert file[0..headSize] == file[..headSize] && file[tailOffset..] == file[tailOffset..tailOffset + tailSize];
    }
    r := InspectWindows(head, tail, size, limits, file);
  }

  /** ... once both windows are read. */
  method InspectWindows(head: seq<byte>, tail: seq<byte>, size: nat, limits: Limits, ghost file: seq<byte>)
    returns (r: Inspection)
    requires size == |file| >= 8 && head == file[..ProbeWindowSizes(size, limits.probeBytes).0]
    requires tail == file[size - ProbeWindowSizes(size, limits.probeBytes).1..]
    ensures r == Inspected(file, limits)
  {
    hide Locate, AfterMoov;
    var brand, moov, moovAtEnd, state := FindMoov(head, tail, size, limits, file);
    var recognized := brand != None;
    var moovParsed := false;
    if moov != None {
      if |moov.value| > limits.maxBoxBytes {
        state.Warn(MoovTooLarge);
      } else {
        moovParsed := state.ParseMoov(moov.value, limits);
        if moovAtEnd == None {
          moovAtEnd := Some(|moov.value| == size);
        }
      }
    } else if recognized {
      state.Warn(MoovNotFound);
    }
    var complete := !recognized || (moovParsed && state.warnings == []);
    var dimensions := DeduplicateDimensions(state.videoDimensions);
    r := Inspection(recognized, complete, brand, moov != None, moovParsed, moovAtEnd, state.duration, dimensions,
      state.warnings);
  }
}
