/** Where in the file the movie box of an inspection stands, and what the bounded probe makes of that. */
module Mp4Places {
  import opened Prelude
  import opened Mp4Boxes
  import opened Mp4Parser
  import opened Mp4Exact
  import opened Mp4TopLevel
  import opened Mp4Agreement

  /** How many bytes stand before the first moov box of a box sequence. */
  function MoovOffset(s: seq<byte>): (n: Option<nat>)
    ensures n.Some? ==> n.value + 8 <= |s|
    decreases |s|
  {
    match FirstBox(s)
    case None => None
    case Some(h) =>
      if h.kind == MOOV then Some(0)
      else match MoovOffset(s[h.size..])
        case None => None
        case Some(n) => Some(h.size + n)
  }

  /** The first moov box is the box that begins there. */
  lemma {:induction false} OffsetIsFirst(s: seq<byte>)
    ensures MoovOffset(s).Some? <==> FirstMoov(s).Some?
    ensures MoovOffset(s).Some? ==>
      var n := MoovOffset(s).value;
      FirstBox(s[n..]).Some? && FirstBox(s[n..]).value.kind == MOOV
      && FirstMoov(s) == Some(s[n..n + FirstBox(s[n..]).value.size])
    decreases |s|
  {
    hide ReadHeader;
    if FirstBox(s).Some? {
      var h := FirstBox(s).value;
      if h.kind == MOOV {
        assert s[0..] == s && s[0..h.size] == s[..h.size];
      } else {
        var rest := s[h.size..];
        OffsetIsFirst(rest);
        if MoovOffset(rest).Some? {
          var n := MoovOffset(rest).value;
          assert rest[n..] == s[h.size + n..];
          SubSlice(s, h.size, |s|, n, n + FirstBox(rest[n..]).value.size);
          assert s[h.size..|s|] == rest;
        }
      }
    }
  }

  // ----- the movie box of the head scan

  lemma {:induction false} HeadIsFirst(s: seq<byte>, total: nat, boxes: nat, brand: Option<seq<byte>>, lim: Limits)
    requires |s| <= total
    ensures var r := HeadRun(s, total, boxes, brand, lim);
      r.moov.Some? ==> r.moov == FirstMoov(s) && MoovOffset(s).Some? && (r.brand != brand ==> MoovOffset(s).value > 0)
    decreases |s|
  {
    hide BrandAfter, BigEndian;
    var r := HeadRun(s, total, boxes, brand, lim);
    if r.moov.Some? {
      var h := FirstBox(s).value;
      if h.kind != MOOV {
        var brand' := BrandAfter(s, h, brand);
        HeadIsFirst(s[h.size..], total - h.size, boxes + 1, brand', lim);
      }
    }
  }

  function Window(file: seq<byte>, lim: Limits): seq<byte> { file[..ProbeWindowSizes(|file|, lim.probeBytes).0] }

  ghost predicate HeadFound(file: seq<byte>, lim: Limits) {
    HeadRun(Window(file, lim), |file|, 0, None, lim).moov.Some?
  }

  /** Whether the movie box is at the end of the file is answered rightly exactly when the box is the first
      thing in the file or does not end it; in a recognised file the answer is always no. */
  lemma HeadMoovAtEnd(file: seq<byte>, lim: Limits)
    requires |file| >= 8 && HeadFound(file, lim) && |Locate(file, lim).moov.value| <= lim.maxBoxBytes
    ensures var at, m := MoovOffset(Window(file, lim)), Locate(file, lim).moov.value;
      && at.Some? && at.value + |m| <= |file| && m == file[at.value..at.value + |m|]
      && (Inspected(file, lim).moovAtEnd == Some(at.value + |m| == |file|) <==>
        at.value == 0 || at.value + |m| != |file|)
      && (Locate(file, lim).brand.Some? ==> at.value > 0 && Inspected(file, lim).moovAtEnd == Some(false))
  {
    hide HeadRun, TailRun, AfterMoov, Distinct, MoovOffset, FirstMoov;
    var w := Window(file, lim);
    HeadIsFirst(w, |file|, 0, None, lim);
    OffsetIsFirst(w);
    var at, m := MoovOffset(w).value, Locate(file, lim).moov.value;
    assert |m| == FirstBox(w[at..]).value.size <= |w| - at;
    assert w[at..at + |m|] == file[at..at + |m|];
  }

  // ----- the movie box of the tail search

  function TailOffset(file: seq<byte>, lim: Limits): nat { |file| - ProbeWindowSizes(|file|, lim.probeBytes).1 }

  /** The type position at which the tail search finds its box. */
  ghost predicate TailFoundAt(file: seq<byte>, lim: Limits, at: nat) {
    var offset := TailOffset(file, lim);
    && !HeadFound(file, lim) && offset > 0
    && FirstEnd(file[offset..], 4, at, offset, |file|, lim) && CandidateSize(file[offset..], at) <= lim.maxBoxBytes
  }

  /** A movie box is located in the head, or at such a position of the tail, or not at all. */
  lemma LocatedWhere(file: seq<byte>, lim: Limits)
    ensures Locate(file, lim).moov.Some? && !HeadFound(file, lim) ==> exists at :: TailFoundAt(file, lim, at)
    ensures forall at :: TailFoundAt(file, lim, at) ==>
      var start := TailOffset(file, lim) + at - 4; var n := CandidateSize(file[TailOffset(file, lim)..], at);
      start + n <= |file| && Locate(file, lim).moov == Some(file[start..start + n])
  {
    hide HeadRun, TailRun, ReadHeader;
    var offset := TailOffset(file, lim);
    var tail := file[offset..];
    TailIsFirst(tail, 4, offset, |file|, None, lim);
    if Locate(file, lim).moov.Some? && !HeadFound(file, lim) {
      var at := SomeEnd(tail, 4, offset, |file|, lim);
    }
    forall at | TailFoundAt(file, lim, at)
      ensures var start := offset + at - 4; var n := CandidateSize(tail, at);
        start + n <= |file| && Locate(file, lim).moov == Some(file[start..start + n])
    {
      var n := CandidateSize(tail, at);
      assert file[offset..|file|] == tail;
      SubSlice(file, offset, |file|, at - 4, at - 4 + n);
    }
  }

  lemma {:induction false} SomeEnd(tail: seq<byte>, start: nat, tailOffset: nat, total: nat, lim: Limits)
    returns (at: nat)
    requires start >= 4 && !Endless(tail, start, tailOffset, total, lim)
    ensures FirstEnd(tail, start, at, tailOffset, total, lim)
    decreases |tail| - start
  {
    hide EndsSearch;
    if EndsSearch(tail, start, tailOffset, total, lim) {
      at := start;
    } else {
      at := SomeEnd(tail, start + 1, tailOffset, total, lim);
    }
  }

  /** No bytes that read as a moov box stand in the tail before the file's own. */
  ghost predicate OwnIsFirstCandidate(file: seq<byte>, lim: Limits) {
    var offset, tail := TailOffset(file, lim), file[TailOffset(file, lim)..];
    MoovOffset(file).Some? && MoovOffset(file).value >= offset
    && forall i :: 4 <= i < MoovOffset(file).value - offset + 4 && i + 8 <= |tail| ==>
      !Candidate(tail, i, offset, |file|)
  }

  lemma CandidateEnds(tail: seq<byte>, at: nat, tailOffset: nat, lim: Limits)
    requires 4 <= at && at + 8 <= |tail|
    ensures EndsSearch(tail, at, tailOffset, tailOffset + |tail|, lim) <==>
      Candidate(tail, at, tailOffset, tailOffset + |tail|)
    ensures Candidate(tail, at, tailOffset, tailOffset + |tail|) <==>
      FirstBox(tail[at - 4..]).Some? && FirstBox(tail[at - 4..]).value.kind == MOOV
  {
    hide BigEndian;
    assert tail[at - 4..][4..8] == tail[at..at + 4];
  }

  /** The box that the tail search finds is the file's own first movie box exactly when that box begins in the
      tail and nothing before it there reads as one. */
  lemma TailMoovIsOwn(file: seq<byte>, lim: Limits, at: nat)
    requires TailFoundAt(file, lim, at)
    ensures MoovOffset(file) == Some(TailOffset(file, lim) + at - 4) <==> OwnIsFirstCandidate(file, lim)
    ensures MoovOffset(file) == Some(TailOffset(file, lim) + at - 4) ==> Locate(file, lim).moov == FirstMoov(file)
  {
    hide MoovOffset, Candidate, EndsSearch, FirstBox, HeadRun, TailRun, FirstMoov;
    var offset := TailOffset(file, lim);
    var tail := file[offset..];
    forall i | 4 <= i && i + 8 <= |tail|
      ensures EndsSearch(tail, i, offset, |file|, lim) <==> Candidate(tail, i, offset, |file|)
      ensures Candidate(tail, i, offset, |file|) <==>
        FirstBox(tail[i - 4..]).Some? && FirstBox(tail[i - 4..]).value.kind == MOOV
    {
      CandidateEnds(tail, i, offset, lim);
    }
    OffsetIsFirst(file);
    if MoovOffset(file).Some? && MoovOffset(file).value >= offset {
      var n := MoovOffset(file).value;
      var own := n - offset + 4;
      assert file[n..] == tail[own - 4..];
      if own + 8 <= |tail| { assert Candidate(tail, own, offset, |file|); }
      if own == at { assert forall i :: 4 <= i < own ==> !EndsSearch(tail, i, offset, |file|, lim); }
      if own > at { assert Candidate(tail, at, offset, |file|); }
    }
    LocatedWhere(file, lim);
    if MoovOffset(file) == Some(offset + at - 4) { OwnBytes(file, offset, at); }
  }

  lemma OwnBytes(file: seq<byte>, offset: nat, at: nat)
    requires offset <= |file| && 4 <= at && at + 8 <= |file| - offset && FirstBox(file[offset + at - 4..]).Some?
    ensures CandidateSize(file[offset..], at) == FirstBox(file[offset + at - 4..]).value.size
  {
    hide ReadHeader;
    assert file[offset..][at - 4..] == file[offset + at - 4..];
  }

  /** In the head the place is always right, and the box whole unless its size was left open. */
  lemma {:induction false} HeadPlace(s: seq<byte>, n: nat, total: nat, boxes: nat, brand: Option<seq<byte>>,
                                     lim: Limits)
    requires n <= |s| <= total && HeadRun(s[..n], total, boxes, brand, lim).moov.Some?
    ensures MoovOffset(s) == MoovOffset(s[..n])
    decreases |s|
  {
    hide BigEndian, BrandAfter, ReadHeader;
    var w := s[..n];
    HeaderInWindow(s, n);
    var h := FirstBox(w).value;
    if h.kind != MOOV {
      assert h.size < n;
      var brand' := BrandAfter(w, h, brand);
      assert w[h.size..] == s[h.size..][..n - h.size];
      HeadPlace(s[h.size..], n - h.size, total - h.size, boxes + 1, brand', lim);
    }
  }

  /** The movie box of the head scan stands where the file's own first one does, and is that box exactly when
      its size is written out or the window is the whole file. */
  lemma HeadMoovIsOwn(file: seq<byte>, lim: Limits)
    requires HeadFound(file, lim)
    ensures var m := Locate(file, lim).moov.value;
      && MoovOffset(file) == MoovOffset(Window(file, lim)) && |m| >= 8
      && (FirstMoov(file) == Some(m) <==> BigEndian(m[..4]) != 0 || |Window(file, lim)| == |file|)
  {
    hide MoovOffset, HeadRun, TailRun, FirstMoov, BigEndian;
    var n := |Window(file, lim)|;
    HeadInFile(file, n, |file|, 0, None, lim);
    HeadPlace(file, n, |file|, 0, None, lim);
  }

  // ----- when a cut movie box is reported whole

  /** A recognised file whose movie box is found by the head scan is complete exactly when the bytes of that box
      inside the window are within the parser limit and read in full. */
  lemma HeadComplete(file: seq<byte>, lim: Limits)
    requires |file| >= 8 && HeadFound(file, lim) && Locate(file, lim).brand.Some?
    ensures var m := Locate(file, lim).moov.value;
      && IsMoov(m)
      && (Inspected(file, lim).complete <==>
            |m| <= lim.maxBoxBytes && MoovReadable(MoovPayload(m), FRESH, lim, 0))
  {
    hide HeadRun, TailRun, AfterMoov, MoovReadable, Distinct, IsMoov;
    LocatedMoov(file, lim);
    HeadNotPartial(Window(file, lim), |file|, 0, None, lim);
    ParserExact(Locate(file, lim).moov.value, lim);
  }

  lemma {:induction false} HeadNotPartial(s: seq<byte>, total: nat, boxes: nat, brand: Option<seq<byte>>, lim: Limits)
    requires HeadRun(s, total, boxes, brand, lim).moov.Some? && |s| <= total
    ensures !HeadRun(s, total, boxes, brand, lim).partial
    decreases |s|
  {
    hide BigEndian, BrandAfter;
    var h := FirstBox(s).value;
    if h.kind != MOOV {
      HeadNotPartial(s[h.size..], total - h.size, boxes + 1, BrandAfter(s, h, brand), lim);
    }
  }

  /** Such a file is complete although that box is not the whole of the file's own exactly when its size was
      left open, the window ends before the file does, and the part inside it reads in full. */
  lemma CutMovieReported(file: seq<byte>, lim: Limits)
    requires |file| >= 8 && HeadFound(file, lim) && Locate(file, lim).brand.Some?
    ensures var m := Locate(file, lim).moov.value;
      IsMoov(m) && |m| >= 8
      && (Inspected(file, lim).complete && FirstMoov(file) != Some(m) <==>
            && BigEndian(m[..4]) == 0 && |Window(file, lim)| < |file|
            && |m| <= lim.maxBoxBytes && MoovReadable(MoovPayload(m), FRESH, lim, 0))
  {
    hide Locate, HeadRun, FirstMoov, MoovReadable, IsMoov, BigEndian, Inspected, MoovOffset;
    HeadComplete(file, lim);
    HeadMoovIsOwn(file, lim);
  }
}
