/** What a whole inspection promises, and that the probe and the validator agree on the movie box. */
module Mp4Agreement {
  import opened Prelude
  import opened Mp4Boxes
  import opened Mp4Parser
  import opened Mp4Exact
  import opened Mp4TopLevel
  import opened IsoValidator

  /** The bytes of the first moov box of a box sequence. */
  function FirstMoov(s: seq<byte>): Option<seq<byte>>
    decreases |s|
  {
    match FirstBox(s)
    case None => None
    case Some(h) => if h.kind == MOOV then Some(s[..h.size]) else FirstMoov(s[h.size..])
  }

  /** A box cut out of a longer text announces its own length. */
  lemma CutIsMoov(s: seq<byte>)
    requires FirstBox(s).Some? && FirstBox(s).value.kind == MOOV
    ensures IsMoov(s[..FirstBox(s).value.size])
    ensures BigEndian(s[..4]) != 0 || FirstBox(s).value.size == |s|
  {
    hide BigEndian;
    var m := s[..FirstBox(s).value.size];
    assert m[..4] == s[..4] && m[4..8] == s[4..8];
    if |m| >= 16 { assert m[8..16] == s[8..16]; }
  }

  // ----- every inspection

  predicate SliceOf(m: seq<byte>, s: seq<byte>) {
    exists i: nat, j: nat :: i <= j <= |s| && m == s[i..j]
  }

  lemma SliceTrans(m: seq<byte>, s: seq<byte>, i: nat, j: nat)
    requires i <= j <= |s| && SliceOf(m, s[i..j])
    ensures SliceOf(m, s)
  {
    var a: nat, b: nat :| a <= b <= |s[i..j]| && m == s[i..j][a..b];
    SubSlice(s, i, j, a, b);
    assert m == s[i + a..i + b];
  }

  lemma {:induction false} HeadMoov(s: seq<byte>, total: nat, boxes: nat, brand: Option<seq<byte>>, lim: Limits)
    requires |s| <= total
    ensures var r := HeadRun(s, total, boxes, brand, lim);
      r.moov.Some? ==> IsMoov(r.moov.value) && SliceOf(r.moov.value, s) && (r.brand != brand ==> |r.moov.value| < |s|)
    decreases |s|
  {
    hide IsMoov, BrandAfter, BigEndian;
    var r := HeadRun(s, total, boxes, brand, lim);
    if r.moov.Some? {
      var h := FirstBox(s).value;
      if h.kind == MOOV {
        CutIsMoov(s);
        assert s[..h.size] == s[0..h.size];
      } else {
        var brand' := BrandAfter(s, h, brand);
        HeadMoov(s[h.size..], total - h.size, boxes + 1, brand', lim);
        assert s[h.size..] == s[h.size..|s|];
        SliceTrans(r.moov.value, s, h.size, |s|);
      }
    }
  }

  lemma TailCandidate(tail: seq<byte>, at: nat)
    requires 4 <= at && at + 8 <= |tail| && tail[at..at + 4] == MOOV && FirstBox(tail[at - 4..]).Some?
    ensures var m := tail[at - 4..][..FirstBox(tail[at - 4..]).value.size]; IsMoov(m) && SliceOf(m, tail)
  {
    hide IsMoov, BigEndian;
    var s := tail[at - 4..];
    assert tail[at - 4..|tail|] == s;
    SubSlice(tail, at - 4, |tail|, 4, 8);
    CutIsMoov(s);
    var h := FirstBox(s).value;
    assert s[..h.size] == tail[at - 4..at - 4 + h.size];
  }

  lemma {:induction false} TailMoov(tail: seq<byte>, at: nat, tailOffset: nat, total: nat, warning: Option<Warning>,
                                    lim: Limits)
    requires at >= 4
    ensures var r := TailRun(tail, at, tailOffset, total, warning, lim);
      r.moov.Some? ==>
        IsMoov(r.moov.value) && SliceOf(r.moov.value, tail) && |r.moov.value| <= lim.maxBoxBytes && r.atEnd.Some?
    decreases |tail| - at
  {
    hide IsMoov, ReadHeader, SliceOf;
    if at + 8 <= |tail| {
      if tail[at..at + 4] == MOOV && FirstBox(tail[at - 4..]).Some? {
        TailCandidate(tail, at);
      }
      TailMoov(tail, at + 1, tailOffset, total, warning, lim);
      TailMoov(tail, at + 1, tailOffset, total, Some(TruncatedMoovHeader), lim);
      TailMoov(tail, at + 1, tailOffset, total, Some(MalformedMoovSize), lim);
      TailMoov(tail, at + 1, tailOffset, total, Some(MoovOutsideTail), lim);
    }
  }

  lemma LocatedMoov(file: seq<byte>, lim: Limits)
    ensures Locate(file, lim).moov.Some? ==>
      IsMoov(Locate(file, lim).moov.value) && SliceOf(Locate(file, lim).moov.value, file)
  {
    hide HeadRun, TailRun, IsMoov, SliceOf;
    var (headSize, tailSize) := ProbeWindowSizes(|file|, lim.probeBytes);
    HeadMoov(file[..headSize], |file|, 0, None, lim);
    TailMoov(file[|file| - tailSize..], 4, |file| - tailSize, |file|, None, lim);
    var head := HeadRun(file[..headSize], |file|, 0, None, lim);
    if Locate(file, lim).moov.Some? {
      if head.moov.Some? {
        assert file[..headSize] == file[0..headSize];
        SliceTrans(head.moov.value, file, 0, headSize);
      } else {
        assert file[|file| - tailSize..] == file[|file| - tailSize..|file|];
        SliceTrans(Locate(file, lim).moov.value, file, |file| - tailSize, |file|);
      }
    }
  }

  /** A recognised file is reported complete exactly when nothing was warned about, and only after a movie
      box inside the file was read in full; then duration and sizes are the reference's for that box. */
  lemma InspectionIsSound(file: seq<byte>, lim: Limits)
    ensures var r := Inspected(file, lim); var at := Locate(file, lim);
      && (r.recognized ==> (r.complete <==> r.warnings == []))
      && (r.recognized && r.complete ==>
            && at.moov.Some? && IsMoov(at.moov.value) && SliceOf(at.moov.value, file)
              && |at.moov.value| <= lim.maxBoxBytes
            && MoovReadable(MoovPayload(at.moov.value), FRESH, lim, 0)
            && var bs := Tile(MoovPayload(at.moov.value)).value;
               r.duration == MoovRatio(bs) && r.dimensions == Distinct(MoovSizes(bs)))
  {
    hide Locate, MoovRun, IsMoov, MoovReadable, SliceOf, Distinct;
    if |file| >= 8 {
      var at := Locate(file, lim);
      var st := FRESH.(warnings := at.warnings);
      LocatedMoov(file, lim);
      if at.moov.Some? && |at.moov.value| <= lim.maxBoxBytes {
        var m := at.moov.value;
        MoovKeeps(MoovPayload(m), true, st, lim, 0);
        if at.warnings == [] {
          assert st == FRESH;
          ParserExact(m, lim);
        }
      }
    }
  }

  // ----- agreement with the validator

  lemma TileEmpty()
    ensures Tile([]) == Some([]) && Kinds([]) == {}
  {
  }

  lemma TileSome(s: seq<byte>)
    requires s != [] && Tile(s).Some?
    ensures FirstBox(s).Some?
  {
  }

  lemma {:induction false} HeadOfTiled(s: seq<byte>, boxes: nat, brand: Option<seq<byte>>, lim: Limits)
    requires Tile(s).Some? && boxes + |Tile(s).value| <= lim.maxBoxes
    ensures var r := HeadRun(s, |s|, boxes, brand, lim);
      r.moov == FirstMoov(s) && !r.partial && (FirstMoov(s).Some? <==> MOOV in Kinds(Tile(s).value))
    decreases |s|
  {
    hide BigEndian, BrandAfter, Kinds, Tile;
    TileEmpty();
    if s != [] {
      TileSome(s);
      var h := FirstBox(s).value;
      TileCons(s);
      KindsCons(Box(h.kind, s[h.headerSize..h.size]), Tile(s[h.size..]).value);
      if h.kind != MOOV {
        var brand' := BrandAfter(s, h, brand);
        HeadOfTiled(s[h.size..], boxes + 1, brand', lim);
      }
    }
  }

  /** Where the validator says a file is valid and holds a moov, the probe that sees the whole file and may
      visit as many boxes takes exactly the first moov box, and has nothing to warn about before parsing it. */
  lemma ScannersAgree(file: seq<byte>, lim: Limits)
    requires Validated(file).status == Valid
    requires |file| <= lim.probeBytes && lim.maxBoxes >= MAX_BOXES
    ensures Locate(file, lim).moov == FirstMoov(file) && Locate(file, lim).warnings == []
    ensures FirstMoov(file).Some? <==> MOOV in Validated(file).found
    ensures Inspected(file, lim).moovFound <==> MOOV in Validated(file).found
  {
    hide HeadRun, AfterMoov, Validated, Distinct, Tile, Kinds, AllAscii, FirstMoov;
    ValidatedExactly(file);
    HeadOfTiled(file, 0, None, lim);
    assert file[..|file|] == file;
    TileEmpty();
    if file != [] { TileSome(file); }
  }

  // ----- edges of the bounded probe

  /** A header is the same in a window that is cut short, unless the box is open to the end of the window. */
  lemma HeaderInWindow(s: seq<byte>, n: nat)
    requires n <= |s| && FirstBox(s[..n]).Some?
    ensures BigEndian(s[..4]) != 0 || n == |s| ==> FirstBox(s) == FirstBox(s[..n])
    ensures BigEndian(s[..4]) == 0 ==>
      FirstBox(s[..n]) == Some(Header(n, 8, s[4..8])) && FirstBox(s) == Some(Header(|s|, 8, s[4..8]))
  {
    hide BigEndian;
    var w := s[..n];
    assert w[..4] == s[..4] && w[4..8] == s[4..8];
    if n >= 16 { assert w[8..16] == s[8..16]; }
  }

  /** The movie box seen through a head window of n bytes is the file's first movie box exactly when its
      size field is not zero or the window is the whole file. */
  lemma {:induction false} HeadInFile(s: seq<byte>, n: nat, total: nat, boxes: nat, brand: Option<seq<byte>>,
                                      lim: Limits)
    requires n <= |s| <= total
    ensures var r := HeadRun(s[..n], total, boxes, brand, lim);
      r.moov.Some? ==>
        |r.moov.value| >= 8 && (FirstMoov(s) == r.moov <==> BigEndian(r.moov.value[..4]) != 0 || n == |s|)
    decreases |s|
  {
    hide BigEndian, BrandAfter, ReadHeader;
    var w := s[..n];
    var r := HeadRun(w, total, boxes, brand, lim);
    if r.moov.Some? {
      HeaderInWindow(s, n);
      var h := FirstBox(w).value;
      if h.kind == MOOV {
        assert w[..h.size][..4] == s[..4] && w[..h.size] == s[..h.size];
      } else if h.size < n {
        var brand' := BrandAfter(w, h, brand);
        assert w[h.size..] == s[h.size..][..n - h.size];
        HeadInFile(s[h.size..], n - h.size, total - h.size, boxes + 1, brand', lim);
      }
    }
  }
}
