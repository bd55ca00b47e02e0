/** The bounded parser never truncates silently: it ends without a warning exactly on the movie boxes
    the unbounded reference reads in full within the limits, and then it reports what the reference does. */
module Mp4Exact {
  import opened Prelude
  import opened Mp4Boxes
  import opened Mp4Parser

  /** What every loop keeps, whatever the bytes are. */
  ghost predicate Keeps(st: Scan, st': Scan, complete: bool, lim: Limits) {
    && st.warnings <= st'.warnings
    && st.boxCount <= st'.boxCount
    && (st.boxCount <= lim.maxBoxes ==> st'.boxCount <= lim.maxBoxes)
    && st.sizes <= st'.sizes
    && (!complete ==> st'.warnings != [])
  }

  lemma {:induction false} MdiaKeeps(s: seq<byte>, handler: Option<Kind>, st: Scan, lim: Limits)
    ensures var r := MdiaRun(s, handler, st, lim);
      Keeps(st, r.st, r.complete, lim) && r.st.duration == st.duration && r.st.sizes == st.sizes
    decreases |s|
  {
    hide BigEndian, ReadHeader;
    if s != [] && Obstacle(s, st, lim).None? {
      var h := FirstBox(s).value;
      var (found, next) :=
        if h.kind == HDLR then AfterHdlr(s[h.headerSize..h.size], Counted(st)) else (None, Counted(st));
      MdiaKeeps(s[h.size..], Later(found, handler), next, lim);
    }
  }

  lemma {:induction false} TrakKeeps(s: seq<byte>, t: Track, st: Scan, lim: Limits, depth: nat)
    requires !t.complete ==> st.warnings != []
    ensures var r := TrakRun(s, t, st, lim, depth); Keeps(st, r.st, r.complete, lim) && r.st.duration == st.duration
    decreases |s|
  {
    hide BigEndian, ReadHeader, MdiaRun, TkhdSize;
    if s != [] && Obstacle(s, st, lim).None? {
      var h := FirstBox(s).value;
      var body := s[h.headerSize..h.size];
      if h.kind == TKHD {
        var (size, next) := AfterTkhd(body, Counted(st));
        TrakKeeps(s[h.size..], t.(size := size), next, lim, depth);
      } else if h.kind == MDIA {
        var m := AfterMdia(body, Counted(st), lim, depth + 1);
        MdiaKeeps(body, None, Counted(st), lim);
        TrakKeeps(s[h.size..], t.(handler := Later(m.handler, t.handler), complete := t.complete && m.complete), m.st,
          lim, depth);
      } else {
        TrakKeeps(s[h.size..], t, Counted(st), lim, depth);
      }
    }
  }

  lemma {:induction false} MoovKeeps(s: seq<byte>, complete: bool, st: Scan, lim: Limits, depth: nat)
    requires !complete ==> st.warnings != []
    ensures var r := MoovRun(s, complete, st, lim, depth); Keeps(st, r.st, r.complete, lim)
    decreases |s|
  {
    hide BigEndian, ReadHeader, TrakRun, MvhdRatio;
    if s != [] && Obstacle(s, st, lim).None? {
      var h := FirstBox(s).value;
      var body := s[h.headerSize..h.size];
      if h.kind == MVHD {
        MoovKeeps(s[h.size..], complete, AfterMvhd(body, Counted(st)), lim, depth);
      } else if h.kind == TRAK {
        var t := AfterTrak(body, Counted(st), lim, depth + 1);
        TrakKeeps(body, Track(None, None, true), Counted(st), lim, depth + 1);
        MoovKeeps(s[h.size..], complete && t.complete, t.st, lim, depth);
      } else {
        MoovKeeps(s[h.size..], complete, Counted(st), lim, depth);
      }
    }
  }

  // ----- exactness

  lemma TileCons(s: seq<byte>)
    requires FirstBox(s).Some?
    ensures var h := FirstBox(s).value; var rest := s[h.size..];
      (Tile(s).Some? <==> Tile(rest).Some?)
      && (Tile(s).Some? ==> Tile(s).value == [Box(h.kind, s[h.headerSize..h.size])] + Tile(rest).value)
  {
  }

  lemma {:induction false} MdiaExact(s: seq<byte>, handler: Option<Kind>, st: Scan, lim: Limits)
    requires st.warnings == [] && st.boxCount <= lim.maxBoxes
    ensures var r := MdiaRun(s, handler, st, lim);
      && (r.st.warnings == [] <==> MdiaClean(s) && st.boxCount + |Tile(s).value| <= lim.maxBoxes)
      && (r.st.warnings == [] ==>
            r.complete && r.st == st.(boxCount := st.boxCount + |Tile(s).value|)
            && r.handler == Later(MdiaHandler(Tile(s).value), handler))
    decreases |s|
  {
    hide BigEndian, ReadHeader;
    if s != [] && Obstacle(s, st, lim).None? {
      var h := FirstBox(s).value;
      TileCons(s);
      var b := Box(h.kind, s[h.headerSize..h.size]);
      var rest := s[h.size..];
      var (found, next) := if h.kind == HDLR then AfterHdlr(b.body, Counted(st)) else (None, Counted(st));
      if Tile(s).Some? {
        assert forall x :: x in Tile(s).value <==> x == b || x in Tile(rest).value;
        assert Tile(s).value[1..] == Tile(rest).value;
      }
      if next.warnings == [] {
        MdiaExact(rest, Later(found, handler), next, lim);
      } else {
        MdiaKeeps(rest, Later(found, handler), next, lim);
      }
    }
  }

  /** An mdia box is parsed one level below its track. */
  ghost predicate TrakFits(bs: seq<Box>, lim: Limits, depth: nat) {
    forall b :: b in bs && b.kind == MDIA ==> depth + 1 <= lim.maxDepth
  }

  ghost predicate TrakReadable(s: seq<byte>, st: Scan, lim: Limits, depth: nat) {
    TrakClean(s) && st.boxCount + TrakCount(Tile(s).value) <= lim.maxBoxes && TrakFits(Tile(s).value, lim, depth)
  }

  /** The local variables of the track loop at its end, when it started with t. */
  ghost function TrackEnd(bs: seq<Box>, t: Track): Track
    requires TrakBoxesClean(bs)
  {
    Track(if LastTkhd(bs).Some? then LastTkhd(bs).value else t.size, Later(TrakHandler(bs), t.handler), t.complete)
  }

  ghost function SizeOf(t: Track): seq<Size> {
    if t.handler == Some(VIDE) && t.size.Some? then [t.size.value] else []
  }

  ghost predicate TrakAgrees(s: seq<byte>, t: Track, st: Scan, r: Ended)
    requires TrakClean(s)
  {
    r == Ended(true, st.(boxCount := st.boxCount + TrakCount(Tile(s).value),
                         sizes := st.sizes + SizeOf(TrackEnd(Tile(s).value, t))))
  }

  lemma TrakCons(s: seq<byte>, lim: Limits, depth: nat)
    requires FirstBox(s).Some?
    ensures var h := FirstBox(s).value; var b := Box(h.kind, s[h.headerSize..h.size]); var rest := s[h.size..];
      && (TrakClean(s) <==>
        TrakClean(rest) && (b.kind == TKHD ==> TkhdClean(b.body)) && (b.kind == MDIA ==> MdiaClean(b.body)))
      && (TrakClean(s) ==> Tile(s).value == [b] + Tile(rest).value)
      && (TrakClean(s) ==>
            (TrakFits(Tile(s).value, lim, depth) <==>
              TrakFits(Tile(rest).value, lim, depth) && (b.kind == MDIA ==> depth + 1 <= lim.maxDepth)))
  {
    TileCons(s);
    if Tile(s).Some? {
      var rest := Tile(s[FirstBox(s).value.size..]).value;
      assert forall x :: x in Tile(s).value <==> x == Tile(s).value[0] || x in rest;
    }
  }

  lemma TrackEndCons(b: Box, bs: seq<Box>, t: Track)
    requires TrakBoxesClean([b] + bs) && TrakBoxesClean(bs)
    ensures TrakCount([b] + bs) == 1 + (if b.kind == MDIA then |Tile(b.body).value| else 0) + TrakCount(bs)
    ensures TrackEnd([b] + bs, t) == TrackEnd(bs,
      if b.kind == TKHD then t.(size := TkhdSize(b.body))
      else if b.kind == MDIA then t.(handler := Later(MdiaHandler(Tile(b.body).value), t.handler)) else t)
  {
    assert ([b] + bs)[1..] == bs;
    assert b in [b] + bs;
  }

  lemma {:induction false} TrakExact(s: seq<byte>, t: Track, st: Scan, lim: Limits, depth: nat)
    requires st.warnings == [] && st.boxCount <= lim.maxBoxes && t.complete
    ensures var r := TrakRun(s, t, st, lim, depth);
      && (r.st.warnings == [] <==> TrakReadable(s, st, lim, depth))
      && (r.st.warnings == [] ==> TrakAgrees(s, t, st, r))
    decreases |s|
  {
    hide BigEndian, ReadHeader, TkhdClean, TkhdSize, MdiaRun;
    if s != [] && Obstacle(s, st, lim).None? {
      TrakCons(s, lim, depth);
      var h := FirstBox(s).value;
      var b := Box(h.kind, s[h.headerSize..h.size]);
      var rest := s[h.size..];
      if TrakClean(s) { TrackEndCons(b, Tile(rest).value, t); }
      var t', next := t, Counted(st);
      if b.kind == TKHD {
        var (size, after) := AfterTkhd(b.body, next);
        t', next := t.(size := size), after;
      } else if b.kind == MDIA {
        MdiaExact(b.body, None, next, lim);
        MdiaKeeps(b.body, None, next, lim);
        var m := AfterMdia(b.body, next, lim, depth + 1);
        t', next := t.(handler := Later(m.handler, t.handler), complete := m.complete), m.st;
      }
      if next.warnings == [] {
        TrakExact(rest, t', next, lim, depth);
      } else {
        TrakKeeps(rest, t', next, lim, depth);
      }
    }
  }

  ghost predicate MoovFits(bs: seq<Box>, lim: Limits, depth: nat)
    requires MoovBoxesClean(bs)
  {
    forall b :: b in bs && b.kind == TRAK ==> depth + 1 <= lim.maxDepth && TrakFits(Tile(b.body).value, lim, depth + 1)
  }

  /** Tiled and readable throughout, and within the box and nesting limits. */
  ghost predicate MoovReadable(s: seq<byte>, st: Scan, lim: Limits, depth: nat) {
    MoovClean(s) && st.boxCount + MoovCount(Tile(s).value) <= lim.maxBoxes && MoovFits(Tile(s).value, lim, depth)
  }

  ghost predicate MoovAgrees(s: seq<byte>, st: Scan, r: Ended)
    requires MoovClean(s)
  {
    var bs := Tile(s).value;
    r == Ended(true, Scan(st.boxCount + MoovCount(bs), [], Later(MoovRatio(bs), st.duration), st.sizes + MoovSizes(bs)))
  }

  lemma MoovCons(s: seq<byte>, lim: Limits, depth: nat)
    requires FirstBox(s).Some?
    ensures var h := FirstBox(s).value; var b := Box(h.kind, s[h.headerSize..h.size]); var rest := s[h.size..];
      && (MoovClean(s) <==>
        MoovClean(rest) && (b.kind == MVHD ==> MvhdClean(b.body)) && (b.kind == TRAK ==> TrakClean(b.body)))
      && (MoovClean(s) ==> Tile(s).value == [b] + Tile(rest).value)
      && (MoovClean(s) ==>
            (MoovFits(Tile(s).value, lim, depth) <==>
              MoovFits(Tile(rest).value, lim, depth)
              && (b.kind == TRAK ==> depth + 1 <= lim.maxDepth && TrakFits(Tile(b.body).value, lim, depth + 1))))
  {
    TileCons(s);
    if Tile(s).Some? {
      var rest := Tile(s[FirstBox(s).value.size..]).value;
      assert forall x :: x in Tile(s).value <==> x == Tile(s).value[0] || x in rest;
    }
  }

  lemma MoovEndCons(b: Box, bs: seq<Box>)
    requires MoovBoxesClean([b] + bs) && MoovBoxesClean(bs)
    ensures MoovCount([b] + bs) == 1 + (if b.kind == TRAK then TrakCount(Tile(b.body).value) else 0) + MoovCount(bs)
    ensures MoovRatio([b] + bs) == Later(MoovRatio(bs), if b.kind == MVHD then MvhdRatio(b.body) else None)
    ensures MoovSizes([b] + bs) == (if b.kind == TRAK then TrakSizes(Tile(b.body).value) else []) + MoovSizes(bs)
  {
    assert ([b] + bs)[1..] == bs;
    assert b in [b] + bs;
  }

  lemma MvhdExactly(p: seq<byte>, st: Scan)
    ensures AfterMvhd(p, st).boxCount == st.boxCount && AfterMvhd(p, st).sizes == st.sizes
    ensures MvhdClean(p) ==> AfterMvhd(p, st) == st.(duration := MvhdRatio(p)) && MvhdRatio(p).Some?
    ensures !MvhdClean(p) ==> AfterMvhd(p, st).warnings != []
  {
  }

  lemma SizesExactly(bs: seq<Box>)
    requires TrakBoxesClean(bs)
    ensures SizeOf(TrackEnd(bs, Track(None, None, true))) == TrakSizes(bs)
  {
  }

  /** What visiting one child of the movie box does, once it is counted. */
  ghost function AfterChild(b: Box, st: Scan, lim: Limits, depth: nat): Ended {
    if b.kind == MVHD then Ended(true, AfterMvhd(b.body, st))
    else if b.kind == TRAK then AfterTrak(b.body, st, lim, depth + 1)
    else Ended(true, st)
  }

  ghost predicate ChildReadable(b: Box, st: Scan, lim: Limits, depth: nat) {
    && (b.kind == MVHD ==> MvhdClean(b.body))
    && (b.kind == TRAK ==> depth + 1 <= lim.maxDepth && TrakReadable(b.body, st, lim, depth + 1))
  }

  lemma ChildExact(b: Box, st: Scan, lim: Limits, depth: nat)
    requires st.warnings == [] && st.boxCount <= lim.maxBoxes
    ensures var r := AfterChild(b, st, lim, depth);
      && (r.st.warnings == [] <==> ChildReadable(b, st, lim, depth))
      && (r.st.warnings == [] ==>
            r.complete && r.st.boxCount == st.boxCount + (if b.kind == TRAK then TrakCount(Tile(b.body).value) else 0)
            && r.st.duration == Later(if b.kind == MVHD then MvhdRatio(b.body) else None, st.duration)
            && r.st.sizes == st.sizes + (if b.kind == TRAK then TrakSizes(Tile(b.body).value) else []))
      && Keeps(st, r.st, r.complete, lim)
  {
    hide TrakRun, TrakFits, TrakCount, TrackEnd, SizeOf, AfterMvhd, MvhdClean, MvhdRatio;
    if b.kind == MVHD {
      MvhdExactly(b.body, st);
    } else if b.kind == TRAK {
      TrakExact(b.body, Track(None, None, true), st, lim, depth + 1);
      TrakKeeps(b.body, Track(None, None, true), st, lim, depth + 1);
      if TrakClean(b.body) { SizesExactly(Tile(b.body).value); }
    }
  }

  lemma MoovNext(s: seq<byte>, st: Scan, lim: Limits, depth: nat)
    requires s != [] && Obstacle(s, st, lim).None?
    ensures st.boxCount < lim.maxBoxes
    ensures var h := FirstBox(s).value;
      var r := AfterChild(Box(h.kind, s[h.headerSize..h.size]), Counted(st), lim, depth);
      MoovRun(s, true, st, lim, depth) == MoovRun(s[h.size..], r.complete, r.st, lim, depth)
  {
    hide ReadHeader, AfterTrak, AfterMvhd;
  }

  /** At its end a loop warns of nothing; before an obstacle it warns, and there is no reading within the limits. */
  lemma MoovStops(s: seq<byte>, st: Scan, lim: Limits, depth: nat)
    requires st.warnings == [] && st.boxCount <= lim.maxBoxes && (s == [] || Obstacle(s, st, lim).Some?)
    ensures var r := MoovRun(s, true, st, lim, depth);
      && (r.st.warnings == [] <==> MoovReadable(s, st, lim, depth))
      && (r.st.warnings == [] ==> MoovAgrees(s, st, r))
  {
    hide BigEndian, ReadHeader, TrakClean, MvhdClean, MvhdRatio, TrakFits, TrakSizes, TrakCount;
    if s != [] && FirstBox(s).Some? { TileCons(s); }
  }

  /** A box list is readable when its first box is and the rest is from there on. */
  lemma ReadableCons(s: seq<byte>, st: Scan, lim: Limits, depth: nat)
    requires FirstBox(s).Some? && st.warnings == [] && st.boxCount < lim.maxBoxes
    ensures var h := FirstBox(s).value;
      var r := AfterChild(Box(h.kind, s[h.headerSize..h.size]), Counted(st), lim, depth);
      && (r.st.warnings != [] ==> !MoovReadable(s, st, lim, depth))
      && (r.st.warnings == [] ==>
            r.complete && r.st.boxCount <= lim.maxBoxes
            && (MoovReadable(s, st, lim, depth) <==> MoovReadable(s[h.size..], r.st, lim, depth)))
  {
    hide FirstBox, Tile, AfterChild, TrakClean, MvhdClean, MvhdRatio, TrakFits, TrakSizes, TrakCount;
    hide MoovClean, MoovFits, MoovBoxesClean, MoovCount;
    var h := FirstBox(s).value;
    var b, rest := Box(h.kind, s[h.headerSize..h.size]), s[h.size..];
    MoovCons(s, lim, depth);
    ChildExact(b, Counted(st), lim, depth);
    if MoovClean(s) {
      CleanBoxes(s);
      CleanBoxes(rest);
      MoovEndCons(b, Tile(rest).value);
    }
  }

  lemma CleanBoxes(s: seq<byte>)
    requires MoovClean(s)
    ensures Tile(s).Some? && MoovBoxesClean(Tile(s).value)
  {
  }

  /** And then it says what the first box and the rest say. */
  lemma AgreesCons(s: seq<byte>, st: Scan, lim: Limits, depth: nat, end: Ended)
    requires FirstBox(s).Some? && st.warnings == [] && st.boxCount < lim.maxBoxes && MoovClean(s)
    requires var h := FirstBox(s).value;
      var r := AfterChild(Box(h.kind, s[h.headerSize..h.size]), Counted(st), lim, depth);
      r.st.warnings == [] && MoovClean(s[h.size..]) && MoovAgrees(s[h.size..], r.st, end)
    ensures MoovAgrees(s, st, end)
  {
    hide FirstBox, Tile, AfterChild, TrakClean, MvhdClean, MvhdRatio, TrakFits, TrakSizes, TrakCount;
    hide MoovClean, MoovFits, MoovBoxesClean, MoovCount, MoovRatio, MoovSizes;
    var h := FirstBox(s).value;
    var b, rest := Box(h.kind, s[h.headerSize..h.size]), s[h.size..];
    MoovCons(s, lim, depth);
    ChildExact(b, Counted(st), lim, depth);
    CleanBoxes(s);
    CleanBoxes(rest);
    MoovEndCons(b, Tile(rest).value);
    var own := AfterChild(b, Counted(st), lim, depth).st.sizes[|st.sizes|..];
    assert (st.sizes + own) + MoovSizes(Tile(rest).value) == st.sizes + (own + MoovSizes(Tile(rest).value));
  }

  lemma {:induction false} MoovExact(s: seq<byte>, st: Scan, lim: Limits, depth: nat)
    requires st.warnings == [] && st.boxCount <= lim.maxBoxes
    ensures var r := MoovRun(s, true, st, lim, depth);
      && (r.st.warnings == [] <==> MoovReadable(s, st, lim, depth))
      && (r.st.warnings == [] ==> MoovAgrees(s, st, r))
    decreases |s|
  {
    hide MoovRun, FirstBox, Obstacle, AfterChild, MoovClean, MoovFits, MoovCount, MoovAgrees;
    if s == [] || Obstacle(s, st, lim).Some? {
      MoovStops(s, st, lim, depth);
    } else {
      MoovNext(s, st, lim, depth);
      ReadableCons(s, st, lim, depth);
      var h := FirstBox(s).value;
      var rest := s[h.size..];
      var r := AfterChild(Box(h.kind, s[h.headerSize..h.size]), Counted(st), lim, depth);
      if r.st.warnings == [] {
        MoovExact(rest, r.st, lim, depth);
        if MoovReadable(rest, r.st, lim, depth) {
          AgreesCons(s, st, lim, depth, MoovRun(rest, true, r.st, lim, depth));
        }
      } else {
        MoovKeeps(rest, r.complete, r.st, lim, depth);
      }
    }
  }

  const FRESH: Scan := Scan(0, [], None, [])

  /** The whole parser on a movie box: no warning exactly when the reference reads the box within the
      limits, and then the state holds what the reference says.  An incomplete parse always warns. */
  lemma ParserExact(moov: seq<byte>, lim: Limits)
    ensures var r := AfterMoov(moov, FRESH, lim);
      && (r.st.warnings == [] <==> IsMoov(moov) && MoovReadable(MoovPayload(moov), FRESH, lim, 0))
      && (r.st.warnings == [] ==>
            var bs := Tile(MoovPayload(moov)).value;
            r == Ended(true, Scan(MoovCount(bs), [], MoovRatio(bs), MoovSizes(bs))))
      && (!r.complete ==> r.st.warnings != [])
      && r.st.boxCount <= lim.maxBoxes
  {
    if IsMoov(moov) {
      MoovExact(MoovPayload(moov), FRESH, lim, 0);
      MoovKeeps(MoovPayload(moov), true, FRESH, lim, 0);
    }
  }

  // ----- a reading that warns of nothing does not depend on the warnings given before

  function With(st: Scan, w: seq<Warning>): Scan { st.(warnings := w) }

  lemma {:induction false} MdiaFrame(s: seq<byte>, handler: Option<Kind>, st: Scan, w: seq<Warning>, lim: Limits)
    requires st.warnings == [] && MdiaRun(s, handler, st, lim).st.warnings == []
    ensures var r := MdiaRun(s, handler, st, lim);
      MdiaRun(s, handler, With(st, w), lim) == r.(st := With(r.st, w))
    decreases |s|
  {
    hide BigEndian, ReadHeader;
    if s != [] {
      var h := FirstBox(s).value;
      var (found, next) :=
        if h.kind == HDLR then AfterHdlr(s[h.headerSize..h.size], Counted(st)) else (None, Counted(st));
      MdiaKeeps(s[h.size..], Later(found, handler), next, lim);
      MdiaFrame(s[h.size..], Later(found, handler), next, w, lim);
    }
  }

  lemma {:induction false} TrakFrame(s: seq<byte>, t: Track, st: Scan, w: seq<Warning>, lim: Limits, depth: nat)
    requires st.warnings == [] && t.complete && TrakRun(s, t, st, lim, depth).st.warnings == []
    ensures var r := TrakRun(s, t, st, lim, depth);
      TrakRun(s, t, With(st, w), lim, depth) == r.(st := With(r.st, w))
    decreases |s|
  {
    hide BigEndian, ReadHeader, MdiaRun, TkhdSize;
    if s != [] {
      var h := FirstBox(s).value;
      var body, rest := s[h.headerSize..h.size], s[h.size..];
      if h.kind == TKHD {
        var (size, next) := AfterTkhd(body, Counted(st));
        TrakKeeps(rest, t.(size := size), next, lim, depth);
        TrakFrame(rest, t.(size := size), next, w, lim, depth);
      } else if h.kind == MDIA {
        var m := AfterMdia(body, Counted(st), lim, depth + 1);
        var t' := t.(handler := Later(m.handler, t.handler), complete := t.complete && m.complete);
        MdiaKeeps(body, None, Counted(st), lim);
        TrakKeeps(rest, t', m.st, lim, depth);
        MdiaFrame(body, None, Counted(st), w, lim);
        TrakFrame(rest, t', m.st, w, lim, depth);
      } else {
        TrakFrame(rest, t, Counted(st), w, lim, depth);
      }
    }
  }

  lemma {:induction false} MoovFrame(s: seq<byte>, st: Scan, w: seq<Warning>, lim: Limits, depth: nat)
    requires st.warnings == [] && MoovRun(s, true, st, lim, depth).st.warnings == []
    ensures var r := MoovRun(s, true, st, lim, depth);
      MoovRun(s, true, With(st, w), lim, depth) == r.(st := With(r.st, w))
    decreases |s|
  {
    hide BigEndian, ReadHeader, TrakRun, MvhdRatio;
    if s != [] {
      var h := FirstBox(s).value;
      var body, rest := s[h.headerSize..h.size], s[h.size..];
      if h.kind == MVHD {
        MoovKeeps(rest, true, AfterMvhd(body, Counted(st)), lim, depth);
        MoovFrame(rest, AfterMvhd(body, Counted(st)), w, lim, depth);
      } else if h.kind == TRAK {
        var t := AfterTrak(body, Counted(st), lim, depth + 1);
        TrakKeeps(body, Track(None, None, true), Counted(st), lim, depth + 1);
        MoovKeeps(rest, t.complete, t.st, lim, depth);
        TrakFrame(body, Track(None, None, true), Counted(st), w, lim, depth + 1);
        MoovFrame(rest, t.st, w, lim, depth);
      } else {
        MoovFrame(rest, Counted(st), w, lim, depth);
      }
    }
  }

  /** Whatever was warned about before, a movie box that is read without a warning gives the same state, and one
      that is not leaves a warning. */
  lemma ParserFrame(moov: seq<byte>, w: seq<Warning>, lim: Limits)
    ensures var r := AfterMoov(moov, FRESH, lim); var r' := AfterMoov(moov, With(FRESH, w), lim);
      && (r.st.warnings == [] ==> r' == r.(st := With(r.st, w)))
      && (w != [] ==> r'.st.warnings != [])
  {
    if IsMoov(moov) {
      if AfterMoov(moov, FRESH, lim).st.warnings == [] { MoovFrame(MoovPayload(moov), FRESH, w, lim, 0); }
      MoovKeeps(MoovPayload(moov), true, With(FRESH, w), lim, 0);
    }
  }
}
