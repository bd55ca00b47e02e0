/** Whole files, written and read back: what the bounded inspection makes of a written file whose movie box lies
    in the head window, in the tail window, or across the end of the head window. */
module Mp4Files {
  import opened Prelude
  import opened Mp4Boxes
  import opened Mp4Parser
  import opened Mp4Exact
  import opened Mp4RoundTrip
  import opened Mp4TopLevel
  import opened Mp4Agreement
  import opened Mp4Places

  function BoxBrand(b: Box, brand: Option<seq<byte>>): Option<seq<byte>> {
    if b.kind == FTYP && |b.body| >= 4 then SafeBrand(b.body[..4]) else brand
  }

  /** The major brand that some boxes leave behind: that of the last ftyp box with one. */
  function BrandIn(items: seq<Item>, brand: Option<seq<byte>>): Option<seq<byte>> {
    if items == [] then brand else BrandIn(items[1..], BoxBrand(items[0].box, brand))
  }

  predicate NoMovie(items: seq<Item>) { forall i :: i in items ==> i.box.kind != MOOV }

  /** Boxes with other boxes behind them: their sizes are written out. */
  predicate Sized(items: seq<Item>) { forall i :: i in items ==> Encodable(i, false) }

  lemma EncodedBrand(i: Item, tail: seq<byte>, brand: Option<seq<byte>>)
    requires Encodable(i, false)
    ensures var s := EncodeBox(i) + tail;
      FirstBox(s).Some? && BrandAfter(s, FirstBox(s).value, brand) == BoxBrand(i.box, brand)
  {
    hide BigEndian, SafeBrand, EncodeBox;
    EncodedFirst(i, tail);
    var s := EncodeBox(i) + tail;
    var h := FirstBox(s).value;
    if |i.box.body| >= 4 { assert s[h.headerSize..h.headerSize + 4] == s[h.headerSize..h.size][..4]; }
  }

  lemma EncodeCons(i: Item, items: seq<Item>, t: seq<byte>)
    ensures Encode([i] + items) + t == EncodeBox(i) + (Encode(items) + t)
  {
    hide EncodeBox;
    assert ([i] + items)[1..] == items;
  }

  // ----- the head scan over written boxes

  lemma HeadNext(s: seq<byte>, total: nat, boxes: nat, brand: Option<seq<byte>>, lim: Limits)
    requires FirstBox(s).Some? && FirstBox(s).value.kind != MOOV && boxes < lim.maxBoxes && |s| <= total
    ensures var h := FirstBox(s).value;
      HeadRun(s, total, boxes, brand, lim)
        == HeadRun(s[h.size..], total - h.size, boxes + 1, BrandAfter(s, h, brand), lim)
  {
    hide BigEndian, BrandAfter;
  }

  lemma BrandCons(i: Item, items: seq<Item>, brand: Option<seq<byte>>)
    ensures BrandIn([i] + items, brand) == BrandIn(items, BoxBrand(i.box, brand))
  {
    assert ([i] + items)[1..] == items;
  }

  /** Boxes that are no movie box are passed, whatever follows them. */
  lemma {:induction false} HeadSkips(items: seq<Item>, t: seq<byte>, total: nat, boxes: nat, brand: Option<seq<byte>>,
                                     lim: Limits)
    requires Sized(items) && NoMovie(items) && boxes + |items| <= lim.maxBoxes && |Encode(items) + t| <= total
    ensures HeadRun(Encode(items) + t, total, boxes, brand, lim)
      == HeadRun(t, total - |Encode(items)|, boxes + |items|, BrandIn(items, brand), lim)
    decreases |items|
  {
    hide HeadRun, FirstBox, BrandAfter, Encode, EncodeBox, Encodable, BoxBrand, BrandIn;
    if items == [] {
      NothingEncoded(brand);
      assert [] + t == t;
    } else {
      var i, rest := items[0], items[1..];
      assert items == [i] + rest && i in items;
      EncodeCons(i, rest, t);
      EncodeCons(i, rest, []);
      BrandCons(i, rest, brand);
      assert Encode(items) + [] == Encode(items) && Encode(rest) + [] == Encode(rest);
      HeadNextOf(i, Encode(rest) + t, total, boxes, brand, lim);
      HeadSkips(rest, t, total - |EncodeBox(i)|, boxes + 1, BoxBrand(i.box, brand), lim);
    }
  }

  lemma NothingEncoded(brand: Option<seq<byte>>)
    ensures Encode([]) == [] && BrandIn([], brand) == brand
  {
  }

  lemma HeadNextOf(i: Item, tail: seq<byte>, total: nat, boxes: nat, brand: Option<seq<byte>>, lim: Limits)
    requires Encodable(i, false) && i.box.kind != MOOV && boxes < lim.maxBoxes && |EncodeBox(i) + tail| <= total
    ensures HeadRun(EncodeBox(i) + tail, total, boxes, brand, lim)
      == HeadRun(tail, total - |EncodeBox(i)|, boxes + 1, BoxBrand(i.box, brand), lim)
  {
    hide HeadRun, FirstBox, BrandAfter, EncodeBox, BoxBrand, Encodable;
    SizedFirst(i, tail);
    EncodedBrand(i, tail, brand);
    HeadNext(EncodeBox(i) + tail, total, boxes, brand, lim);
  }

  lemma SizedFirst(i: Item, tail: seq<byte>)
    requires Encodable(i, false)
    ensures var s := EncodeBox(i) + tail;
      FirstBox(s).Some? && FirstBox(s).value.size == |EncodeBox(i)| && FirstBox(s).value.kind == i.box.kind
      && s[|EncodeBox(i)|..] == tail && |EncodeBox(i)| >= 8
  {
    hide EncodeBox;
    EncodedFirst(i, tail);
  }

  /** A movie box is taken where the scan comes to it. */
  lemma HeadTakes(i: Item, t: seq<byte>, total: nat, boxes: nat, brand: Option<seq<byte>>, lim: Limits)
    requires Encodable(i, t == []) && i.box.kind == MOOV && boxes < lim.maxBoxes && |EncodeBox(i) + t| <= total
    ensures HeadRun(EncodeBox(i) + t, total, boxes, brand, lim) == HeadEnd(brand, Some(EncodeBox(i)), false)
  {
    hide BigEndian, EncodeBox;
    EncodedFirst(i, t);
    var s := EncodeBox(i) + t;
    assert s[..|EncodeBox(i)|] == EncodeBox(i);
  }

  /** A box that is cut off by the end of the window ends the scan: silently where less than eight bytes of it
      are left, and otherwise as a probe that ended early. */
  lemma HeadCuts(i: Item, n: nat, total: nat, boxes: nat, brand: Option<seq<byte>>, lim: Limits)
    requires Encodable(i, false) && n < |EncodeBox(i)| <= total && boxes < lim.maxBoxes
    ensures HeadRun(EncodeBox(i)[..n], total, boxes, brand, lim) == HeadEnd(brand, None, n >= 8)
  {
    hide BigEndian, EncodeBox, BrandAfter;
    if n >= 8 {
      var s := EncodeBox(i);
      assert s + [] == s;
      EncodedFirst(i, []);
      SizeWritten(i);
      var w := s[..n];
      assert w[..4] == s[..4] && w[4..8] == s[4..8];
      if n >= 16 { assert w[8..16] == s[8..16]; }
    }
  }

  lemma SizeWritten(i: Item)
    requires Encodable(i, false)
    ensures |EncodeBox(i)| >= 8 && BigEndian(EncodeBox(i)[..4]) != 0
  {
    hide ToBigEndian, BigEndian;
    assert Pow256(4) == 0x1_0000_0000;
    var size := if i.form == Compact then 8 + |i.box.body| else 1;
    BigEndianRoundTrip(size, 4);
    assert EncodeBox(i)[..4] == ToBigEndian(size, 4);
  }

  /** The scan stops at its box limit. */
  lemma HeadStops(t: seq<byte>, total: nat, boxes: nat, brand: Option<seq<byte>>, lim: Limits)
    requires boxes >= lim.maxBoxes
    ensures HeadRun(t, total, boxes, brand, lim) == HeadEnd(brand, None, false)
  {
  }

  // ----- taking written files apart

  lemma {:induction false} EncodeConcat(a: seq<Item>, b: seq<Item>)
    ensures Encode(a + b) == Encode(a) + Encode(b)
    decreases |a|
  {
    hide EncodeBox;
    if a == [] {
      assert a + b == b;
    } else {
      assert (a + b)[1..] == a[1..] + b;
      EncodeConcat(a[1..], b);
    }
  }

  lemma EncodeOne(i: Item, rest: seq<Item>)
    ensures Encode([i] + rest) == EncodeBox(i) + Encode(rest) && Encode([i]) == EncodeBox(i)
  {
    hide EncodeBox;
    assert ([i] + rest)[1..] == rest && [i][1..] == [] && Encode([]) == [] && EncodeBox(i) + [] == EncodeBox(i);
  }

  lemma SplitAt<T>(s: seq<T>, k: nat)
    requires k < |s|
    ensures s == s[..k] + ([s[k]] + s[k + 1..]) && s[..k + 1] == s[..k] + [s[k]]
  {
  }

  lemma EncodeAt(items: seq<Item>, k: nat)
    requires k < |items|
    ensures Encode(items) == Encode(items[..k]) + (EncodeBox(items[k]) + Encode(items[k + 1..]))
    ensures Encode(items[..k + 1]) == Encode(items[..k]) + EncodeBox(items[k])
  {
    hide Encode, EncodeBox;
    var i, before, behind := items[k], items[..k], items[k + 1..];
    SplitAt(items, k);
    EncodeConcat(before, [i] + behind);
    EncodeConcat(before, [i]);
    EncodeOne(i, behind);
  }

  lemma BeforeIsSized(items: seq<Item>, k: nat)
    requires AllEncodable(items) && k < |items|
    ensures Sized(items[..k])
  {
    hide Encodable;
    forall i | i in items[..k] ensures Encodable(i, false) {
      var j :| 0 <= j < k && items[..k][j] == i;
      assert items[j] == i;
    }
  }

  // ----- a movie box inside the head window

  function Fewer(a: nat, b: nat): nat { if a < b then a else b }

  /** Within the parser limit, the box budget and the nesting limit. */
  predicate FitsLimits(form: Form, movie: seq<MoovItem>, lim: Limits) {
    && |EncodeMovie(form, movie)| <= lim.maxBoxBytes
    && MovieBoxes(movie) <= lim.maxBoxes && MovieDepth(movie) <= lim.maxDepth
  }

  /** A written file with its movie at box k, and no movie box before it. */
  predicate MovieAt(items: seq<Item>, k: nat, form: Form, movie: seq<MoovItem>) {
    && AllEncodable(items) && k < |items| && NoMovie(items[..k])
    && MovieFits(movie) && items[k] == Item(form, Box(Letters("moov"), Encode(MoovItems(movie))))
  }

  function HeadSize(items: seq<Item>, lim: Limits): nat { ProbeWindowSizes(|Encode(items)|, lim.probeBytes).0 }

  lemma HeadOfFile(items: seq<Item>, k: nat, form: Form, movie: seq<MoovItem>, lim: Limits)
    requires MovieAt(items, k, form, movie)
    requires |Encode(items[..k + 1])| <= HeadSize(items, lim) && (k < lim.maxBoxes || |Encode(items)| <= lim.probeBytes)
    ensures var file := Encode(items);
      HeadRun(Window(file, lim), |file|, 0, None, lim)
        == HeadEnd(BrandIn(items[..Fewer(k, lim.maxBoxes)], None),
             if k < lim.maxBoxes then Some(EncodeMovie(form, movie)) else None, false)
  {
    hide Encode, EncodeBox, MoovItems, HeadRun, BrandIn, Encodable, AllEncodable, MovieFits, NoMovie, Sized;
    var file, w := Encode(items), Window(Encode(items), lim);
    EncodeAt(items, k);
    if k < lim.maxBoxes {
      var pre, m := Encode(items[..k]), EncodeBox(items[k]);
      var t := w[|pre| + |m|..];
      assert w == pre + (m + t);
      LastBehind(items, k, t, w);
      BeforeIsSized(items, k);
      HeadSkips(items[..k], m + t, |file|, 0, None, lim);
      HeadTakes(items[k], t, |file| - |pre|, k, BrandIn(items[..k], None), lim);
    } else {
      LimitReached(items, k, lim);
    }
  }

  /** Nothing stands behind a box whose size is open. */
  lemma LastBehind(items: seq<Item>, k: nat, t: seq<byte>, w: seq<byte>)
    requires AllEncodable(items) && k < |items|
    requires w <= Encode(items) && w == Encode(items[..k]) + (EncodeBox(items[k]) + t)
    ensures Encodable(items[k], t == [])
  {
    hide EncodeBox;
    EncodeAt(items, k);
    assert Encodable(items[k], k == |items| - 1);
    if k == |items| - 1 { assert items[k + 1..] == []; }
  }

  lemma LimitReached(items: seq<Item>, k: nat, lim: Limits)
    requires AllEncodable(items) && lim.maxBoxes <= k < |items| && NoMovie(items[..k])
    requires |Encode(items)| <= lim.probeBytes
    ensures var file := Encode(items);
      HeadRun(Window(file, lim), |file|, 0, None, lim) == HeadEnd(BrandIn(items[..lim.maxBoxes], None), None, false)
  {
    hide Encode, EncodeBox, HeadRun, BrandIn, Encodable;
    var n, file := lim.maxBoxes, Encode(items);
    EncodeConcat(items[..n], items[n..]);
    assert items == items[..n] + items[n..] && file[..|file|] == file;
    BeforeIsSized(items, k);
    FrontOf(items, n, k);
    HeadSkips(items[..n], Encode(items[n..]), |file|, 0, None, lim);
    HeadStops(Encode(items[n..]), |file| - |Encode(items[..n])|, n, BrandIn(items[..n], None), lim);
  }

  lemma MovieParsed(form: Form, movie: seq<MoovItem>, w: seq<Warning>, last: bool, lim: Limits)
    requires MovieFits(movie) && Encodable(Item(form, Box(Letters("moov"), Encode(MoovItems(movie)))), last)
    requires |EncodeMovie(form, movie)| <= lim.maxBoxBytes
    ensures var r := AfterMoov(EncodeMovie(form, movie), With(FRESH, w), lim);
      && (r.st.warnings == [] <==> w == [] && FitsLimits(form, movie, lim))
      && (FitsLimits(form, movie, lim) ==>
            r == Ended(true, Scan(MovieBoxes(movie), w, MovieRatio(movie), MovieSizes(movie))))
  {
    hide AfterMoov, EncodeBox, MoovItems, MovieFits;
    MovieRoundTrip(form, movie, lim);
    ParserFrame(EncodeMovie(form, movie), w, lim);
    assert With(FRESH, []) == FRESH;
  }

  /** A written file whose movie box ends inside the head window, with any boxes before and behind it in any
      forms: the brand is that of its last ftyp box before the movie, and where there is one the file is
      complete exactly when the scan comes as far as the movie and that is within the limits; then duration
      and sizes are the movie's own. */
  lemma FileRoundTrip(items: seq<Item>, k: nat, form: Form, movie: seq<MoovItem>, lim: Limits)
    requires MovieAt(items, k, form, movie)
    requires |Encode(items[..k + 1])| <= HeadSize(items, lim) && (k < lim.maxBoxes || |Encode(items)| <= lim.probeBytes)
    ensures var r := Inspected(Encode(items), lim); var whole := k < lim.maxBoxes && FitsLimits(form, movie, lim);
      && r.brand == BrandIn(items[..Fewer(k, lim.maxBoxes)], None) && r.recognized == r.brand.Some?
      && r.moovFound == (k < lim.maxBoxes)
      && (r.recognized ==> (r.complete <==> whole))
      && (whole ==> r.duration == MovieRatio(movie) && r.dimensions == Distinct(MovieSizes(movie)) && r.warnings == [])
  {
    hide HeadRun, TailRun, AfterMoov, EncodeBox, MoovItems, Distinct, BrandIn, MovieFits, Encodable;
    var file := Encode(items);
    HeadOfFile(items, k, form, movie, lim);
    assert Encodable(items[k], k == |items| - 1);
    MovieIsLong(items, k);
    assert With(FRESH, []) == FRESH;
    if k < lim.maxBoxes && |EncodeMovie(form, movie)| <= lim.maxBoxBytes {
      MovieParsed(form, movie, [], k == |items| - 1, lim);
    }
  }

  lemma MovieIsLong(items: seq<Item>, k: nat)
    requires k < |items|
    requires |items[k].box.kind| == 4
    ensures |Encode(items)| >= |Encode(items[..k])| + 8
  {
    EncodeAt(items, k);
  }

  /** A written file within the probe that ends with its movie box is reported not to, unless it is nothing else. */
  lemma LastMovieNotAtEnd(items: seq<Item>, form: Form, movie: seq<MoovItem>, lim: Limits)
    requires items != [] && MovieAt(items, |items| - 1, form, movie) && |items| <= lim.maxBoxes
    requires |Encode(items)| <= lim.probeBytes && |EncodeMovie(form, movie)| <= lim.maxBoxBytes
    ensures var file, m := Encode(items), EncodeMovie(form, movie);
      && file == Encode(items[..|items| - 1]) + m
      && Inspected(file, lim).moovAtEnd == Some(|items| == 1)
  {
    hide HeadRun, TailRun, AfterMoov, EncodeBox, MoovItems, Distinct, BrandIn, MovieFits, Encodable;
    var k, file := |items| - 1, Encode(items);
    assert items[..k + 1] == items;
    EncodeAt(items, k);
    HeadOfFile(items, k, form, movie, lim);
    assert Encodable(items[k], k == |items| - 1);
    MovieIsLong(items, k);
    BeforeIsLong(items[..k]);
  }

  lemma BeforeIsLong(items: seq<Item>)
    ensures Encode(items) == [] <==> items == []
  {
    if items != [] { EncodedNotEmpty(items); }
  }

  // ----- a movie box behind the head window

  /** How many boxes at the front lie inside a window of n bytes. */
  function HeadBoxes(items: seq<Item>, n: nat): (q: nat)
    ensures q <= |items|
  {
    if items == [] || |EncodeBox(items[0])| > n then 0 else 1 + HeadBoxes(items[1..], n - |EncodeBox(items[0])|)
  }

  lemma {:induction false} HeadBoxesFit(items: seq<Item>, n: nat, k: nat)
    requires k <= |items| && n < |Encode(items[..k])|
    ensures var q := HeadBoxes(items, n); q < k && |Encode(items[..q])| <= n < |Encode(items[..q + 1])|
    decreases k
  {
    hide EncodeBox;
    var i, rest := items[0], items[1..];
    assert items[..k][1..] == rest[..k - 1];
    if |EncodeBox(i)| > n {
      assert items[..0] == [] && items[..1] == [i] && [i][1..] == [];
    } else {
      HeadBoxesFit(rest, n - |EncodeBox(i)|, k - 1);
      var q := HeadBoxes(items, n);
      assert items[..q][1..] == rest[..q - 1] && items[..q + 1][1..] == rest[..q];
    }
  }

  /** The head scan does not come as far as the movie: it ends early where a box that it may still visit is cut
      off with eight or more of its bytes inside the window. */
  lemma HeadBehind(items: seq<Item>, k: nat, lim: Limits)
    requires AllEncodable(items) && k < |items| && NoMovie(items[..k]) && HeadSize(items, lim) < |Encode(items[..k])|
    ensures var file, q := Encode(items), HeadBoxes(items, HeadSize(items, lim));
      && q < k && |Encode(items[..q])| <= HeadSize(items, lim)
      && HeadRun(Window(file, lim), |file|, 0, None, lim)
         == HeadEnd(BrandIn(items[..Fewer(q, lim.maxBoxes)], None), None, EndsEarly(items, lim))
  {
    hide Encode, EncodeBox, HeadRun, BrandIn, Encodable, AllEncodable, HeadBoxes;
    var file, n := Encode(items), HeadSize(items, lim);
    var q := HeadBoxes(items, n);
    HeadBoxesFit(items, n, k);
    var f := Fewer(q, lim.maxBoxes);
    BeforeIsSized(items, k);
    FrontOf(items, f, k);
    var pre, w := Encode(items[..f]), Window(file, lim);
    EncodeAt(items, f);
    EncodeAt(items, q);
    FrontIsShorter(items, f, q);
    var t := w[|pre|..];
    assert w == pre + t;
    HeadSkips(items[..f], t, |file|, 0, None, lim);
    if q < lim.maxBoxes {
      assert t == EncodeBox(items[q])[..n - |pre|];
      assert items[q] in items[..k] by { assert items[..k][q] == items[q]; }
      HeadCuts(items[q], n - |pre|, |file| - |pre|, q, BrandIn(items[..q], None), lim);
    } else {
      HeadStops(t, |file| - |pre|, f, BrandIn(items[..f], None), lim);
    }
  }

  predicate EndsEarly(items: seq<Item>, lim: Limits) {
    var n := HeadSize(items, lim);
    var q := HeadBoxes(items, n);
    q < lim.maxBoxes && n >= |Encode(items[..q])| + 8
  }

  lemma FrontOf(items: seq<Item>, f: nat, k: nat)
    requires f <= k <= |items| && Sized(items[..k]) && NoMovie(items[..k])
    ensures Sized(items[..f]) && NoMovie(items[..f])
  {
    hide Encodable;
    forall i | i in items[..f] ensures i in items[..k] {
      var j :| 0 <= j < f && items[..f][j] == i;
      assert items[..k][j] == i;
    }
  }

  lemma FrontIsShorter(items: seq<Item>, f: nat, q: nat)
    requires f <= q <= |items|
    ensures |Encode(items[..f])| <= |Encode(items[..q])|
  {
    assert items[..q] == items[..f] + items[f..q];
    EncodeConcat(items[..f], items[f..q]);
  }

  /** Boxes that are no movie box are passed by the reference, too. */
  lemma {:induction false} OffsetSkips(items: seq<Item>, t: seq<byte>)
    requires Sized(items) && NoMovie(items)
    ensures FirstMoov(Encode(items) + t) == FirstMoov(t)
    ensures MoovOffset(Encode(items) + t) ==
      if MoovOffset(t).Some? then Some(|Encode(items)| + MoovOffset(t).value) else None
    decreases |items|
  {
    hide FirstBox, EncodeBox, Encodable;
    if items == [] {
      assert Encode(items) + t == t;
    } else {
      var i, rest := items[0], items[1..];
      assert items == [i] + rest && i in items;
      EncodeCons(i, rest, t);
      EncodeCons(i, rest, []);
      SizedFirst(i, Encode(rest) + t);
      OffsetSkips(rest, t);
    }
  }

  /** The movie box of a written file is its own first one. */
  lemma MovieIsFirst(items: seq<Item>, k: nat, form: Form, movie: seq<MoovItem>)
    requires MovieAt(items, k, form, movie)
    ensures MoovOffset(Encode(items)) == Some(|Encode(items[..k])|)
    ensures FirstMoov(Encode(items)) == Some(EncodeMovie(form, movie))
  {
    hide EncodeBox, MoovItems, FirstBox, MovieFits;
    BeforeIsSized(items, k);
    EncodeAt(items, k);
    var m, t := EncodeBox(items[k]), Encode(items[k + 1..]);
    OffsetSkips(items[..k], m + t);
    assert Encodable(items[k], t == []) by { LastBehind(items, k, t, Encode(items)); }
    EncodedFirst(items[k], t);
    assert (m + t)[..|m|] == m;
  }

  /** The tail search ends at the file's own movie box where nothing before it in the tail reads as one; it does
      not look at the last eleven bytes of a file. */
  lemma OwnEndsSearch(file: seq<byte>, lim: Limits)
    requires OwnIsFirstCandidate(file, lim) && MoovOffset(file).value + 12 <= |file|
    ensures var offset, n := TailOffset(file, lim), MoovOffset(file).value;
      && FirstEnd(file[offset..], 4, n - offset + 4, offset, |file|, lim)
      && FirstMoov(file).Some? && CandidateSize(file[offset..], n - offset + 4) == |FirstMoov(file).value|
  {
    hide Candidate, EndsSearch, FirstBox, MoovOffset, FirstMoov, CandidateSize;
    var offset, n := TailOffset(file, lim), MoovOffset(file).value;
    var tail, own := file[offset..], n - offset + 4;
    OffsetIsFirst(file);
    assert tail[own - 4..] == file[n..];
    forall i | 4 <= i <= own ensures EndsSearch(tail, i, offset, |file|, lim) <==> Candidate(tail, i, offset, |file|) {
      CandidateEnds(tail, i, offset, lim);
    }
    CandidateEnds(tail, own, offset, lim);
    OwnBytes(file, offset, own);
  }

  /** So that box is located, unless it is too large. */
  lemma OwnLocated(file: seq<byte>, lim: Limits)
    requires OwnIsFirstCandidate(file, lim) && MoovOffset(file).value + 12 <= |file|
    requires !HeadFound(file, lim) && TailOffset(file, lim) > 0
    ensures FirstMoov(file).Some? && var m := FirstMoov(file).value;
      var head := HeadRun(Window(file, lim), |file|, 0, None, lim);
      var early := if head.partial then [HeadProbeEnded] else [];
      Locate(file, lim) ==
        if |m| <= lim.maxBoxBytes
        then Located(head.brand, Some(m), Some(MoovOffset(file).value + |m| == |file|), early)
        else Located(head.brand, None, None, early + [MoovTooLarge])
  {
    hide HeadRun, TailRun, MoovOffset, FirstMoov, EndsSearch, CandidateSize, OwnIsFirstCandidate, FirstBox;
    OwnInTail(file, lim);
    OwnEndsSearch(file, lim);
    OffsetIsFirst(file);
    var offset, n := TailOffset(file, lim), MoovOffset(file).value;
    var tail, m := file[offset..], FirstMoov(file).value;
    TailIsFirst(tail, 4, offset, |file|, None, lim);
    if |m| <= lim.maxBoxBytes { assert tail[n - offset..n - offset + |m|] == file[n..n + |m|]; }
    assert [] + [MoovTooLarge] == [MoovTooLarge];
  }

  lemma OwnInTail(file: seq<byte>, lim: Limits)
    requires OwnIsFirstCandidate(file, lim)
    ensures MoovOffset(file).value >= TailOffset(file, lim)
  {
  }

  function FrontBrand(items: seq<Item>, lim: Limits): Option<seq<byte>> {
    BrandIn(items[..Fewer(HeadBoxes(items, HeadSize(items, lim)), lim.maxBoxes)], None)
  }

  lemma TailLocated(items: seq<Item>, k: nat, form: Form, movie: seq<MoovItem>, lim: Limits)
    requires MovieAt(items, k, form, movie) && |Encode(items)| > lim.probeBytes
    requires |Encode(items[..k])| + 12 <= |Encode(items)| && OwnIsFirstCandidate(Encode(items), lim)
    ensures var file, m := Encode(items), EncodeMovie(form, movie);
      var early := if EndsEarly(items, lim) then [HeadProbeEnded] else [];
      Locate(file, lim) ==
        if |m| <= lim.maxBoxBytes then Located(FrontBrand(items, lim), Some(m), Some(k == |items| - 1), early)
        else Located(FrontBrand(items, lim), None, None, early + [MoovTooLarge])
  {
    hide EncodeBox, MoovItems, HeadRun, BrandIn, HeadBoxes, EndsEarly, MovieFits, MoovOffset, FirstMoov, Locate,
      OwnIsFirstCandidate, Encodable;
    var file, m := Encode(items), EncodeMovie(form, movie);
    MovieIsFirst(items, k, form, movie);
    OwnInTail(file, lim);
    HeadBehind(items, k, lim);
    OwnLocated(file, lim);
    EncodeAt(items, k);
    BeforeIsLong(items[k + 1..]);
  }

  /** A written file longer than the probe whose movie box begins in the tail window, with nothing before it
      there that reads as a movie box: where it has a brand it is complete exactly when the head scan does not
      end early and the movie is within the limits.  So a box that runs across the end of the head window
      makes the file incomplete, although duration and sizes are the movie's own. */
  lemma TailRoundTrip(items: seq<Item>, k: nat, form: Form, movie: seq<MoovItem>, lim: Limits)
    requires MovieAt(items, k, form, movie) && |Encode(items)| > lim.probeBytes
    requires |Encode(items[..k])| + 12 <= |Encode(items)| && OwnIsFirstCandidate(Encode(items), lim)
    ensures var r := Inspected(Encode(items), lim); var fits := FitsLimits(form, movie, lim);
      && r.brand == FrontBrand(items, lim) && r.recognized == r.brand.Some?
      && (r.recognized ==> (r.complete <==> !EndsEarly(items, lim) && fits))
      && (fits ==>
            && r.moovFound && r.moovAtEnd == Some(k == |items| - 1)
            && r.duration == MovieRatio(movie) && r.dimensions == Distinct(MovieSizes(movie))
            && r.warnings == if EndsEarly(items, lim) then [HeadProbeEnded] else [])
  {
    hide Locate, AfterMoov, EncodeBox, MoovItems, Distinct, FrontBrand, EndsEarly, MovieFits, OwnIsFirstCandidate,
      Encodable;
    TailLocated(items, k, form, movie, lim);
    assert Encodable(items[k], k == |items| - 1);
    if |EncodeMovie(form, movie)| <= lim.maxBoxBytes {
      MovieParsed(form, movie, if EndsEarly(items, lim) then [HeadProbeEnded] else [], k == |items| - 1, lim);
    }
  }

  // ----- a movie box across the end of the head window

  /** A file that ends with a movie box whose size is left open. */
  function OpenFile(pre: seq<Item>, movie: seq<MoovItem>): seq<Item> {
    pre + [Item(ToEnd, Box(Letters("moov"), Encode(MoovItems(movie))))]
  }

  lemma OpenEncoded(pre: seq<Item>, movie: seq<MoovItem>)
    ensures Encode(OpenFile(pre, movie)) == Encode(pre) + EncodeMovie(ToEnd, movie)
  {
    hide EncodeBox, MoovItems;
    var last := Item(ToEnd, Box(Letters("moov"), Encode(MoovItems(movie))));
    EncodeConcat(pre, [last]);
    assert [last][1..] == [] && EncodeBox(last) + [] == EncodeBox(last);
  }

  lemma OpenPrefix(part: seq<MoovItem>, movie: seq<MoovItem>)
    requires Encode(MoovItems(part)) <= Encode(MoovItems(movie))
    ensures EncodeMovie(ToEnd, part) <= EncodeMovie(ToEnd, movie)
  {
    hide MoovItems, ToBigEndian;
  }

  /** The part of such a movie box inside the window is taken for the whole box. */
  lemma OpenLocated(pre: seq<Item>, part: seq<MoovItem>, movie: seq<MoovItem>, lim: Limits)
    requires Sized(pre) && NoMovie(pre) && |pre| < lim.maxBoxes && Encode(MoovItems(part)) <= Encode(MoovItems(movie))
    requires |Encode(OpenFile(pre, part))| == HeadSize(OpenFile(pre, movie), lim)
    ensures Locate(Encode(OpenFile(pre, movie)), lim)
      == Located(BrandIn(pre, None), Some(EncodeMovie(ToEnd, part)), None, [])
  {
    hide HeadRun, EncodeBox, Encode, MoovItems, TailRun, BrandIn, Encodable, OpenFile, EncodeMovie;
    var file, m := Encode(OpenFile(pre, movie)), EncodeMovie(ToEnd, part);
    OpenEncoded(pre, movie);
    OpenEncoded(pre, part);
    OpenPrefix(part, movie);
    assert Window(file, lim) == Encode(pre) + m;
    HeadSkips(pre, m, |file|, 0, None, lim);
    OpenTaken(part, |file| - |Encode(pre)|, |pre|, BrandIn(pre, None), lim);
  }

  lemma OpenTaken(part: seq<MoovItem>, total: nat, boxes: nat, brand: Option<seq<byte>>, lim: Limits)
    requires boxes < lim.maxBoxes && |EncodeMovie(ToEnd, part)| <= total
    ensures HeadRun(EncodeMovie(ToEnd, part), total, boxes, brand, lim)
      == HeadEnd(brand, Some(EncodeMovie(ToEnd, part)), false)
  {
    hide HeadRun, EncodeBox, MoovItems;
    var last := Item(ToEnd, Box(Letters("moov"), Encode(MoovItems(part))));
    OpenIsLast(last);
    assert EncodeBox(last) + [] == EncodeBox(last);
    HeadTakes(last, [], total, boxes, brand, lim);
  }

  /** Where such a movie box runs past the head window and the window ends between two of its boxes, the part
      inside the window is reported as the whole movie, complete and without a warning, exactly when that part
      is within the limits. */
  lemma OpenMoovCutSilently(pre: seq<Item>, part: seq<MoovItem>, movie: seq<MoovItem>, lim: Limits)
    requires Sized(pre) && NoMovie(pre) && |pre| < lim.maxBoxes && BrandIn(pre, None).Some?
    requires MovieFits(part) && Encode(MoovItems(part)) <= Encode(MoovItems(movie))
    requires |Encode(OpenFile(pre, part))| == HeadSize(OpenFile(pre, movie), lim) && |Encode(OpenFile(pre, movie))| >= 8
    ensures var r := Inspected(Encode(OpenFile(pre, movie)), lim);
      && r.recognized && (r.complete <==> FitsLimits(ToEnd, part, lim))
      && (r.complete ==>
            r.warnings == [] && r.duration == MovieRatio(part) && r.dimensions == Distinct(MovieSizes(part)))
  {
    hide Locate, AfterMoov, EncodeBox, Encode, MoovItems, Distinct, BrandIn, MovieFits, Encodable, OpenFile;
    OpenLocated(pre, part, movie, lim);
    OpenIsLast(Item(ToEnd, Box(Letters("moov"), Encode(MoovItems(part)))));
    assert With(FRESH, []) == FRESH;
    if |EncodeMovie(ToEnd, part)| <= lim.maxBoxBytes { MovieParsed(ToEnd, part, [], true, lim); }
  }

  lemma OpenIsLast(i: Item)
    requires i.form == ToEnd && |i.box.kind| == 4
    ensures Encodable(i, true)
  {
  }
}
