/** Writing a movie box and reading it back: an encoder for mvhd, trak, tkhd, mdia and hdlr boxes with
    other boxes anywhere between them, in 32-bit, 64-bit and to-the-end form. */
module Mp4RoundTrip {
  import opened Prelude
  import opened Mp4Boxes
  import opened Mp4Parser
  import opened Mp4Exact

  function ToBigEndian(n: nat, k: nat): (s: seq<byte>)
    ensures |s| == k
  {
    if k == 0 then [] else ToBigEndian(n / 256, k - 1) + [n % 256]
  }

  function Pow256(k: nat): nat { if k == 0 then 1 else 256 * Pow256(k - 1) }

  lemma {:induction false} BigEndianRoundTrip(n: nat, k: nat)
    requires n < Pow256(k)
    ensures BigEndian(ToBigEndian(n, k)) == n
  {
    if k > 0 {
      BigEndianRoundTrip(n / 256, k - 1);
      var s := ToBigEndian(n, k);
      assert s[..k - 1] == ToBigEndian(n / 256, k - 1);
    }
  }

  // ----- boxes

  /** How the size of a box is written; only the last box of a window may leave it open. */
  datatype Form = Compact | Large | ToEnd

  datatype Item = Item(form: Form, box: Box)

  function EncodeBox(i: Item): seq<byte> {
    var body := i.box.kind + i.box.body;
    match i.form
    case Compact => ToBigEndian(8 + |i.box.body|, 4) + body
    case Large => ToBigEndian(1, 4) + i.box.kind + ToBigEndian(16 + |i.box.body|, 8) + i.box.body
    case ToEnd => ToBigEndian(0, 4) + body
  }

  predicate Encodable(i: Item, last: bool) {
    && |i.box.kind| == 4
    && match i.form
       case Compact => 8 + |i.box.body| < Pow256(4)
       case Large => 16 + |i.box.body| < Pow256(8)
       case ToEnd => last
  }

  function Encode(items: seq<Item>): seq<byte> {
    if items == [] then [] else EncodeBox(items[0]) + Encode(items[1..])
  }

  predicate AllEncodable(items: seq<Item>) {
    forall k :: 0 <= k < |items| ==> Encodable(items[k], k == |items| - 1)
  }

  function Boxes(items: seq<Item>): seq<Box> {
    if items == [] then [] else [items[0].box] + Boxes(items[1..])
  }

  lemma ShortBox(word: seq<byte>, kind: Kind, body: seq<byte>, tail: seq<byte>)
    requires |word| == |kind| == 4
    ensures var s := word + (kind + body) + tail; var n := 8 + |body|;
      s[..4] == word && s[4..8] == kind && s[8..n] == body && s[n..] == tail
  {
  }

  lemma LargeBox(word: seq<byte>, kind: Kind, size: seq<byte>, body: seq<byte>, tail: seq<byte>)
    requires |word| == |kind| == 4 && |size| == 8
    ensures var s := word + kind + size + body + tail; var n := 16 + |body|;
      s[..4] == word && s[4..8] == kind && s[8..16] == size && s[16..n] == body && s[n..] == tail
  {
  }

  /** The header, the payload and the rest are found again. */
  lemma EncodedFirst(i: Item, tail: seq<byte>)
    requires Encodable(i, tail == [])
    ensures var s := EncodeBox(i) + tail; var at := if i.form == Large then 16 else 8;
      FirstBox(s) == Some(Header(|EncodeBox(i)|, at, i.box.kind))
      && s[|EncodeBox(i)|..] == tail && s[at..|EncodeBox(i)|] == i.box.body
  {
    hide ToBigEndian, BigEndian;
    assert Pow256(4) == 0x1_0000_0000 && 1 < Pow256(8);
    var kind, body := i.box.kind, i.box.body;
    var size := if i.form == Compact then 8 + |body| else if i.form == Large then 1 else 0;
    BigEndianRoundTrip(size, 4);
    if i.form == Large {
      BigEndianRoundTrip(16 + |body|, 8);
      LargeBox(ToBigEndian(1, 4), kind, ToBigEndian(16 + |body|, 8), body, tail);
    } else {
      ShortBox(ToBigEndian(size, 4), kind, body, tail);
    }
  }

  /** Any list of boxes, in any mix of forms, tiles its encoding. */
  lemma {:induction false} TileEncoded(items: seq<Item>)
    requires AllEncodable(items)
    ensures Tile(Encode(items)) == Some(Boxes(items))
  {
    if items != [] {
      var tail := Encode(items[1..]);
      var i := items[0];
      TileEncoded(items[1..]);
      if |items| > 1 { EncodedNotEmpty(items[1..]); }
      assert Encodable(i, tail == []);
      EncodedFirst(i, tail);
      TileCons(Encode(items));
    }
  }

  lemma EncodedNotEmpty(items: seq<Item>)
    requires items != []
    ensures Encode(items) != []
  {
  }

  // ----- movies

  datatype MdiaItem =
    | Hdlr(form: Form, intro: seq<byte>, handler: Kind, tail: seq<byte>)
    | MdiaOther(form: Form, box: Box)

  datatype TrakItem =
    | Tkhd(form: Form, version: byte, intro: seq<byte>, width: nat, widthPart: nat, height: nat, heightPart: nat,
      tail: seq<byte>)
    | Mdia(form: Form, items: seq<MdiaItem>)
    | TrakOther(form: Form, box: Box)

  datatype MoovItem =
    | Mvhd(form: Form, version: byte, intro: seq<byte>, ratio: Ratio, tail: seq<byte>)
    | Trak(form: Form, tracks: seq<TrakItem>)
    | MoovOther(form: Form, box: Box)

  function MdiaItems(items: seq<MdiaItem>): seq<Item> {
    if items == [] then []
    else [match items[0]
          case Hdlr(form, intro, handler, tail) => Item(form, Box(Letters("hdlr"), intro + handler + tail))
          case MdiaOther(form, box) => Item(form, box)] + MdiaItems(items[1..])
  }

  /** Versions 0 and 1 of tkhd differ in the width of the fields before the picture size. */
  function TkhdBody(i: TrakItem): seq<byte>
    requires i.Tkhd?
  {
    [i.version] + i.intro + ToBigEndian(i.width * 0x1_0000 + i.widthPart, 4)
      + ToBigEndian(i.height * 0x1_0000 + i.heightPart, 4) + i.tail
  }

  function TrakItems(items: seq<TrakItem>): seq<Item> {
    if items == [] then []
    else [match items[0]
          case Tkhd(form, _, _, _, _, _, _, _) => Item(form, Box(Letters("tkhd"), TkhdBody(items[0])))
          case Mdia(form, children) => Item(form, Box(Letters("mdia"), Encode(MdiaItems(children))))
          case TrakOther(form, box) => Item(form, box)] + TrakItems(items[1..])
  }

  /** Version 1 of mvhd has an eight-byte duration. */
  function MvhdBody(i: MoovItem): seq<byte>
    requires i.Mvhd?
  {
    [i.version] + i.intro + ToBigEndian(i.ratio.timescale, 4)
      + ToBigEndian(i.ratio.duration, if i.version == 0 then 4 else 8) + i.tail
  }

  function MoovItems(items: seq<MoovItem>): seq<Item> {
    if items == [] then []
    else [match items[0]
          case Mvhd(form, _, _, _, _) => Item(form, Box(Letters("mvhd"), MvhdBody(items[0])))
          case Trak(form, children) => Item(form, Box(Letters("trak"), Encode(TrakItems(children))))
          case MoovOther(form, box) => Item(form, box)] + MoovItems(items[1..])
  }

  // ----- which movies can be written

  predicate MdiaItemFits(i: MdiaItem) {
    match i
    case Hdlr(_, intro, handler, _) => |intro| == 8 && |handler| == 4
    case MdiaOther(_, box) => box.kind != Letters("hdlr")
  }

  predicate MdiaFits(items: seq<MdiaItem>) {
    AllEncodable(MdiaItems(items)) && forall i :: i in items ==> MdiaItemFits(i)
  }

  predicate TrakItemFits(i: TrakItem) {
    match i
    case Tkhd(_, version, intro, w, wp, h, hp, _) =>
      version <= 1 && |intro| == (if version == 0 then 75 else 87)
      && w < 0x1_0000 && wp < 0x1_0000 && h < 0x1_0000 && hp < 0x1_0000
    case Mdia(_, items) => MdiaFits(items)
    case TrakOther(_, box) => box.kind != Letters("tkhd") && box.kind != Letters("mdia")
  }

  predicate TracksFit(items: seq<TrakItem>) {
    AllEncodable(TrakItems(items)) && forall i :: i in items ==> TrakItemFits(i)
  }

  predicate MoovItemFits(i: MoovItem) {
    match i
    case Mvhd(_, version, intro, ratio, _) =>
      version <= 1 && |intro| == (if version == 0 then 11 else 19)
      && 0 < ratio.timescale < Pow256(4) && ratio.duration < Pow256(if version == 0 then 4 else 8)
    case Trak(_, items) => TracksFit(items)
    case MoovOther(_, box) => box.kind != Letters("mvhd") && box.kind != Letters("trak")
  }

  /** Every field fits its width, and every box its header. */
  predicate MovieFits(items: seq<MoovItem>) {
    AllEncodable(MoovItems(items)) && forall i :: i in items ==> MoovItemFits(i)
  }

  // ----- what a movie means, read off the movie itself

  function HandlerOf(items: seq<MdiaItem>): Option<Kind> {
    if items == [] then None
    else Later(HandlerOf(items[1..]), if items[0].Hdlr? then Some(items[0].handler) else None)
  }

  function TrackHandler(items: seq<TrakItem>): Option<Kind> {
    if items == [] then None
    else Later(TrackHandler(items[1..]), if items[0].Mdia? then HandlerOf(items[0].items) else None)
  }

  function TrackHeader(items: seq<TrakItem>): Option<TrakItem> {
    if items == [] then None
    else Later(TrackHeader(items[1..]), if items[0].Tkhd? then Some(items[0]) else None)
  }

  /** A video track with a picture of at least one whole pixel each way. */
  function TrackSize(items: seq<TrakItem>): seq<Size> {
    match TrackHeader(items)
    case Some(Tkhd(_, _, _, w, _, h, _, _)) =>
      if TrackHandler(items) == Some(Letters("vide")) && w > 0 && h > 0 then [(w, h)] else []
    case _ => []
  }

  function MovieSizes(items: seq<MoovItem>): seq<Size> {
    if items == [] then []
    else (if items[0].Trak? then TrackSize(items[0].tracks) else []) + MovieSizes(items[1..])
  }

  function MovieRatio(items: seq<MoovItem>): Option<Ratio> {
    if items == [] then None
    else Later(MovieRatio(items[1..]), if items[0].Mvhd? then Some(items[0].ratio) else None)
  }

  function TrackBoxes(items: seq<TrakItem>): nat {
    if items == [] then 0 else 1 + (if items[0].Mdia? then |items[0].items| else 0) + TrackBoxes(items[1..])
  }

  function MovieBoxes(items: seq<MoovItem>): nat {
    if items == [] then 0 else 1 + (if items[0].Trak? then TrackBoxes(items[0].tracks) else 0) + MovieBoxes(items[1..])
  }

  // ----- the reference reads it back

  lemma {:induction false} MdiaRead(items: seq<MdiaItem>)
    requires forall i :: i in items ==> MdiaItemFits(i)
    ensures var bs := Boxes(MdiaItems(items));
      |bs| == |items| && MdiaBoxesClean(bs) && MdiaHandler(bs) == HandlerOf(items)
  {
    hide Letters;
    CodesSpelled();
    if items != [] {
      MdiaRead(items[1..]);
      var bs, rest := Boxes(MdiaItems(items)), Boxes(MdiaItems(items[1..]));
      var i := items[0];
      assert MdiaItemFits(i);
      assert MdiaItems(items)[1..] == MdiaItems(items[1..]);
      assert bs[1..] == rest;
      if i.Hdlr? { assert (i.intro + i.handler + i.tail)[8..12] == i.handler; }
    }
  }

  lemma TkhdRead(i: TrakItem)
    requires i.Tkhd? && TrakItemFits(i)
    ensures TkhdClean(TkhdBody(i))
    ensures TkhdSize(TkhdBody(i)) == if i.width > 0 && i.height > 0 then Some((i.width, i.height)) else None
  {
    var p := TkhdBody(i);
    var at := if i.version == 0 then 76 else 88;
    var w, h := i.width * 0x1_0000 + i.widthPart, i.height * 0x1_0000 + i.heightPart;
    assert Pow256(4) == 0x1_0000_0000;
    BigEndianRoundTrip(w, 4);
    BigEndianRoundTrip(h, 4);
    assert p[at..at + 4] == ToBigEndian(w, 4);
    assert p[at + 4..at + 8] == ToBigEndian(h, 4);
    assert w / 0x1_0000 == i.width && h / 0x1_0000 == i.height;
  }

  lemma {:induction false} TrakRead(items: seq<TrakItem>)
    requires forall i :: i in items ==> TrakItemFits(i)
    ensures var bs := Boxes(TrakItems(items));
      && TrakBoxesClean(bs) && TrakCount(bs) == TrackBoxes(items)
      && TrakHandler(bs) == TrackHandler(items)
      && (LastTkhd(bs).Some? <==> TrackHeader(items).Some?)
      && (TrackHeader(items).Some? ==>
            var i := TrackHeader(items).value;
            i.Tkhd? && TrakItemFits(i) && LastTkhd(bs).value == TkhdSize(TkhdBody(i)))
  {
    hide Letters;
    CodesSpelled();
    if items != [] {
      TrakRead(items[1..]);
      var bs, rest := Boxes(TrakItems(items)), Boxes(TrakItems(items[1..]));
      var i := items[0];
      assert TrakItemFits(i);
      assert TrakItems(items)[1..] == TrakItems(items[1..]);
      assert bs == [bs[0]] + rest;
      if i.Tkhd? {
        TkhdRead(i);
      } else if i.Mdia? {
        TileEncoded(MdiaItems(i.items));
        MdiaRead(i.items);
      }
      assert TrakBoxesClean(bs);
      TrackEndCons(bs[0], rest, Track(None, None, true));
    }
  }

  lemma MvhdRead(i: MoovItem)
    requires i.Mvhd? && MoovItemFits(i)
    ensures MvhdClean(MvhdBody(i)) && MvhdRatio(MvhdBody(i)) == Some(i.ratio)
  {
    var p := MvhdBody(i);
    var at, k := if i.version == 0 then 12 else 20, if i.version == 0 then 4 else 8;
    BigEndianRoundTrip(i.ratio.timescale, 4);
    BigEndianRoundTrip(i.ratio.duration, k);
    assert p[at..at + 4] == ToBigEndian(i.ratio.timescale, 4);
    assert p[at + 4..at + 4 + k] == ToBigEndian(i.ratio.duration, k);
  }

  lemma TrackSizesRead(items: seq<TrakItem>)
    requires TracksFit(items)
    ensures var p := Encode(TrakItems(items));
      TrakClean(p) && TrakCount(Tile(p).value) == TrackBoxes(items) && TrakSizes(Tile(p).value) == TrackSize(items)
  {
    hide Letters;
    CodesSpelled();
    TileEncoded(TrakItems(items));
    TrakRead(items);
    if TrackHeader(items).Some? { TkhdRead(TrackHeader(items).value); }
  }

  lemma {:induction false} MoovRead(items: seq<MoovItem>)
    requires forall i :: i in items ==> MoovItemFits(i)
    ensures var bs := Boxes(MoovItems(items));
      && MoovBoxesClean(bs) && MoovCount(bs) == MovieBoxes(items)
      && MoovRatio(bs) == MovieRatio(items) && MoovSizes(bs) == MovieSizes(items)
  {
    hide Letters;
    CodesSpelled();
    if items != [] {
      MoovRead(items[1..]);
      var bs, rest := Boxes(MoovItems(items)), Boxes(MoovItems(items[1..]));
      var i := items[0];
      assert MoovItemFits(i);
      assert MoovItems(items)[1..] == MoovItems(items[1..]);
      assert bs == [bs[0]] + rest;
      if i.Mvhd? {
        MvhdRead(i);
      } else if i.Trak? {
        TrackSizesRead(i.tracks);
      }
      assert MoovBoxesClean(bs);
      MoovEndCons(bs[0], rest);
    }
  }

  // ----- how deep a movie goes

  predicate HasMdia(items: seq<TrakItem>) { items != [] && (items[0].Mdia? || HasMdia(items[1..])) }

  /** The levels below the movie box that are parsed. */
  function MovieDepth(items: seq<MoovItem>): nat {
    if items == [] then 0
    else
      var rest := MovieDepth(items[1..]);
      var own := if !items[0].Trak? then 0 else if HasMdia(items[0].tracks) then 2 else 1;
      if own > rest then own else rest
  }

  lemma {:induction false} TrakDepth(items: seq<TrakItem>, lim: Limits)
    requires forall i :: i in items ==> TrakItemFits(i)
    ensures TrakFits(Boxes(TrakItems(items)), lim, 1) <==> (HasMdia(items) ==> 2 <= lim.maxDepth)
  {
    hide Letters;
    CodesSpelled();
    if items != [] {
      TrakDepth(items[1..], lim);
      var bs, rest := Boxes(TrakItems(items)), Boxes(TrakItems(items[1..]));
      assert TrakItemFits(items[0]);
      assert TrakItems(items)[1..] == TrakItems(items[1..]);
      assert bs == [bs[0]] + rest;
      assert forall b :: b in bs <==> b == bs[0] || b in rest;
    }
  }

  lemma {:induction false} MoovDepth(items: seq<MoovItem>, lim: Limits)
    requires (forall i :: i in items ==> MoovItemFits(i)) && MoovBoxesClean(Boxes(MoovItems(items)))
    ensures MoovFits(Boxes(MoovItems(items)), lim, 0) <==> MovieDepth(items) <= lim.maxDepth
  {
    CodesSpelled();
    hide Letters, TrakFits, TrakClean, MvhdClean, MvhdBody, TrakBoxesClean;
    if items != [] {
      var bs, rest := Boxes(MoovItems(items)), Boxes(MoovItems(items[1..]));
      var i := items[0];
      assert MoovItemFits(i);
      assert MoovItems(items)[1..] == MoovItems(items[1..]);
      assert bs == [bs[0]] + rest;
      assert forall b :: b in bs <==> b == bs[0] || b in rest;
      MoovDepth(items[1..], lim);
      if i.Trak? {
        TileEncoded(TrakItems(i.tracks));
        TrakDepth(i.tracks, lim);
      }
    }
  }

  function EncodeMovie(form: Form, items: seq<MoovItem>): seq<byte> {
    EncodeBox(Item(form, Box(Letters("moov"), Encode(MoovItems(items)))))
  }

  lemma MovieWritten(form: Form, items: seq<MoovItem>)
    requires Encodable(Item(form, Box(Letters("moov"), Encode(MoovItems(items)))), true)
    ensures IsMoov(EncodeMovie(form, items)) && MoovPayload(EncodeMovie(form, items)) == Encode(MoovItems(items))
  {
    hide Letters, BigEndian, ToBigEndian, Encode, MoovItems;
    CodesSpelled();
    var moov := EncodeMovie(form, items);
    EncodedFirst(Item(form, Box(Letters("moov"), Encode(MoovItems(items)))), []);
    assert moov + [] == moov;
  }

  /** A movie that is written out parses without a warning exactly when it is within the box budget and
      the nesting limit, and then to its own duration ratio and exactly the sizes of its video tracks, in order. */
  lemma MovieRoundTrip(form: Form, items: seq<MoovItem>, lim: Limits)
    requires MovieFits(items) && Encodable(Item(form, Box(Letters("moov"), Encode(MoovItems(items)))), true)
    ensures var r := AfterMoov(EncodeMovie(form, items), FRESH, lim);
      && (r.st.warnings == [] <==> MovieBoxes(items) <= lim.maxBoxes && MovieDepth(items) <= lim.maxDepth)
      && (r.st.warnings == [] ==> r == Ended(true, Scan(MovieBoxes(items), [], MovieRatio(items), MovieSizes(items))))
  {
    hide Letters, IsMoov, MoovPayload, AfterMoov, Tile, Boxes, Encode, MoovItems, EncodeMovie;
    CodesSpelled();
    MovieWritten(form, items);
    TileEncoded(MoovItems(items));
    MoovRead(items);
    MoovDepth(items, lim);
    ParserExact(EncodeMovie(form, items), lim);
  }
}
