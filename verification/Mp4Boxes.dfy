/** ISO base media boxes (ISO/IEC 14496-12, section 4.2) and a reference reading of a movie box that
    has no limits and no state: a payload either is exactly tiled by boxes or has no meaning. */
module Mp4Boxes {
  import opened Prelude

  type byte = b: int | 0 <= b < 256

  /** int.from_bytes(s, "big") */
  function BigEndian(s: seq<byte>): nat {
    if s == [] then 0 else BigEndian(s[..|s| - 1]) * 256 + s[|s| - 1]
  }

  type Kind = seq<byte>

  const FTYP: Kind := [0x66, 0x74, 0x79, 0x70]
  const MDAT: Kind := [0x6D, 0x64, 0x61, 0x74]
  const MOOF: Kind := [0x6D, 0x6F, 0x6F, 0x66]
  const MOOV: Kind := [0x6D, 0x6F, 0x6F, 0x76]
  const MVHD: Kind := [0x6D, 0x76, 0x68, 0x64]
  const TRAK: Kind := [0x74, 0x72, 0x61, 0x6B]
  const TKHD: Kind := [0x74, 0x6B, 0x68, 0x64]
  const MDIA: Kind := [0x6D, 0x64, 0x69, 0x61]
  const HDLR: Kind := [0x68, 0x64, 0x6C, 0x72]
  const VIDE: Kind := [0x76, 0x69, 0x64, 0x65]

  /** A code as it is written in the program text. */
  function Letters(s: string): (r: seq<byte>)
    requires forall i :: 0 <= i < |s| ==> s[i] as int < 256
    ensures |r| == |s|
  {
    seq(|s|, i requires 0 <= i < |s| => s[i] as int)
  }

  lemma CodesSpelled()
    ensures FTYP == Letters("ftyp") && MDAT == Letters("mdat") && MOOF == Letters("moof") && MOOV == Letters("moov")
    ensures MVHD == Letters("mvhd") && TRAK == Letters("trak") && TKHD == Letters("tkhd")
    ensures MDIA == Letters("mdia") && HDLR == Letters("hdlr") && VIDE == Letters("vide")
  {
  }

  datatype Header = Header(size: nat, headerSize: nat, kind: Kind)

  /** The header of the box at the start of a window; size 0 means the box fills the window. */
  function ReadHeader(s: seq<byte>): (h: Option<Header>)
    ensures h.Some? ==> 8 <= h.value.headerSize <= |s|
  {
    if |s| < 8 then None
    else if BigEndian(s[..4]) == 1 then
      if |s| < 16 then None else Some(Header(BigEndian(s[8..16]), 16, s[4..8]))
    else Some(Header(if BigEndian(s[..4]) == 0 then |s| else BigEndian(s[..4]), 8, s[4..8]))
  }

  /** The header, when the box it announces lies inside the window. */
  function FirstBox(s: seq<byte>): (h: Option<Header>)
    ensures h.Some? ==> 8 <= h.value.headerSize <= h.value.size <= |s|
  {
    match ReadHeader(s)
    case None => None
    case Some(h) => if h.headerSize <= h.size <= |s| then Some(h) else None
  }

  datatype Box = Box(kind: Kind, body: seq<byte>)

  /** The boxes that tile s exactly, if there are such boxes. */
  function Tile(s: seq<byte>): Option<seq<Box>> {
    if s == [] then Some([])
    else match FirstBox(s)
      case None => None
      case Some(h) =>
        match Tile(s[h.size..])
        case None => None
        case Some(rest) => Some([Box(h.kind, s[h.headerSize..h.size])] + rest)
  }

  // ----- leaf boxes

  /** A duration as the pair it is stored in; the code divides the two. */
  datatype Ratio = Ratio(duration: nat, timescale: nat)

  type Size = (nat, nat)

  function MvhdRatio(p: seq<byte>): Option<Ratio> {
    if |p| >= 20 && p[0] == 0 then Some(Ratio(BigEndian(p[16..20]), BigEndian(p[12..16])))
    else if |p| >= 32 && p[0] == 1 then Some(Ratio(BigEndian(p[24..32]), BigEndian(p[20..24])))
    else None
  }

  predicate MvhdClean(p: seq<byte>) {
    MvhdRatio(p).Some? && MvhdRatio(p).value.timescale > 0
  }

  predicate TkhdClean(p: seq<byte>) {
    (|p| >= 84 && p[0] == 0) || (|p| >= 96 && p[0] == 1)
  }

  /** Whole pixels of the 16.16 width and height; a track without a picture has none. */
  function TkhdSize(p: seq<byte>): Option<Size>
    requires TkhdClean(p)
  {
    var at := if p[0] == 0 then 76 else 88;
    var w, h := BigEndian(p[at..at + 4]) / 0x1_0000, BigEndian(p[at + 4..at + 8]) / 0x1_0000;
    if w > 0 && h > 0 then Some((w, h)) else None
  }

  predicate HdlrClean(p: seq<byte>) { |p| >= 12 }

  // ----- the reference reading, box list by box list

  predicate MdiaBoxesClean(bs: seq<Box>) {
    forall b :: b in bs && b.kind == HDLR ==> HdlrClean(b.body)
  }

  predicate MdiaClean(p: seq<byte>) {
    Tile(p).Some? && MdiaBoxesClean(Tile(p).value)
  }

  predicate TrakBoxesClean(bs: seq<Box>) {
    forall b :: b in bs ==> (b.kind == TKHD ==> TkhdClean(b.body)) && (b.kind == MDIA ==> MdiaClean(b.body))
  }

  predicate TrakClean(p: seq<byte>) {
    Tile(p).Some? && TrakBoxesClean(Tile(p).value)
  }

  predicate MoovBoxesClean(bs: seq<Box>) {
    forall b :: b in bs ==> (b.kind == MVHD ==> MvhdClean(b.body)) && (b.kind == TRAK ==> TrakClean(b.body))
  }

  /** The payload of a movie box is exactly tiled at all three levels and every leaf in it is readable. */
  predicate MoovClean(p: seq<byte>) {
    Tile(p).Some? && MoovBoxesClean(Tile(p).value)
  }

  function Later<T>(later: Option<T>, earlier: Option<T>): Option<T> {
    if later.Some? then later else earlier
  }

  /** The handler type of the last hdlr box. */
  function MdiaHandler(bs: seq<Box>): Option<Kind>
    requires MdiaBoxesClean(bs)
  {
    if bs == [] then None
    else Later(MdiaHandler(bs[1..]), if bs[0].kind == HDLR then Some(bs[0].body[8..12]) else None)
  }

  function TrakHandler(bs: seq<Box>): Option<Kind>
    requires TrakBoxesClean(bs)
  {
    if bs == [] then None
    else Later(TrakHandler(bs[1..]), if bs[0].kind == MDIA then MdiaHandler(Tile(bs[0].body).value) else None)
  }

  /** What the last tkhd box says: it may say that there is no picture. */
  function LastTkhd(bs: seq<Box>): Option<Option<Size>>
    requires TrakBoxesClean(bs)
  {
    if bs == [] then None
    else Later(LastTkhd(bs[1..]), if bs[0].kind == TKHD then Some(TkhdSize(bs[0].body)) else None)
  }

  /** A track contributes its size when its handler is 'vide' and its header has a picture. */
  function TrakSizes(bs: seq<Box>): seq<Size>
    requires TrakBoxesClean(bs)
  {
    if TrakHandler(bs) == Some(VIDE) && LastTkhd(bs).Some? && LastTkhd(bs).value.Some?
    then [LastTkhd(bs).value.value] else []
  }

  function MoovSizes(bs: seq<Box>): seq<Size>
    requires MoovBoxesClean(bs)
  {
    if bs == [] then []
    else (if bs[0].kind == TRAK then TrakSizes(Tile(bs[0].body).value) else []) + MoovSizes(bs[1..])
  }

  /** The ratio in the last mvhd box. */
  function MoovRatio(bs: seq<Box>): Option<Ratio>
    requires MoovBoxesClean(bs)
  {
    if bs == [] then None
    else Later(MoovRatio(bs[1..]), if bs[0].kind == MVHD then MvhdRatio(bs[0].body) else None)
  }

  // ----- how many boxes a reading visits

  function TrakCount(bs: seq<Box>): nat
    requires TrakBoxesClean(bs)
  {
    if bs == [] then 0
    else 1 + (if bs[0].kind == MDIA then |Tile(bs[0].body).value| else 0) + TrakCount(bs[1..])
  }

  function MoovCount(bs: seq<Box>): nat
    requires MoovBoxesClean(bs)
  {
    if bs == [] then 0
    else 1 + (if bs[0].kind == TRAK then TrakCount(Tile(bs[0].body).value) else 0) + MoovCount(bs[1..])
  }
}
