/** The bounded movie-box parser of royells_compute_helper.py: three nested loops over one shared
    state object, each proved to compute a function of the bytes inside its own window. */
module Mp4Parser {
  import opened Prelude
  import opened Mp4Boxes

  datatype Warning =
    | NestingLimit | BoxCountLimit | TruncatedHeader | MalformedSize | MalformedMoov
    | TruncatedMvhd | UnsupportedMvhd | InvalidTimescale | TruncatedTkhd | TruncatedHdlr
    | HeadProbeEnded | TruncatedMoovHeader | MalformedMoovSize | MoovTooLarge | MoovOutsideTail | MoovNotFound
    | ProbeReadFailed | ProbeReadTruncated

  datatype LimitValues = Limits(maxBoxes: nat, maxDepth: nat, probeBytes: nat, maxBoxBytes: nat)

  /** HelperLimits refuses anything else. */
  type Limits = l: LimitValues | l.maxBoxes > 0 && l.maxDepth > 0 && 0 < l.maxBoxBytes <= l.probeBytes
    witness Limits(1, 1, 1, 1)

  /** The value of the parser's state object. */
  datatype Scan = Scan(boxCount: nat, warnings: seq<Warning>, duration: Option<Ratio>, sizes: seq<Size>)

  function Warned(st: Scan, w: Warning): Scan {
    if w in st.warnings then st else st.(warnings := st.warnings + [w])
  }

  // ----- what the methods below compute

  function AfterMvhd(p: seq<byte>, st: Scan): Scan {
    if |p| < 20 || (p[0] == 1 && |p| < 32) then Warned(st, TruncatedMvhd)
    else if p[0] > 1 then Warned(st, UnsupportedMvhd)
    else if MvhdRatio(p).value.timescale == 0 then Warned(st, InvalidTimescale)
    else st.(duration := MvhdRatio(p))
  }

  function AfterTkhd(p: seq<byte>, st: Scan): (Option<Size>, Scan) {
    if TkhdClean(p) then (TkhdSize(p), st) else (None, Warned(st, TruncatedTkhd))
  }

  function AfterHdlr(p: seq<byte>, st: Scan): (Option<Kind>, Scan) {
    if HdlrClean(p) then (Some(p[8..12]), st) else (None, Warned(st, TruncatedHdlr))
  }

  /** Why a loop standing before the window s cannot visit another box. */
  function Obstacle(s: seq<byte>, st: Scan, lim: Limits): (w: Option<Warning>)
    ensures w.None? ==> FirstBox(s).Some? && st.boxCount < lim.maxBoxes
  {
    if st.boxCount >= lim.maxBoxes then Some(BoxCountLimit)
    else match ReadHeader(s)
      case None => Some(TruncatedHeader)
      case Some(h) => if h.size < h.headerSize || h.size > |s| then Some(MalformedSize) else None
  }

  function Counted(st: Scan): Scan { st.(boxCount := st.boxCount + 1) }

  datatype MdiaEnd = MdiaEnd(handler: Option<Kind>, complete: bool, st: Scan)

  function MdiaRun(s: seq<byte>, handler: Option<Kind>, st: Scan, lim: Limits): MdiaEnd
    decreases |s|
  {
    if s == [] then MdiaEnd(handler, true, st)
    else if Obstacle(s, st, lim).Some? then MdiaEnd(handler, false, Warned(st, Obstacle(s, st, lim).value))
    else
      var h := FirstBox(s).value;
      var (found, next) :=
        if h.kind == HDLR then AfterHdlr(s[h.headerSize..h.size], Counted(st)) else (None, Counted(st));
      MdiaRun(s[h.size..], Later(found, handler), next, lim)
  }

  function AfterMdia(s: seq<byte>, st: Scan, lim: Limits, depth: nat): MdiaEnd {
    if depth > lim.maxDepth then MdiaEnd(None, false, Warned(st, NestingLimit)) else MdiaRun(s, None, st, lim)
  }

  /** The local variables of the track loop. */
  datatype Track = Track(size: Option<Size>, handler: Option<Kind>, complete: bool)

  datatype Ended = Ended(complete: bool, st: Scan)

  function TrakRun(s: seq<byte>, t: Track, st: Scan, lim: Limits, depth: nat): Ended
    decreases |s|
  {
    if s == [] then
      Ended(t.complete, if t.handler == Some(VIDE) && t.size.Some? then st.(sizes := st.sizes + [t.size.value]) else st)
    else if Obstacle(s, st, lim).Some? then Ended(false, Warned(st, Obstacle(s, st, lim).value))
    else
      var h := FirstBox(s).value;
      var body := s[h.headerSize..h.size];
      if h.kind == TKHD then
        var (size, next) := AfterTkhd(body, Counted(st));
        TrakRun(s[h.size..], t.(size := size), next, lim, depth)
      else if h.kind == MDIA then
        var m := AfterMdia(body, Counted(st), lim, depth + 1);
        TrakRun(s[h.size..], t.(handler := Later(m.handler, t.handler), complete := t.complete && m.complete), m.st,
          lim, depth)
      else TrakRun(s[h.size..], t, Counted(st), lim, depth)
  }

  function AfterTrak(s: seq<byte>, st: Scan, lim: Limits, depth: nat): Ended {
    if depth > lim.maxDepth then Ended(false, Warned(st, NestingLimit))
    else TrakRun(s, Track(None, None, true), st, lim, depth)
  }

  function MoovRun(s: seq<byte>, complete: bool, st: Scan, lim: Limits, depth: nat): Ended
    decreases |s|
  {
    if s == [] then Ended(complete, st)
    else if Obstacle(s, st, lim).Some? then Ended(false, Warned(st, Obstacle(s, st, lim).value))
    else
      var h := FirstBox(s).value;
      var body := s[h.headerSize..h.size];
      if h.kind == MVHD then MoovRun(s[h.size..], complete, AfterMvhd(body, Counted(st)), lim, depth)
      else if h.kind == TRAK then
        var t := AfterTrak(body, Counted(st), lim, depth + 1);
        MoovRun(s[h.size..], complete && t.complete, t.st, lim, depth)
      else MoovRun(s[h.size..], complete, Counted(st), lim, depth)
  }

  /** A byte string is a movie box when its own header says so and measures exactly the string. */
  predicate IsMoov(moov: seq<byte>) {
    ReadHeader(moov).Some? && ReadHeader(moov).value.kind == MOOV && ReadHeader(moov).value.size == |moov|
  }

  function MoovPayload(moov: seq<byte>): seq<byte>
    requires IsMoov(moov)
  {
    moov[ReadHeader(moov).value.headerSize..]
  }

  function AfterMoov(moov: seq<byte>, st: Scan, lim: Limits): Ended {
    if IsMoov(moov) then MoovRun(MoovPayload(moov), true, st, lim, 0) else Ended(false, Warned(st, MalformedMoov))
  }

  // ----- the parser

  /** royells_compute_helper.py, _box_header, for a window that ends inside the data. */
  function BoxHeader(data: seq<byte>, offset: int, end: nat): (h: Option<Header>)
    requires end <= |data|
    ensures 0 <= offset <= end ==> h == ReadHeader(data[offset..end])
  {
    if offset < 0 || offset + 8 > end then None
    else
      var size := BigEndian(data[offset..offset + 4]);
      var kind := data[offset + 4..offset + 8];
      SubSlice(data, offset, end, 0, 4);
      SubSlice(data, offset, end, 4, 8);
      if size == 1 then
        if offset + 16 > end then None
        else
          SubSlice(data, offset, end, 8, 16);
          Some(Header(BigEndian(data[offset + 8..offset + 16]), 16, kind))
      else if size == 0 then Some(Header(end - offset, 8, kind))
      else Some(Header(size, 8, kind))
  }

  lemma SubSlice(data: seq<byte>, offset: nat, end: nat, i: nat, j: nat)
    requires offset <= end <= |data| && i <= j <= end - offset
    ensures data[offset..end][i..j] == data[offset + i..offset + j]
  {
    var a, b := data[offset..end][i..j], data[offset + i..offset + j];
    assert |a| == |b|;
    assert forall k :: 0 <= k < j - i ==> a[k] == data[offset + i + k] && b[k] == data[offset + i + k];
  }

  lemma Windows(data: seq<byte>, position: nat, end: nat, h: Header)
    requires position < end <= |data| && h.headerSize <= h.size <= end - position
    ensures var s := data[position..end];
      s[h.headerSize..h.size] == data[position + h.headerSize..position + h.size]
        && s[h.size..] == data[position + h.size..end]
  {
    SubSlice(data, position, end, h.headerSize, h.size);
    SubSlice(data, position, end, h.size, end - position);
    assert data[position..end][h.size..] == data[position..end][h.size..end - position];
  }

  class Mp4State {
    var boxCount: nat
    var warnings: seq<Warning>
    var duration: Option<Ratio>
    var videoDimensions: seq<Size>

    function Value(): Scan
      reads this
    {
      Scan(boxCount, warnings, duration, videoDimensions)
    }

    constructor ()
      ensures Value() == Scan(0, [], None, [])
    {
      boxCount, warnings, duration, videoDimensions := 0, [], None, [];
    }

    method Warn(code: Warning)
      modifies this`warnings
      ensures Value() == Warned(old(Value()), code)
    {
      if code !in warnings {
        warnings := warnings + [code];
      }
    }

    method ParseMvhd(payload: seq<byte>)
      modifies this
      ensures Value() == AfterMvhd(payload, old(Value()))
    {
      if |payload| < 20 {
        Warn(TruncatedMvhd);
        return;
      }
      var timescale, length;
      if payload[0] == 0 {
        timescale, length := BigEndian(payload[12..16]), BigEndian(payload[16..20]);
      } else if payload[0] == 1 {
        if |payload| < 32 {
          Warn(TruncatedMvhd);
          return;
        }
        timescale, length := BigEndian(payload[20..24]), BigEndian(payload[24..32]);
      } else {
        Warn(UnsupportedMvhd);
        return;
      }
      if timescale <= 0 {
        Warn(InvalidTimescale);
        return;
      }
      duration := Some(Ratio(length, timescale));
    }

    method ParseTkhd(payload: seq<byte>) returns (r: Option<Size>)
      modifies this
      ensures (r, Value()) == AfterTkhd(payload, old(Value()))
    {
      if payload == [] || payload[0] > 1 {
        Warn(TruncatedTkhd);
        return None;
      }
      var at := if payload[0] == 0 then 76 else 88;
      if |payload| < at + 8 {
        Warn(TruncatedTkhd);
        return None;
      }
      var width := BigEndian(payload[at..at + 4]) / 0x1_0000;
      var height := BigEndian(payload[at + 4..at + 8]) / 0x1_0000;
      return if width <= 0 || height <= 0 then None else Some((width, height));
    }

    method ParseHdlr(payload: seq<byte>) returns (r: Option<Kind>)
      modifies this
      ensures (r, Value()) == AfterHdlr(payload, old(Value()))
    {
      if |payload| < 12 {
        Warn(TruncatedHdlr);
        return None;
      }
      return Some(payload[8..12]);
    }

    method ParseMdiaHandler(data: seq<byte>, start: nat, end: nat, limits: Limits, depth: nat)
      returns (handler: Option<Kind>, complete: bool)
      requires start <= end <= |data|
      modifies this
      ensures MdiaEnd(handler, complete, Value()) == AfterMdia(data[start..end], old(Value()), limits, depth)
    {
      hide ReadHeader, AfterHdlr;
      if depth > limits.maxDepth {
        Warn(NestingLimit);
        return None, false;
      }
      var position := start;
      handler := None;
      while position < end
        invariant start <= position <= end
        invariant MdiaRun(data[position..end], handler, Value(), limits)
          == AfterMdia(data[start..end], old(Value()), limits, depth)
      {
        if boxCount >= limits.maxBoxes {
          Warn(BoxCountLimit);
          return handler, false;
        }
        var header := BoxHeader(data, position, end);
        if header == None {
          Warn(TruncatedHeader);
          return handler, false;
        }
        var h := header.value;
        if h.size < h.headerSize || position + h.size > end {
          Warn(MalformedSize);
          return handler, false;
        }
        boxCount := boxCount + 1;
        Windows(data, position, end, h);
        if h.kind == HDLR {
          var found := ParseHdlr(data[position + h.headerSize..position + h.size]);
          handler := if found.Some? then found else handler;
        }
        position := position + h.size;
      }
      return handler, true;
    }

    method ParseTrak(data: seq<byte>, start: nat, end: nat, limits: Limits, depth: nat) returns (complete: bool)
      requires start <= end <= |data|
      modifies this
      ensures Ended(complete, Value()) == AfterTrak(data[start..end], old(Value()), limits, depth)
    {
      hide ReadHeader, AfterTkhd, AfterMdia;
      if depth > limits.maxDepth {
        Warn(NestingLimit);
        return false;
      }
      var position := start;
      var dimensions: Option<Size> := None;
      var handler: Option<Kind> := None;
      complete := true;
      while position < end
        invariant start <= position <= end
        invariant TrakRun(data[position..end], Track(dimensions, handler, complete), Value(), limits, depth)
               == AfterTrak(data[start..end], old(Value()), limits, depth)
      {
        if boxCount >= limits.maxBoxes {
          Warn(BoxCountLimit);
          return false;
        }
        var header := BoxHeader(data, position, end);
        if header == None {
          Warn(TruncatedHeader);
          return false;
        }
        var h := header.value;
        if h.size < h.headerSize || position + h.size > end {
          Warn(MalformedSize);
          return false;
        }
        boxCount := boxCount + 1;
        Windows(data, position, end, h);
        if h.kind == TKHD {
          dimensions := ParseTkhd(data[position + h.headerSize..position + h.size]);
        } else if h.kind == MDIA {
          var found, parsed := ParseMdiaHandler(data, position + h.headerSize, position + h.size, limits, depth + 1);
          handler := if found.Some? then found else handler;
          complete := complete && parsed;
        }
        position := position + h.size;
      }
      if handler == Some(VIDE) && dimensions != None {
        videoDimensions := videoDimensions + [dimensions.value];
      }
    }

    method ParseMoovChildren(data: seq<byte>, start: nat, end: nat, limits: Limits, depth: nat) returns (complete: bool)
      requires start <= end <= |data|
      modifies this
      ensures Ended(complete, Value())
           == if depth > limits.maxDepth then Ended(false, Warned(old(Value()), NestingLimit))
              else MoovRun(data[start..end], true, old(Value()), limits, depth)
    {
      hide ReadHeader, AfterMvhd, AfterTrak;
      if depth > limits.maxDepth {
        Warn(NestingLimit);
        return false;
      }
      complete := true;
      var position := start;
      while position < end
        invariant start <= position <= end
        invariant MoovRun(data[position..end], complete, Value(), limits, depth)
               == MoovRun(data[start..end], true, old(Value()), limits, depth)
      {
        if boxCount >= limits.maxBoxes {
          Warn(BoxCountLimit);
          return false;
        }
        var header := BoxHeader(data, position, end);
        if header == None {
          Warn(TruncatedHeader);
          return false;
        }
        var h := header.value;
        if h.size < h.headerSize || position + h.size > end {
          Warn(MalformedSize);
          return false;
        }
        boxCount := boxCount + 1;
        Windows(data, position, end, h);
        if h.kind == MVHD {
          ParseMvhd(data[position + h.headerSize..position + h.size]);
        } else if h.kind == TRAK {
          var parsed := ParseTrak(data, position + h.headerSize, position + h.size, limits, depth + 1);
          if !parsed {
            complete := false;
          }
        }
        position := position + h.size;
      }
    }

    method ParseMoov(moov: seq<byte>, limits: Limits) returns (complete: bool)
      modifies this
      ensures Ended(complete, Value()) == AfterMoov(moov, old(Value()), limits)
    {
      var header := BoxHeader(moov, 0, |moov|);
      assert moov[0..|moov|] == moov;
      if header == None || header.value.kind != MOOV || header.value.size != |moov| {
        Warn(MalformedMoov);
        return false;
      }
      complete := ParseMoovChildren(moov, header.value.headerSize, |moov|, limits, 0);
      assert moov[header.value.headerSize..|moov|] == MoovPayload(moov);
    }
  }
}
