/** The container check of royells_v21_micro_workers.py: a second scanner of top-level boxes, written
    without the first, and exactly what its three answers mean. */
module IsoValidator {
  import opened Prelude
  import opened Mp4Boxes
  import opened Mp4Exact

  const MAX_BOXES: nat := 512

  datatype Status = Valid | Invalid | Indeterminate

  datatype Error = NoError | NonAsciiType | TruncatedExtendedHeader | InvalidSize | TruncatedBox
    | TruncatedTrailingHeader

  datatype Report = Report(status: Status, found: set<Kind>, boxes: nat, scanned: nat, limited: bool, error: Error,
    missing: set<Kind>)

  predicate Ascii(kind: Kind) { forall b :: b in kind ==> b < 0x80 }

  // ----- the reference: boxes counted off the front of a file

  /** What is left after n ASCII-typed boxes, if there are that many. */
  function AfterBoxes(s: seq<byte>, n: nat): Option<seq<byte>> {
    if n == 0 then Some(s)
    else match FirstBox(s)
      case None => None
      case Some(h) => if Ascii(h.kind) then AfterBoxes(s[h.size..], n - 1) else None
  }

  function Kinds(bs: seq<Box>): set<Kind> { set b | b in bs :: b.kind }

  predicate AllAscii(bs: seq<Box>) { forall b :: b in bs ==> Ascii(b.kind) }

  predicate Complete(kinds: set<Kind>) {
    Letters("ftyp") in kinds && Letters("mdat") in kinds && (Letters("moov") in kinds || Letters("moof") in kinds)
  }

  // ----- the scanner

  datatype ScanEnd = ScanEnd(rest: seq<byte>, boxes: nat, found: set<Kind>, error: Error)

  function IsoRun(s: seq<byte>, boxes: nat, found: set<Kind>): (r: ScanEnd)
    decreases |s|
  {
    if |s| < 8 || boxes >= MAX_BOXES then ScanEnd(s, boxes, found, NoError)
    else if !Ascii(s[4..8]) then ScanEnd(s, boxes, found, NonAsciiType)
    else match ReadHeader(s)
      case None => ScanEnd(s, boxes, found, TruncatedExtendedHeader)
      case Some(h) =>
        if h.size < h.headerSize then ScanEnd(s, boxes, found, InvalidSize)
        else if h.size > |s| then ScanEnd(s, boxes, found, TruncatedBox)
        else IsoRun(s[h.size..], boxes + 1, found + {h.kind})
  }

  function Missing(found: set<Kind>): set<Kind> {
    ({FTYP, MDAT} - found) + (if MOOV in found || MOOF in found then {} else {MOOV})
  }

  function Judged(size: nat, e: ScanEnd): Report
    requires |e.rest| <= size
  {
    var limited := e.boxes >= MAX_BOXES && e.rest != [] && e.error == NoError;
    var error := if !limited && e.error == NoError && e.rest != [] then TruncatedTrailingHeader else e.error;
    var status := if error != NoError then Invalid else if limited then Indeterminate
                  else if Missing(e.found) != {} then Invalid else Valid;
    Report(status, e.found, e.boxes, size - |e.rest|, limited, error, Missing(e.found))
  }

  lemma RestShrinks(s: seq<byte>, boxes: nat, found: set<Kind>)
    ensures |IsoRun(s, boxes, found).rest| <= |s|
    decreases |s|
  {
  }

  function Validated(file: seq<byte>): Report {
    RestShrinks(file, 0, {});
    Judged(|file|, IsoRun(file, 0, {}))
  }

  /** The size and type fields, from at most sixteen bytes at the position. */
  method ReadFields(file: seq<byte>, position: nat) returns (error: Error, size: nat, headerSize: nat, kind: Kind)
    requires position + 8 <= |file|
    ensures var s := file[position..];
      && kind == s[4..8]
      && error == (if !Ascii(kind) then NonAsciiType else if ReadHeader(s).None? then TruncatedExtendedHeader
        else NoError)
      && (error == NoError ==> ReadHeader(s) == Some(Header(size, headerSize, kind)))
  {
    ghost var s := file[position..];
    var header := file[position..if position + 16 <= |file| then position + 16 else |file|];
    assert header == s[..|header|];
    assert header[..4] == s[..4] && header[4..8] == s[4..8];
    size, headerSize, kind := BigEndian(header[..4]), 8, header[4..8];
    if !Ascii(kind) {
      return NonAsciiType, size, headerSize, kind;
    }
    if size == 1 {
      if |header| < 16 {
        return TruncatedExtendedHeader, size, headerSize, kind;
      }
      assert header[8..16] == s[8..16];
      size, headerSize := BigEndian(header[8..16]), 16;
    } else if size == 0 {
      size := |file| - position;
    }
    error := NoError;
  }

  /** royells_v21_micro_workers.py, MediaValidationEngine._inspect_iso_bmff. */
  method InspectIsoBmff(file: seq<byte>) returns (r: Report)
    ensures r == Validated(file)
  {
    hide ReadHeader, Ascii;
    var found: set<Kind> := {};
    var position, boxes := 0, 0;
    var error := NoError;
    var size := |file|;
    assert file[0..] == file;
    RestShrinks(file, 0, {});
    while position + 8 <= size && boxes < MAX_BOXES
      invariant 0 <= position <= size && error == NoError
      invariant IsoRun(file[position..], boxes, found) == IsoRun(file, 0, {})
      decreases size - position
    {
      ghost var s := file[position..];
      var boxSize, headerSize, boxType;
      error, boxSize, headerSize, boxType := ReadFields(file, position);
      if error != NoError {
        break;
      }
      if boxSize < headerSize {
        error := InvalidSize;
        break;
      }
      var nextPosition := position + boxSize;
      if nextPosition > size {
        error := TruncatedBox;
        break;
      }
      assert s[boxSize..] == file[nextPosition..];
      found := found + {boxType};
      boxes := boxes + 1;
      position := nextPosition;
      if position == size {
        break;
      }
    }
    assert IsoRun(file, 0, {}) == ScanEnd(file[position..], boxes, found, error);
    var limited := boxes >= MAX_BOXES && position < size && error == NoError;
    if !limited && error == NoError && position != size {
      error := TruncatedTrailingHeader;
    }
    var missing := {FTYP, MDAT} - found;
    if MOOV !in found && MOOF !in found {
      missing := missing + {MOOV};
    }
    var status := if error != NoError then Invalid else if limited then Indeterminate else if missing != {} then Invalid
      else Valid;
    r := Report(status, found, boxes, position, limited, error, missing);
  }

  // ----- what the answers mean

  lemma KindsEmpty()
    ensures Kinds([]) == {} && AllAscii([])
  {
  }

  lemma KindsCons(b: Box, bs: seq<Box>)
    ensures Kinds([b] + bs) == {b.kind} + Kinds(bs)
    ensures AllAscii([b] + bs) <==> Ascii(b.kind) && AllAscii(bs)
  {
    assert forall x :: x in [b] + bs <==> x == b || x in bs;
  }

  lemma IsoNext(s: seq<byte>, boxes: nat, found: set<Kind>)
    requires boxes < MAX_BOXES && FirstBox(s).Some?
    ensures var h := FirstBox(s).value; var rest := s[h.size..];
      && IsoRun(s, boxes, found) ==
           (if Ascii(h.kind) then IsoRun(rest, boxes + 1, found + {h.kind}) else ScanEnd(s, boxes, found, NonAsciiType))
      && AfterBoxes(s, MAX_BOXES - boxes) == (if Ascii(h.kind) then AfterBoxes(rest, MAX_BOXES - boxes - 1) else None)
  {
    hide BigEndian;
  }

  lemma IsoStops(s: seq<byte>, boxes: nat, found: set<Kind>)
    requires boxes <= MAX_BOXES && (boxes == MAX_BOXES || FirstBox(s).None?)
    ensures var r := IsoRun(s, boxes, found);
      && (r.error == NoError ==> r.rest == s && r.boxes == boxes && r.found == found)
      && (s == [] ==> r.error == NoError) && (boxes == MAX_BOXES ==> r.error == NoError)
      && r.boxes == boxes
    ensures AfterBoxes(s, MAX_BOXES - boxes) == if boxes == MAX_BOXES then Some(s) else None
    ensures s == [] ==> Tile(s) == Some([])
    ensures s != [] && FirstBox(s).None? ==> Tile(s) == None
  {
    hide BigEndian;
  }

  ghost predicate ScansExactly(s: seq<byte>, boxes: nat, found: set<Kind>)
    requires boxes <= MAX_BOXES
  {
    var r := IsoRun(s, boxes, found);
    && (r.error == NoError && r.rest == [] <==>
          Tile(s).Some? && AllAscii(Tile(s).value) && boxes + |Tile(s).value| <= MAX_BOXES)
    && (r.error == NoError && r.rest == [] ==>
      r.found == found + Kinds(Tile(s).value) && r.boxes == boxes + |Tile(s).value|)
    && (r.error == NoError && r.rest != [] && r.boxes == MAX_BOXES <==>
          AfterBoxes(s, MAX_BOXES - boxes).Some? && AfterBoxes(s, MAX_BOXES - boxes).value != [])
    && r.boxes <= MAX_BOXES
  }

  lemma ScanEnds(s: seq<byte>, boxes: nat, found: set<Kind>)
    requires boxes <= MAX_BOXES && (boxes == MAX_BOXES || FirstBox(s).None?)
    ensures ScansExactly(s, boxes, found)
  {
    hide IsoRun, AfterBoxes, Tile, Kinds, AllAscii, FirstBox;
    IsoStops(s, boxes, found);
    KindsEmpty();
    assert found + {} == found;
    if s != [] && FirstBox(s).Some? { TileCons(s); }
  }

  /** The scan's end, when every box up to it is sound. */
  lemma {:induction false} IsoRunExact(s: seq<byte>, boxes: nat, found: set<Kind>)
    requires boxes <= MAX_BOXES
    ensures ScansExactly(s, boxes, found)
    decreases |s|
  {
    hide IsoRun, AfterBoxes, Tile, Ascii, Kinds, AllAscii, ReadHeader;
    if FirstBox(s).Some? && boxes < MAX_BOXES {
      var h := FirstBox(s).value;
      var rest := s[h.size..];
      IsoNext(s, boxes, found);
      TileCons(s);
      if Tile(rest).Some? { KindsCons(Box(h.kind, s[h.headerSize..h.size]), Tile(rest).value); }
      if Ascii(h.kind) {
        IsoRunExact(rest, boxes + 1, found + {h.kind});
        if Tile(rest).Some? {
          assert found + ({h.kind} + Kinds(Tile(rest).value)) == (found + {h.kind}) + Kinds(Tile(rest).value);
        }
      }
    } else {
      ScanEnds(s, boxes, found);
    }
  }

  /** Valid: the file is exactly tiled by at most 512 ASCII-typed boxes, with ftyp, mdat and moov or moof
      among them.  Indeterminate: 512 ASCII-typed boxes parse and bytes are left.  Otherwise invalid. */
  lemma ValidatedExactly(file: seq<byte>)
    ensures Validated(file).status == Valid <==>
      Tile(file).Some? && |Tile(file).value| <= 512 && Complete(Kinds(Tile(file).value))
        && forall b :: b in Tile(file).value ==> forall i :: 0 <= i < |b.kind| ==> b.kind[i] < 128
    ensures Validated(file).status == Indeterminate <==>
      AfterBoxes(file, 512).Some? && AfterBoxes(file, 512).value != []
    ensures Validated(file).status == Valid ==>
      Validated(file).found == Kinds(Tile(file).value) && Validated(file).boxes == |Tile(file).value|
        && Validated(file).scanned == |file|
  {
    RestShrinks(file, 0, {});
    IsoRunExact(file, 0, {});
    var e := IsoRun(file, 0, {});
    assert {} + Kinds(if Tile(file).Some? then Tile(file).value else [])
      == Kinds(if Tile(file).Some? then Tile(file).value else []);
    MissingExactly(e.found);
    if Tile(file).Some? { AsciiBytes(Tile(file).value); }
  }

  lemma AsciiBytes(bs: seq<Box>)
    ensures AllAscii(bs) <==> forall b :: b in bs ==> forall i :: 0 <= i < |b.kind| ==> b.kind[i] < 128
  {
    forall b: Box ensures Ascii(b.kind) <==> forall i :: 0 <= i < |b.kind| ==> b.kind[i] < 128 {
      assert forall i :: 0 <= i < |b.kind| ==> b.kind[i] in b.kind;
    }
  }

  lemma MissingExactly(found: set<Kind>)
    ensures Missing(found) == {} <==> Complete(found)
  {
    hide Letters;
    CodesSpelled();
    if Complete(found) {
      assert Missing(found) == {};
    } else {
      var k := if FTYP !in found then FTYP else if MDAT !in found then MDAT else MOOV;
      assert k in Missing(found);
    }
  }
}
