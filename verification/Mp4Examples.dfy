/** The smallest files that show what the bounded inspection does at its edges. */
module Mp4Examples {
  import opened Prelude
  import opened Mp4Boxes
  import opened Mp4Parser
  import opened Mp4Exact
  import opened Mp4RoundTrip
  import opened Mp4TopLevel
  import opened Mp4Agreement
  import opened Mp4Places
  import opened Mp4Files

  const ISOM: seq<byte> := [0x69, 0x73, 0x6F, 0x6D]

  const FTYP_BOX: seq<byte> := [0, 0, 0, 12] + FTYP + ISOM

  const EMPTY_MOOV: seq<byte> := [0, 0, 0, 8] + MOOV

  lemma WordOf(b: byte)
    ensures BigEndian([0, 0, 0, b]) == b && ToBigEndian(b, 4) == [0, 0, 0, b]
  {
    var s: seq<byte> := [0, 0, 0, b];
    assert s[..3] == [0, 0, 0] && s[..3][..2] == [0, 0] && s[..2][..1] == [0] && s[..1][..0] == [];
    assert BigEndian([]) == 0 && BigEndian([0]) == 0 && BigEndian([0, 0]) == 0 && BigEndian([0, 0, 0]) == 0;
    assert b / 256 == 0 && b % 256 == b;
    assert ToBigEndian(0, 1) == [0] && ToBigEndian(0, 2) == [0, 0] && ToBigEndian(0, 3) == [0, 0, 0];
  }

  lemma FtypEncoded()
    ensures EncodeBox(Item(Compact, Box(FTYP, ISOM))) == FTYP_BOX
      && EncodeBox(Item(Compact, Box(MOOV, []))) == EMPTY_MOOV
  {
    hide BigEndian, ToBigEndian;
    WordOf(12);
    WordOf(8);
  }

  const FTYP_ITEM: Item := Item(Compact, Box(FTYP, ISOM))

  lemma EncodeTwo(a: Item, b: Item)
    ensures Encode([a, b]) == EncodeBox(a) + EncodeBox(b)
  {
    hide EncodeBox;
    assert [a, b][1..] == [b] && [b][1..] == [];
    assert Encode([b]) == EncodeBox(b) + Encode([]) == EncodeBox(b);
  }

  lemma IsomBrand(items: seq<Item>)
    requires items == [FTYP_ITEM]
    ensures BrandIn(items, None) == Some(ISOM) && NoMovie(items) && Sized(items)
  {
    assert items[1..] == [] && ISOM[..4] == ISOM && SafeBrand(ISOM) == Some(ISOM) && Pow256(4) == 0x1_0000_0000;
  }

  /** Twenty bytes that end with their movie box, which is reported not to be at the end. */
  lemma SmallestLastMovie()
    ensures var r := Inspected(FTYP_BOX + EMPTY_MOOV, Limits(2, 2, 20, 8)); r.recognized && r.moovAtEnd == Some(false)
  {
    hide Inspected, EncodeBox, FTYP, MOOV, ISOM, ToBigEndian, FTYP_BOX, EMPTY_MOOV, Distinct, BrandIn, Letters;
    CodesSpelled();
    var items := [FTYP_ITEM, Item(Compact, Box(MOOV, []))];
    FtypEncoded();
    EncodeTwo(items[0], items[1]);
    FourLetters();
    OneSecondFits();
    var lim: Limits := Limits(2, 2, 20, 8);
    assert items[..1] == [FTYP_ITEM] && items[..2] == items;
    IsomBrand(items[..1]);
    LastMovieNotAtEnd(items, Compact, [], lim);
    FileRoundTrip(items, 1, Compact, [], lim);
  }

  lemma FourLetters()
    ensures |FTYP| == |MOOV| == |ISOM| == 4 && Pow256(4) == 0x1_0000_0000 && |FTYP_BOX| == 12 && |EMPTY_MOOV| == 8
    ensures FTYP != MOOV
  {
  }

  const ONE_SECOND: MoovItem := Mvhd(Compact, 0, [0, 0, 0, 0, 0, 0, 0, 0, 0, 0, 0], Ratio(1, 1), [])

  /** A movie of one second behind an open size: cut off by the window, it is complete and has no duration. */
  lemma SmallestOpenMovie()
    ensures var r := Inspected(Encode(OpenFile([FTYP_ITEM], [ONE_SECOND])), Limits(2, 2, 40, 8));
      r.recognized && r.complete && r.warnings == [] && r.duration == None
        && MovieRatio([ONE_SECOND]) == Some(Ratio(1, 1))
  {
    hide Inspected, Distinct, ToBigEndian, BrandIn;
    OneSecondFits();
    IsomBrand([FTYP_ITEM]);
    OpenMoovCutSilently([FTYP_ITEM], [], [ONE_SECOND], Limits(2, 2, 40, 8));
  }

  lemma OneSecondFits()
    ensures MovieFits([]) && Encode(MoovItems([])) == [] && MovieFits([ONE_SECOND])
    ensures |Encode(OpenFile([FTYP_ITEM], []))| == 20 && |Encode(OpenFile([FTYP_ITEM], [ONE_SECOND]))| == 48
    ensures |EncodeMovie(ToEnd, [])| == |EncodeMovie(Compact, [])| == 8 && |Encode(MoovItems([ONE_SECOND]))| == 28
    ensures MovieRatio([]) == None && MovieRatio([ONE_SECOND]) == Some(Ratio(1, 1))
    ensures MovieBoxes([]) == MovieDepth([]) == MovieDepth([ONE_SECOND]) == 0 && MovieBoxes([ONE_SECOND]) == 1
    ensures MovieSizes([]) == MovieSizes([ONE_SECOND]) == []
  {
    hide ToBigEndian, Letters;
    CodesSpelled();
    var item := Item(Compact, Box(MVHD, MvhdBody(ONE_SECOND)));
    assert [ONE_SECOND][1..] == [];
    assert MoovItems([ONE_SECOND]) == [item] + MoovItems([]) == [item];
    assert [item][1..] == [] && [FTYP_ITEM][1..] == [];
    assert Encode([item]) == EncodeBox(item) + Encode([]);
    assert Pow256(4) == 0x1_0000_0000;
    OpenEncoded([FTYP_ITEM], []);
    OpenEncoded([FTYP_ITEM], [ONE_SECOND]);
    assert Encode([FTYP_ITEM]) == EncodeBox(FTYP_ITEM) + [];
  }

  // ----- a file whose movie box stands at the end, behind media data longer than the head window

  const MEDIA: Item :=
    Item(Compact, Box(MDAT, [0, 0, 0, 0, 0, 0, 0, 0, 0, 0, 0, 0, 0, 0, 0, 0, 0, 0, 0, 0, 0, 0, 0, 0, 0]))

  const MOVIE: Item := Item(Compact, Box(MOOV, Encode(MoovItems([ONE_SECOND]))))

  const LATE: seq<Item> := [FTYP_ITEM, MEDIA, MOVIE]

  /** The media box is 33 bytes long and ends with zeros; the movie box is 36 bytes long and says so. */
  lemma MediaEncoded()
    ensures |EncodeBox(FTYP_ITEM)| == 12 && |EncodeBox(MEDIA)| == 33 && EncodeBox(MEDIA)[29..] == [0, 0, 0, 0]
  {
    hide ToBigEndian;
    assert EncodeBox(MEDIA)[29..] == MEDIA.box.body[21..] == [0, 0, 0, 0];
  }

  lemma MovieEncoded()
    ensures |EncodeBox(MOVIE)| == 36 && EncodeBox(MOVIE)[..4] == [0, 0, 0, 36]
  {
    hide ToBigEndian, MoovItems;
    OneSecondFits();
    WordOf(36);
  }

  lemma LateEncoded()
    ensures |EncodeBox(FTYP_ITEM)| == 12 && |EncodeBox(MEDIA)| == 33 && |EncodeBox(MOVIE)| == 36
    ensures |Encode(LATE)| == 81 && |Encode(LATE[..2])| == 45 && Encode(LATE[..2]) + EncodeBox(MOVIE) == Encode(LATE)
    ensures Encode(LATE[..2])[41..] == [0, 0, 0, 0] && EncodeBox(MOVIE)[..4] == [0, 0, 0, 36]
  {
    hide EncodeBox, MEDIA, MOVIE, Encode;
    MediaEncoded();
    MovieEncoded();
    assert LATE[..2] == [FTYP_ITEM, MEDIA] && LATE == LATE[..2] + [MOVIE];
    EncodeTwo(FTYP_ITEM, MEDIA);
    EncodeConcat(LATE[..2], [MOVIE]);
    OneBox(MOVIE);
    assert (EncodeBox(FTYP_ITEM) + EncodeBox(MEDIA))[41..] == EncodeBox(MEDIA)[29..];
  }

  lemma LateFits()
    ensures MovieAt(LATE, 2, Compact, [ONE_SECOND])
  {
    hide Encode, MoovItems, MovieFits, ToBigEndian, Letters;
    CodesSpelled();
    OneSecondFits();
    assert Pow256(4) == 0x1_0000_0000;
  }

  lemma LateIsFirst(lim: Limits)
    requires lim == Limits(8, 2, 80, 40)
    ensures OwnIsFirstCandidate(Encode(LATE), lim)
  {
    hide Encode, EncodeBox, MoovOffset, FirstMoov, MOVIE, MEDIA, FTYP_ITEM, Candidate, MovieAt;
    LateFits();
    LateEncoded();
    MovieIsFirst(LATE, 2, Compact, [ONE_SECOND]);
    var file := Encode(LATE);
    var tail := file[41..];
    assert tail == Encode(LATE[..2])[41..] + EncodeBox(MOVIE);
    assert tail[4..8] == EncodeBox(MOVIE)[..4] == [0, 0, 0, 36];
    forall i | 4 <= i < 8 && i + 8 <= |tail| ensures !Candidate(tail, i, 41, |file|) {
      assert tail[i] == tail[4..8][i - 4];
      NoLetter(tail, i, |file|);
    }
  }

  lemma NoLetter(tail: seq<byte>, i: nat, total: nat)
    requires 4 <= i && i + 8 <= |tail| && tail[i] != 0x6D
    ensures !Candidate(tail, i, 41, total)
  {
    hide MOOV, ReadHeader;
    MoovLetter();
    assert tail[i..i + 4][0] == tail[i];
  }

  lemma MoovLetter()
    ensures MOOV[0] == 0x6D && |MOOV| == 4
  {
  }

  /** Its duration is found and yet it is reported incomplete. */
  lemma LateMovieIncomplete()
    ensures var r := Inspected(Encode(LATE), Limits(8, 2, 80, 40));
      r.recognized && r.moovFound && r.duration == Some(Ratio(1, 1)) && !r.complete && r.warnings == [HeadProbeEnded]
  {
    hide Inspected, Encode, EncodeBox, EncodeMovie, MoovItems, BrandIn, Distinct, OwnIsFirstCandidate, MovieAt;
    hide LATE, MEDIA;
    var lim: Limits := Limits(8, 2, 80, 40);
    LateFits();
    LateEncoded();
    LateIsFirst(lim);
    LateFront(lim);
    OneSecondFits();
    LateMovie();
    TailRoundTrip(LATE, 2, Compact, [ONE_SECOND], lim);
  }

  lemma LateMovie()
    ensures |EncodeMovie(Compact, [ONE_SECOND])| == 36
  {
    LateEncoded();
  }

  lemma LateFront(lim: Limits)
    requires lim == Limits(8, 2, 80, 40)
    ensures EndsEarly(LATE, lim) && FrontBrand(LATE, lim) == Some(ISOM)
  {
    hide EncodeBox, BrandIn, Encode;
    LateEncoded();
    assert LATE[1..][0] == MEDIA;
    assert HeadBoxes(LATE, 40) == 1 + HeadBoxes(LATE[1..], 28) == 1;
    assert LATE[..1] == [FTYP_ITEM] && [FTYP_ITEM][1..] == [];
    IsomBrand(LATE[..1]);
    OneBox(FTYP_ITEM);
  }

  lemma OneBox(i: Item)
    ensures Encode([i]) == EncodeBox(i)
  {
    assert [i][1..] == [] && Encode([]) == [] && EncodeBox(i) + [] == EncodeBox(i);
  }

  /** Bytes inside other data that happen to read as a movie box. */
  const STRAY: seq<byte> := FTYP_BOX + [0, 0, 0, 2, 1, 1, 1, 1] + [9] + EMPTY_MOOV
    + [7, 7, 7, 7, 7, 7, 7, 7, 7, 7, 7, 7]

  /** They make an inspection complete although the file has no movie box of its own. */
  lemma StrayMovieBox()
    ensures var lim: Limits := Limits(4, 4, 40, 8); var r := Inspected(STRAY, lim);
      r.recognized && r.complete && r.warnings == [] && Locate(STRAY, lim).moov == Some(EMPTY_MOOV)
        && MoovOffset(STRAY) == None
  {
    var lim: Limits := Limits(4, 4, 40, 8);
    StrayHead(lim);
    StrayTail(lim);
    StrayParsed(lim);
  }

  lemma StrayWords()
    ensures STRAY[..20][..4] == [0, 0, 0, 12] && STRAY[..20][4..8] == FTYP && STRAY[..20][8..12] == ISOM
    ensures STRAY[..20][12..16] == [0, 0, 0, 2] && STRAY[..20][16..20] == [1, 1, 1, 1]
  {
    var t := STRAY[..20];
    assert t == FTYP_BOX + [0, 0, 0, 2, 1, 1, 1, 1];
    assert t[16] == 1 && t[17] == 1 && t[18] == 1 && t[19] == 1;
  }

  lemma StrayFirst(s: seq<byte>)
    requires |s| >= 20 && s[..20] == STRAY[..20]
    ensures FirstBox(s) == Some(Header(12, 8, FTYP)) && s[8..12] == ISOM
    ensures ReadHeader(s[12..]) == Some(Header(2, 8, [1, 1, 1, 1]))
  {
    hide BigEndian;
    WordOf(12);
    WordOf(2);
    var t := s[..20];
    StrayWords();
    assert s[..4] == t[..4] == [0, 0, 0, 12] && s[4..8] == t[4..8] == FTYP && s[8..12] == t[8..12];
    assert s[12..][..4] == t[12..16] == [0, 0, 0, 2] && s[12..][4..8] == t[16..20] == [1, 1, 1, 1];
  }

  lemma StrayHead(lim: Limits)
    requires lim == Limits(4, 4, 40, 8)
    ensures |STRAY| == 41 && MoovOffset(STRAY) == None
    ensures HeadRun(STRAY[..20], 41, 0, None, lim) == HeadEnd(Some(ISOM), None, false)
  {
    hide ReadHeader, BigEndian, STRAY;
    StraySize();
    FourLetters();
    StrayFirst(STRAY);
    var w := STRAY[..20];
    StrayFirst(w);
    assert SafeBrand(ISOM) == Some(ISOM);
  }

  lemma StraySize()
    ensures |STRAY| == 41 && STRAY[21..] == EMPTY_MOOV + [7, 7, 7, 7, 7, 7, 7, 7, 7, 7, 7, 7]
  {
  }

  lemma StrayTail(lim: Limits)
    requires lim == Limits(4, 4, 40, 8)
    ensures TailRun(STRAY[21..], 4, 21, 41, None, lim) == TailEnd(Some(EMPTY_MOOV), Some(false), None)
  {
    hide BigEndian, STRAY;
    StraySize();
    WordOf(8);
    var tail := STRAY[21..];
    assert tail[4 - 4..] == tail && tail[..4] == [0, 0, 0, 8] && tail[4..8] == MOOV && tail[..8] == EMPTY_MOOV;
  }

  lemma StrayParsed(lim: Limits)
    requires lim == Limits(4, 4, 40, 8)
    ensures AfterMoov(EMPTY_MOOV, FRESH, lim) == Ended(true, FRESH)
  {
    hide BigEndian;
    WordOf(8);
    assert EMPTY_MOOV[..4] == [0, 0, 0, 8] && EMPTY_MOOV[4..8] == MOOV;
    assert MoovPayload(EMPTY_MOOV) == [];
  }
}
