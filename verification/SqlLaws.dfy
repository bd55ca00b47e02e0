/** What the translator and the splitter promise together: translated text lexes like the text it
    came from, and cutting and stripping it does not move a token boundary. */
module SqlLaws {
  import opened SqlTokens

  function Min(a: nat, b: nat): nat { if a < b then a else b }

  // ----- cutting text short

  lemma ThroughCut(p: string, w: string, pat: string)
    requires pat != ""
    ensures Through(p, pat) == Min(|p|, Through(p + w, pat))
  {
    var s := p + w;
    if p != "" && !(pat <= s) {
      assert s[1..] == p[1..] + w;
      ThroughCut(p[1..], w, pat);
    } else if pat <= s && |pat| <= |p| {
      assert pat == s[..|pat|] == p[..|pat|];
    } else if p != "" {
      NotFound(p, pat);
    }
  }

  lemma NotFound(p: string, pat: string)
    requires |pat| > |p|
    ensures Through(p, pat) == |p|
  {
  }

  lemma QuotedCut(p: string, w: string, q: char)
    ensures QuotedThrough(p, q) == Min(|p|, QuotedThrough(p + w, q))
  {
    var s := p + w;
    if |p| > 1 {
      assert s[1..] == p[1..] + w && s[2..] == p[2..] + w;
      QuotedCut(p[1..], w, q);
      QuotedCut(p[2..], w, q);
    }
  }

  lemma TagCut(p: string, w: string)
    requires TagTail(p + w) <= |p|
    ensures TagTail(p) == TagTail(p + w)
  {
    if p != "" && IsWord(p[0]) {
      assert (p + w)[1..] == p[1..] + w;
      TagCut(p[1..], w);
    }
  }

  lemma TagLenCut(p: string, w: string)
    requires TagLen(p + w) <= |p|
    ensures TagLen(p) == TagLen(p + w)
  {
    if p != "" && p[0] == '$' {
      assert (p + w)[1..] == p[1..] + w;
      TagCut(p[1..], w);
    }
  }

  /** Text that is cut anywhere but inside an opening dollar tag keeps its first token, cut short. */
  lemma HeadCut(p: string, w: string)
    requires p != "" && TagLen(p + w) <= |p|
    ensures Head(p) == Min(|p|, Head(p + w))
  {
    var s := p + w;
    TagLenCut(p, w);
    var k := TagLen(s);
    if |p| > 1 {
      assert s[2..] == p[2..] + w && s[..2] == p[..2];
    }
    if "--" <= s && |p| > 1 {
      assert "--" <= p;
      ThroughCut(p[2..], w, "\n");
    } else if "/*" <= s && |p| > 1 {
      assert "/*" <= p;
      ThroughCut(p[2..], w, "*/");
    } else if s[0] == '\'' || s[0] == '"' {
      assert s[1..] == p[1..] + w;
      QuotedCut(p[1..], w, s[0]);
    } else if k > 0 {
      assert s[k..] == p[k..] + w && s[..k] == p[..k];
      ThroughCut(p[k..], w, s[..k]);
    }
  }

  // ----- putting other text after a token

  lemma ThroughSwap(x: string, r: string, r': string, pat: string)
    requires pat != "" && r != "" && Through(x + r, pat) == |x|
    ensures Through(x + r', pat) == |x|
  {
    var s, s' := x + r, x + r';
    if x != "" {
      if pat <= s {
        assert pat == s[..|pat|] == s'[..|pat|];
      } else {
        assert s[1..] == x[1..] + r && s'[1..] == x[1..] + r';
        ThroughSwap(x[1..], r, r', pat);
        FoundWithin(x, r, pat);
        assert s[..|pat|] == s'[..|pat|];
      }
    }
  }

  lemma ThroughNext(s: string, pat: string)
    requires pat != ""
    ensures Through(s, pat) == if pat <= s then |pat| else if s == "" then 0 else 1 + Through(s[1..], pat)
  {
  }

  lemma {:induction false} FoundWithin(x: string, r: string, pat: string)
    requires pat != "" && r != "" && x != "" && Through(x + r, pat) == |x|
    ensures |pat| <= |x|
  {
    hide Through;
    var s := x + r;
    ThroughNext(s, pat);
    if !(pat <= s) {
      assert s[1..] == x[1..] + r;
      if |x| > 1 {
        FoundWithin(x[1..], r, pat);
      } else {
        ThroughNext(r, pat);
      }
    }
  }

  lemma {:induction false} QuotedSwap(x: string, r: string, r': string, q: char)
    requires r != "" && r' != "" && (r'[0] == q ==> r[0] == q)
    requires QuotedThrough(x + r, q) == |x|
    ensures QuotedThrough(x + r', q) == |x|
  {
    var s, s' := x + r, x + r';
    assert "" + r == r;
    if x == "" {
    } else if x[0] != q {
      assert s[1..] == x[1..] + r && s'[1..] == x[1..] + r';
      QuotedSwap(x[1..], r, r', q);
    } else if |x| > 1 && x[1] == q {
      assert s[2..] == x[2..] + r && s'[2..] == x[2..] + r';
      QuotedSwap(x[2..], r, r', q);
    } else {
      assert |x| == 1 && s[1] == r[0] && s'[1] == r'[0];
    }
  }

  lemma TagSwap(x: string, r: string, r': string)
    requires 0 < TagTail(x + r) <= |x|
    ensures TagTail(x + r') == TagTail(x + r)
  {
    assert (x + r)[1..] == x[1..] + r && (x + r')[1..] == x[1..] + r';
    if IsWord(x[0]) { TagSwap(x[1..], r, r'); }
  }

  /** r' starts the way r does, as far as the token before them can tell. */
  predicate StartsLike(r': string, r: string) {
    && (r == "" <==> r' == "")
    && (r != "" ==> r'[0] == r[0] || (r[0] == '?' && r'[0] in "?%"))
    && (TagTail(r') > 0 ==> TagTail(r) > 0)
  }

  /** A token of several characters ends where it ended, whatever else follows. */
  lemma LongHeadSwap(t: string, r: string, r': string)
    requires |t| > 1 && t[0] != '?' && r != "" && Head(t + r) == |t| && StartsLike(r', r)
    ensures Head(t + r') == |t|
  {
    var s, s' := t + r, t + r';
    assert s[0] == s'[0] == t[0] && s[..2] == t[..2] == s'[..2];
    assert s[1..] == t[1..] + r && s'[1..] == t[1..] + r';
    assert s[2..] == t[2..] + r && s'[2..] == t[2..] + r';
    if t[..2] == "--" {
      ThroughSwap(t[2..], r, r', "\n");
    } else if t[..2] == "/*" {
      ThroughSwap(t[2..], r, r', "*/");
    } else if t[0] == '\'' || t[0] == '"' {
      QuotedSwap(t[1..], r, r', t[0]);
    } else {
      DollarSwap(t, r, r');
    }
  }

  lemma DollarSwap(t: string, r: string, r': string)
    requires |t| > 1 && t[0] == '$' && r != "" && Head(t + r) == |t|
    ensures Head(t + r') == |t|
  {
    hide Through, TagTail;
    var s, s' := t + r, t + r';
    assert s[1..] == t[1..] + r && s'[1..] == t[1..] + r';
    var k := TagLen(s);
    assert s[0] == s'[0] == '$' && !("--" <= s) && !("/*" <= s) && !("??" <= s);
    TagSwap(t[1..], r, r');
    assert s[k..] == t[k..] + r && s'[k..] == t[k..] + r' && s[..k] == t[..k] == s'[..k];
    ThroughSwap(t[k..], r, r', s[..k]);
  }

  lemma ShortHeadSwap(c: char, r: string, r': string)
    requires c != '?' && r != "" && Head([c] + r) == 1 && StartsLike(r', r)
    ensures Head([c] + r') == 1
  {
    var s, s' := [c] + r, [c] + r';
    assert s[1..] == r && s'[1..] == r' && s[..2] == [c, r[0]] && s'[..2] == [c, r'[0]];
  }

  lemma HeadSwap(t: string, r: string, r': string)
    requires t != "" && t[0] != '?' && Head(t + r) == |t| && StartsLike(r', r)
    ensures Head(t + r') == |t|
  {
    if r == "" {
      assert r' == r;
    } else if |t| > 1 {
      LongHeadSwap(t, r, r');
    } else {
      assert t == [t[0]];
      ShortHeadSwap(t[0], r, r');
    }
  }

  // ----- translated text lexes like its source

  lemma TranslateStartsLike(s: string)
    ensures s == "" <==> Translate(s) == ""
    ensures StartsLike(Translate(s), s)
  {
    if s != "" {
      TranslateStep(s);
      TranslateTag(s);
    }
  }

  lemma {:induction false} TranslateTag(s: string)
    ensures TagTail(Translate(s)) > 0 ==> TagTail(s) > 0
    ensures s != "" ==> Translate(s) != "" && (Translate(s)[0] == s[0] || (s[0] == '?' && Translate(s)[0] in "?%"))
  {
    if s != "" {
      TranslateStep(s);
      if IsWord(s[0]) {
        assert Head(s) == 1;
        assert Translate(s)[1..] == Translate(s[1..]);
        TranslateTag(s[1..]);
      }
    }
  }

  /** A token that is not a question mark is found again, with the rest translated behind it. */
  lemma TokenKept(s: string)
    requires s != "" && s[0] != '?'
    ensures Tokens(Translate(s)) == [s[..Head(s)]] + Tokens(Translate(s[Head(s)..]))
  {
    var t, r := s[..Head(s)], s[Head(s)..];
    assert s == t + r;
    TranslateStep(s);
    TranslateStartsLike(r);
    HeadSwap(t, r, Translate(r));
    var u := t + Translate(r);
    assert Translate(s) == u && u[..|t|] == t && u[|t|..] == Translate(r);
  }

  /** A character that can open nothing is a token of its own. */
  predicate Plain(c: char) {
    c != '-' && c != '/' && c != '\'' && c != '"' && c != '$' && c != '?'
  }

  lemma FirstToken(t: string, x: string)
    requires t != "" && Head(t + x) == |t|
    ensures Tokens(t + x) == [t] + Tokens(x)
  {
    assert (t + x)[..|t|] == t && (t + x)[|t|..] == x;
  }

  lemma PlainToken(c: char, x: string)
    requires Plain(c)
    ensures Tokens([c] + x) == [[c]] + Tokens(x)
  {
    var u := [c] + x;
    assert u[0] == c;
    assert Head(u) == 1;
    FirstToken([c], x);
  }

  lemma MarkToken(x: string)
    ensures "?" <= x ==> Tokens("?" + x) == ["??"] + Tokens(x[1..])
    ensures !("?" <= x) ==> Tokens("?" + x) == ["?"] + Tokens(x)
  {
    if "?" <= x {
      assert "?" + x == "??" + x[1..];
      FirstToken("??", x[1..]);
    } else {
      assert ("?" + x)[1..] == x;
      assert !("??" <= "?" + x) && Head("?" + x) == 1;
      FirstToken("?", x);
    }
  }

  /** The translation of a text that starts with a question mark. */
  lemma TranslateMark(s: string)
    requires s != "" && s[0] == '?'
    ensures if "??" <= s then Translate(s) == "?" + Translate(s[2..]) else Translate(s) == "%s" + Translate(s[1..])
  {
    assert s[..1] == "?";
    TranslateStep(s);
  }

  /** A lone question mark becomes two ordinary characters. */
  lemma MarkKept(s: string)
    requires s != "" && s[0] == '?' && !("??" <= s)
    ensures Tokens(Translate(s)) == ["%", "s"] + Tokens(Translate(s[1..]))
  {
    hide Tokens, Head, Translate;
    TranslateMark(s);
    var x := Translate(s[1..]);
    assert "%s" + x == ['%'] + (['s'] + x);
    PlainToken('%', ['s'] + x);
    PlainToken('s', x);
    assert ["%"] + (["s"] + Tokens(x)) == ["%", "s"] + Tokens(x);
  }

  /** A doubled question mark becomes a single one ... */
  lemma EscapeKept(s: string)
    requires "??" <= s && !("??" <= s[2..])
    ensures Tokens(Translate(s)) == ["?"] + Tokens(Translate(s[2..]))
  {
    hide Tokens, Head, Translate;
    TranslateMark(s);
    MarkToken(Translate(s[2..]));
    TranslateTag(s[2..]);
    TranslateStartsLike(s[2..]);
    if s[2..] != "" && s[2] == '?' { TranslateMark(s[2..]); }
  }

  /** ... which pairs up with the next one when two doubled ones meet. */
  lemma EscapesMeet(s: string)
    requires "????" <= s
    ensures Tokens(Translate(s)) == ["??"] + Tokens(Translate(s[4..]))
  {
    hide Tokens, Head, Translate;
    TranslateMark(s);
    TranslateMark(s[2..]);
    assert s[2..][2..] == s[4..];
    MarkToken("?" + Translate(s[4..]));
  }

  /** What a translated token sequence lexes to. */
  function Retokened(ts: seq<string>): seq<string> {
    if ts == [] then []
    else if ts[0] == "?" then ["%", "s"] + Retokened(ts[1..])
    else if ts[0] != "??" then [ts[0]] + Retokened(ts[1..])
    else if |ts| > 1 && ts[1] == "??" then ["??"] + Retokened(ts[2..])
    else ["?"] + Retokened(ts[1..])
  }

  lemma TokensCons(s: string)
    requires s != ""
    ensures Tokens(s) == [s[..Head(s)]] + Tokens(s[Head(s)..])
    ensures s[0] == '?' ==> s[..Head(s)] == if "??" <= s then "??" else "?"
    ensures s[0] != '?' ==> s[..Head(s)] != "??" && s[..Head(s)] != "?"
  {
  }

  lemma RetokenedCons(t: string, ts: seq<string>)
    ensures t == "?" ==> Retokened([t] + ts) == ["%", "s"] + Retokened(ts)
    ensures t != "?" && t != "??" ==> Retokened([t] + ts) == [t] + Retokened(ts)
    ensures t == "??" && (ts == [] || ts[0] != "??") ==> Retokened([t] + ts) == ["?"] + Retokened(ts)
    ensures t == "??" && ts != [] && ts[0] == "??" ==> Retokened([t] + ts) == ["??"] + Retokened(ts[1..])
  {
    assert ([t] + ts)[1..] == ts;
    if ts != [] { assert ([t] + ts)[2..] == ts[1..]; }
  }

  lemma NothingRelexed()
    ensures Translate("") == "" && Tokens("") == [] && Retokened([]) == []
  {
  }

  /** Lexing translated text gives the tokens of its source: each '?' as an ordinary "%s", each pair of
      neighbouring '??' as one '??', any other '??' as '?', and everything else as it was. */
  lemma {:induction false} RelexTranslated(s: string)
    ensures Tokens(Translate(s)) == Retokened(Tokens(s))
    decreases |s|
  {
    hide Tokens, Head, Translate, Retokened;
    if s == "" {
      NothingRelexed();
    } else {
      TokensCons(s);
      assert |s[..Head(s)]| == Head(s);
      var r := s[Head(s)..];
      RetokenedCons(s[..Head(s)], Tokens(r));
      if r != "" { TokensCons(r); } else { NothingRelexed(); }
      if s[0] != '?' {
        TokenKept(s);
        RelexTranslated(r);
      } else if !("??" <= s) {
        MarkKept(s);
        RelexTranslated(r);
      } else if "??" <= r {
        assert s[..2] == r[..2] == "??" && r[2..] == s[4..] && "????" <= s;
        EscapesMeet(s);
        RelexTranslated(s[4..]);
        assert Tokens(r)[1..] == Tokens(s[4..]);
      } else {
        EscapeKept(s);
        RelexTranslated(r);
      }
    }
  }

  lemma OpaqueCons(t: string, ts: seq<string>)
    ensures OpaqueTokens([t] + ts) == if Opaque(t) then [t] + OpaqueTokens(ts) else OpaqueTokens(ts)
  {
    assert ([t] + ts)[1..] == ts && [] + OpaqueTokens(ts) == OpaqueTokens(ts);
  }

  lemma MarksAreNotOpaque()
    ensures !Opaque("?") && !Opaque("??") && !Opaque("%") && !Opaque("s")
  {
    assert "?"[0] == '?' && "??"[0] == '?' && "%"[0] == '%' && "s"[0] == 's';
  }

  lemma NothingRetokened()
    ensures Retokened([]) == []
  {
  }

  lemma {:induction false} RetokenedOpaque(ts: seq<string>)
    ensures OpaqueTokens(Retokened(ts)) == OpaqueTokens(ts)
    decreases |ts|
  {
    hide OpaqueTokens, Retokened, Opaque;
    if ts == [] {
      NothingRetokened();
    } else {
      var t, rest := ts[0], ts[1..];
      assert ts == [t] + rest;
      RetokenedCons(t, rest);
      OpaqueCons(t, rest);
      MarksAreNotOpaque();
      if t == "??" && rest != [] && rest[0] == "??" {
        var more := rest[1..];
        assert rest == ["??"] + more;
        OpaqueCons("??", more);
        OpaqueCons("??", Retokened(more));
        RetokenedOpaque(more);
      } else {
        RetokenedOpaque(rest);
        var r := Retokened(rest);
        OpaqueCons(t, r);
        OpaqueCons("?", r);
        OpaqueCons("%", ["s"] + r);
        OpaqueCons("s", r);
        assert ["%", "s"] + r == ["%"] + (["s"] + r);
        assert t == "??" ==> OpaqueTokens(ts) == OpaqueTokens(rest);
        assert t == "?" ==> OpaqueTokens(ts) == OpaqueTokens(rest);
      }
    }
  }

  /** Translating keeps every literal, quoted identifier, comment and dollar-quoted body, in order. */
  lemma TranslateKeepsOpaqueTokens(s: string)
    ensures OpaqueTokens(Tokens(Translate(s))) == OpaqueTokens(Tokens(s))
  {
    RelexTranslated(s);
    RetokenedOpaque(Tokens(s));
  }

  // ----- translating twice

  /** s holds a top-level '??'. */
  predicate HasEscape(s: string) { "??" in Tokens(s) }

  /** s holds a top-level question mark, single or doubled. */
  predicate HasMark(s: string) { "?" in Tokens(s) || "??" in Tokens(s) }

  /** s holds a top-level ';'. */
  predicate HasSemicolon(s: string) { ";" in Tokens(s) }

  function Escapes(ts: seq<string>): nat {
    if ts == [] then 0 else (if ts[0] == "??" then 1 else 0) + Escapes(ts[1..])
  }

  lemma EscapesCons(t: string, ts: seq<string>)
    ensures Escapes([t] + ts) == (if t == "??" then 1 else 0) + Escapes(ts)
  {
    assert ([t] + ts)[1..] == ts;
  }

  lemma {:induction false} RetokenedMarks(ts: seq<string>)
    ensures "?" in Retokened(ts) || "??" in Retokened(ts) <==> "??" in ts
    ensures ";" in Retokened(ts) <==> ";" in ts
    ensures 2 * Escapes(Retokened(ts)) <= Escapes(ts)
    decreases |ts|
  {
    if ts == [] {
      NothingRetokened();
      assert Escapes([]) == 0;
    } else {
      hide Retokened, Escapes;
      var t, rest := ts[0], ts[1..];
      assert ts == [t] + rest;
      RetokenedCons(t, rest);
      EscapesCons(t, rest);
      if t == "??" && rest != [] && rest[0] == "??" {
        var more := rest[1..];
        assert rest == ["??"] + more;
        RetokenedMarks(more);
        EscapesCons("??", more);
        EscapesCons("??", Retokened(more));
      } else {
        RetokenedMarks(rest);
        var r := Retokened(rest);
        EscapesCons(t, r);
        EscapesCons("?", r);
        EscapesCons("s", r);
        EscapesCons("%", ["s"] + r);
        assert ["%", "s"] + r == ["%"] + (["s"] + r);
      }
    }
  }

  lemma EscapesPositive(ts: seq<string>)
    ensures Escapes(ts) > 0 <==> "??" in ts
  {
  }

  lemma TranslateMarks(s: string)
    ensures HasMark(Translate(s)) <==> HasEscape(s)
    ensures HasSemicolon(Translate(s)) <==> HasSemicolon(s)
  {
    RelexTranslated(s);
    RetokenedMarks(Tokens(s));
  }

  lemma {:induction false} TranslateUnmarked(s: string)
    requires !HasMark(s)
    ensures Translate(s) == s
    decreases |s|
  {
    hide Tokens, Head, Translate;
    if s == "" {
      NothingRelexed();
    } else {
      var t, rest := s[..Head(s)], s[Head(s)..];
      TranslateStep(s);
      TokensCons(s);
      assert t in Tokens(s) && forall x :: x in Tokens(rest) ==> x in Tokens(s);
      assert s == t + rest;
      TranslateUnmarked(rest);
    }
  }

  /** The translator leaves a text alone exactly when it has no top-level question mark. */
  lemma TranslateFixpoint(s: string)
    ensures Translate(s) == s <==> !HasMark(s)
  {
    if HasMark(s) {
      TranslateMarks(s);
      RelexTranslated(s);
      RetokenedMarks(Tokens(s));
      EscapesPositive(Tokens(s));
    } else {
      TranslateUnmarked(s);
    }
  }

  /** Translating a second time, as the adapter does to every migration statement, changes nothing
      exactly when the text has no top-level '??'. */
  lemma TranslateTwice(s: string)
    ensures Translate(Translate(s)) == Translate(s) <==> !HasEscape(s)
  {
    TranslateFixpoint(Translate(s));
    TranslateMarks(s);
  }

  // ----- cutting at top-level semicolons

  function Join(segs: seq<string>): string
    requires |segs| >= 1
  {
    if |segs| == 1 then segs[0] else segs[0] + (";" + Join(segs[1..]))
  }

  /** The segments are the text between its top-level semicolons, nothing lost or added. */
  lemma {:induction false} SegmentsJoin(s: string)
    ensures Join(Segments(s)) == s
    decreases |s|
  {
    if s != "" {
      hide Head, Segments, Glue;
      SegmentsNext(s);
      var t, r := s[..Head(s)], s[Head(s)..];
      assert s == t + r;
      SegmentsJoin(r);
      if s[0] == ';' {
        assert ([""] + Segments(r))[1..] == Segments(r);
      } else {
        JoinGlue(t, Segments(r));
      }
    }
  }

  lemma JoinGlue(t: string, segs: seq<string>)
    requires |segs| >= 1
    ensures Join(Glue(t, segs)) == t + Join(segs)
  {
    if |segs| > 1 {
      assert Glue(t, segs)[1..] == segs[1..];
      Assoc(t, segs[0], ";" + Join(segs[1..]));
    }
  }

  /** The tokens of all the segments, with a ';' between one segment and the next. */
  function SegmentTokens(segs: seq<string>): seq<string>
    requires |segs| >= 1
  {
    if |segs| == 1 then Tokens(segs[0]) else Tokens(segs[0]) + ([";"] + SegmentTokens(segs[1..]))
  }

  /** Text cut at the end of its first token, or further on, keeps that token. */
  lemma TokensCut(s: string, p: string, w: string)
    requires p != "" && s == p + w && Head(s) <= |p|
    ensures Tokens(p) == [s[..Head(s)]] + Tokens(p[Head(s)..])
  {
    hide Head, TagLen, Tokens;
    TagInHead(s);
    HeadCut(p, w);
    TokensCons(p);
    assert s[..Head(s)] == p[..Head(s)];
  }

  lemma TagInHead(s: string)
    requires s != ""
    ensures TagLen(s) <= Head(s)
  {
  }

  lemma NothingCut()
    ensures Tokens("") == [] && Segments("") == [""] && SegmentTokens([""]) == []
  {
  }

  lemma SegmentsNext(s: string)
    requires s != ""
    ensures var t, rest := s[..Head(s)], Segments(s[Head(s)..]);
      Segments(s) == (if s[0] == ';' then [""] + rest else Glue(t, rest)) && (s[0] == ';' ==> t == ";")
  {
  }

  lemma EmptySegment(segs: seq<string>)
    requires |segs| >= 1
    ensures SegmentTokens([""] + segs) == [";"] + SegmentTokens(segs) && !HasSemicolon("")
  {
    assert ([""] + segs)[1..] == segs;
    assert [] + ([";"] + SegmentTokens(segs)) == [";"] + SegmentTokens(segs);
  }

  lemma GluedFirst(t: string, segs: seq<string>)
    requires |segs| >= 1
    ensures Glue(t, segs)[0] == t + segs[0] && forall i :: 0 < i < |segs| ==> Glue(t, segs)[i] == segs[i]
  {
  }

  /** Cutting at the top-level semicolons moves no token boundary, and leaves no such semicolon inside a segment. */
  lemma {:induction false} CuttingKeepsTokens(s: string)
    ensures SegmentTokens(Segments(s)) == Tokens(s)
    ensures forall i :: 0 <= i < |Segments(s)| ==> !HasSemicolon(Segments(s)[i])
    decreases |s|
  {
    hide Tokens, Head, Segments, SegmentTokens, Glue;
    if s == "" {
      NothingCut();
    } else {
      TokensCons(s);
      SegmentsNext(s);
      var t, r := s[..Head(s)], s[Head(s)..];
      var segs := Segments(r);
      CuttingKeepsTokens(r);
      if s[0] == ';' {
        EmptySegment(segs);
      } else {
        SegmentsJoin(r);
        FirstSegment(s, t, segs);
        GluedTokens(t, segs);
        GluedFirst(t, segs);
      }
    }
  }

  lemma GluedTokens(t: string, segs: seq<string>)
    requires |segs| >= 1 && Tokens(t + segs[0]) == [t] + Tokens(segs[0])
    ensures SegmentTokens(Glue(t, segs)) == [t] + SegmentTokens(segs)
  {
    if |segs| > 1 {
      assert Glue(t, segs)[1..] == segs[1..];
      Assoc([t], Tokens(segs[0]), [";"] + SegmentTokens(segs[1..]));
    }
  }

  lemma FirstSegment(s: string, t: string, segs: seq<string>)
    requires s != "" && s[0] != ';' && t == s[..Head(s)] && |segs| >= 1 && Join(segs) == s[Head(s)..]
    ensures Tokens(t + segs[0]) == [t] + Tokens(segs[0])
    ensures t != ";"
  {
    var w := if |segs| == 1 then "" else ";" + Join(segs[1..]);
    assert segs[0] + "" == segs[0];
    assert s == t + Join(segs) && Join(segs) == segs[0] + w;
    Assoc(t, segs[0], w);
    TokensCut(s, t + segs[0], w);
    assert (t + segs[0])[Head(s)..] == segs[0];
    assert t[0] == s[0];
  }

  // ----- stripping

  /** The top-level tokens that either machine acts on. */
  predicate Marker(t: string) { t == "?" || t == "??" || t == ";" }

  lemma {:induction false} StripLeftKeeps(s: string, m: string)
    requires Marker(m)
    ensures m in Tokens(StripLeft(s)) <==> m in Tokens(s)
    decreases |s|
  {
    if s != "" && IsSpace(s[0]) {
      assert s == [s[0]] + s[1..];
      PlainToken(s[0], s[1..]);
      StripLeftKeeps(s[1..], m);
    }
  }

  lemma TagBeforeSpace(p: string, c: char)
    requires p != "" && IsSpace(c)
    ensures TagLen(p + [c]) <= |p|
  {
    var s := p + [c];
    assert s[|p|] == c;
    assert s[1..][|p| - 1] == c;
  }

  lemma MarkerHead(p: string, c: char)
    requires Marker(p) && IsSpace(c)
    ensures Head(p + [c]) == |p|
  {
    var s := p + [c];
    assert s[0] == p[0] && (|p| > 1 ==> s[1] == p[1]) && s[|p|] == c;
  }

  /** A space at the very end belongs to an unfinished token or is one itself. */
  lemma {:induction false} LastSpaceKeeps(p: string, c: char, m: string)
    requires IsSpace(c) && Marker(m)
    ensures m in Tokens(p) <==> m in Tokens(p + [c])
    decreases |p|
  {
    hide IsSpace, Head, TagLen;
    var s := p + [c];
    if p == "" {
      SpaceIsPlain(c);
      PlainToken(c, "");
      assert s == [c] + "";
    } else {
      TagBeforeSpace(p, c);
      HeadCut(p, [c]);
      if Head(s) <= |p| {
        TokensCut(s, p, [c]);
        assert s[Head(s)..] == p[Head(s)..] + [c];
        LastSpaceKeeps(p[Head(s)..], c, m);
      } else {
        assert s[..|s|] == s && p[..|p|] == p && s[|s|..] == "" && p[|p|..] == "";
        assert Tokens(s) == [s] && Tokens(p) == [p];
        assert s[|s| - 1] == c;
        SpaceIsPlain(c);
        if Marker(p) { MarkerHead(p, c); }
      }
    }
  }

  lemma SpaceIsPlain(c: char)
    requires IsSpace(c)
    ensures Plain(c) && c != ';'
  {
  }

  lemma {:induction false} StripRightKeeps(s: string, m: string)
    requires Marker(m)
    ensures m in Tokens(StripRight(s)) <==> m in Tokens(s)
    decreases |s|
  {
    if s != "" && IsSpace(s[|s| - 1]) {
      var p := s[..|s| - 1];
      assert s == p + [s[|s| - 1]];
      LastSpaceKeeps(p, s[|s| - 1], m);
      StripRightKeeps(p, m);
    }
  }

  lemma StripKeeps(s: string)
    ensures HasMark(Strip(s)) <==> HasMark(s)
    ensures HasSemicolon(Strip(s)) <==> HasSemicolon(s)
  {
    forall m | Marker(m) ensures m in Tokens(Strip(s)) <==> m in Tokens(s) {
      StripLeftKeeps(s, m);
      StripRightKeeps(StripLeft(s), m);
    }
    assert Marker("?") && Marker("??") && Marker(";");
  }

  predicate Trimmed(s: string) {
    s == "" || (!IsSpace(s[0]) && !IsSpace(s[|s| - 1]))
  }

  lemma StripRightPrefix(s: string)
    ensures StripRight(s) <= s
    ensures StripRight(s) == "" || !IsSpace(StripRight(s)[|StripRight(s)| - 1])
  {
  }

  lemma StripLeftTrims(s: string)
    ensures StripLeft(s) == "" || !IsSpace(StripLeft(s)[0])
  {
  }

  lemma StripTrims(s: string)
    ensures Trimmed(Strip(s))
    ensures Trimmed(s) ==> Strip(s) == s
  {
    StripLeftTrims(s);
    StripRightPrefix(StripLeft(s));
  }

  lemma TranslateNothing()
    ensures Translate("") == ""
  {
  }

  lemma RenderLast(t: string)
    requires t != ""
    ensures Render(t) != "" && (!IsSpace(t[|t| - 1]) ==> !IsSpace(Render(t)[|Render(t)| - 1]))
  {
  }

  lemma {:induction false} TranslateLast(s: string)
    requires s != "" && !IsSpace(s[|s| - 1])
    ensures Translate(s) != "" && !IsSpace(Translate(s)[|Translate(s)| - 1])
    decreases |s|
  {
    hide Translate, Head, IsSpace, Render;
    TranslateStep(s);
    RenderLast(s[..Head(s)]);
    if Head(s) < |s| {
      var rest := s[Head(s)..];
      assert rest[|rest| - 1] == s[|s| - 1];
      TranslateLast(rest);
    } else {
      assert s[..|s|] == s && s[|s|..] == "";
      TranslateNothing();
    }
  }

  lemma TranslateTrimmed(s: string)
    requires Trimmed(s)
    ensures Trimmed(Translate(s))
  {
    if s != "" {
      TranslateTag(s);
      TranslateLast(s);
    }
  }

  // ----- the statements of a script

  lemma {:induction false} StatementOf(segs: seq<string>, st: string) returns (i: nat)
    requires st in Statements(segs)
    ensures st != "" && i < |segs| && st == Strip(segs[i])
  {
    if st == Strip(segs[0]) && st != "" {
      i := 0;
    } else {
      i := StatementOf(segs[1..], st);
      i := i + 1;
    }
  }

  lemma {:induction false} StatementFrom(segs: seq<string>, i: nat)
    requires i < |segs| && Strip(segs[i]) != ""
    ensures Strip(segs[i]) in Statements(segs)
  {
    if i > 0 { StatementFrom(segs[1..], i - 1); }
  }

  lemma {:induction false} TokenOfSegment(segs: seq<string>, m: string) returns (i: nat)
    requires |segs| >= 1 && m in SegmentTokens(segs) && m != ";"
    ensures i < |segs| && m in Tokens(segs[i])
  {
    if m in Tokens(segs[0]) {
      i := 0;
    } else {
      i := TokenOfSegment(segs[1..], m);
      i := i + 1;
    }
  }

  lemma {:induction false} SegmentTokensContain(segs: seq<string>, i: nat, m: string)
    requires i < |segs| && m in Tokens(segs[i])
    ensures m in SegmentTokens(segs)
  {
    if i > 0 { SegmentTokensContain(segs[1..], i - 1, m); }
  }

  lemma SemicolonBetween(segs: seq<string>)
    requires |segs| >= 1
    ensures |segs| > 1 ==> ";" in SegmentTokens(segs)
  {
  }

  /** Text without a top-level semicolon is one segment. */
  lemma OneSegment(s: string)
    requires !HasSemicolon(s)
    ensures Segments(s) == [s]
  {
    CuttingKeepsTokens(s);
    SegmentsJoin(s);
    var segs := Segments(s);
    SemicolonBetween(segs);
  }

  /** Every statement is trimmed, not empty, and holds no top-level semicolon. */
  lemma StatementsAreSingle(script: string, st: string)
    requires st in Split(script)
    ensures st != "" && Trimmed(st) && !HasSemicolon(st)
    ensures Split(st) == [Translate(st)]
  {
    var segs := Segments(Translate(script));
    var i := StatementOf(segs, st);
    CuttingKeepsTokens(Translate(script));
    StripKeeps(segs[i]);
    StripTrims(segs[i]);
    TranslateMarks(st);
    OneSegment(Translate(st));
    TranslateTrimmed(st);
    TranslateTag(st);
    StripTrims(Translate(st));
    assert Statements([Translate(st)]) == [Translate(st)] + Statements([]);
  }

  lemma SegmentMark(text: string)
    requires HasMark(text)
    ensures exists i :: 0 <= i < |Segments(text)| && HasMark(Segments(text)[i])
  {
    CuttingKeepsTokens(text);
    var i := TokenOfSegment(Segments(text), if "?" in Tokens(text) then "?" else "??");
    assert HasMark(Segments(text)[i]);
  }

  /** Some statement of the script carries a top-level question mark exactly when the script has a '??'. */
  lemma MarkedStatement(script: string)
    ensures HasEscape(script) <==> exists st :: st in Split(script) && HasMark(st)
  {
    var text := Translate(script);
    var segs := Segments(text);
    TranslateMarks(script);
    CuttingKeepsTokens(text);
    if HasEscape(script) {
      SegmentMark(text);
      var i :| 0 <= i < |segs| && HasMark(segs[i]);
      StripKeeps(segs[i]);
      StatementFrom(segs, i);
      assert Strip(segs[i]) in Split(script) && HasMark(Strip(segs[i]));
    }
    forall st | st in Split(script) && HasMark(st) ensures HasEscape(script) {
      var i := StatementOf(segs, st);
      StripKeeps(segs[i]);
      SegmentTokensContain(segs, i, if "?" in Tokens(segs[i]) then "?" else "??");
    }
  }

  /** Splitting a statement again gives back just that statement, and executing it (which translates it
      again) leaves its text alone, for all statements of a script exactly when the script has no
      top-level '??'. */
  lemma StatementsAreStable(script: string)
    ensures (forall st :: st in Split(script) ==> Split(st) == [st]) <==> !HasEscape(script)
    ensures (forall st :: st in Split(script) ==> Translate(st) == st) <==> !HasEscape(script)
  {
    MarkedStatement(script);
    forall st | st in Split(script)
      ensures (Split(st) == [st] <==> !HasMark(st)) && (Translate(st) == st <==> !HasMark(st))
    {
      StatementsAreSingle(script, st);
      TranslateFixpoint(st);
    }
  }

  /** The failing family at its smallest: an escaped question mark ends up as a bind parameter. */
  lemma EscapeIsLost()
    ensures HasEscape("??") && Split("??") == ["?"] && Translate("?") == "%s"
  {
    MarkToken("?");
    MarkToken("");
    assert "?" + "?" == "??" && "?" + "" == "?" && "?"[1..] == "";
    assert Tokens("") == [] && Translate("") == "";
    assert Translate("??") == "?" && Translate("?") == "%s";
    assert !HasSemicolon("?");
    OneSegment("?");
    StripTrims("?");
    assert Trimmed("?");
  }
}
