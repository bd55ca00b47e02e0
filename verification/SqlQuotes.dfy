/** What opens a literal, comment or dollar-quoted body, what ends it and what is left alone, in the characters
    themselves.  Every text begins in one of the ways stated here, so together they fix both machines. */
module SqlQuotes {
  import opened SqlTokens
  import opened SqlLaws

  /** Text between the two '$' of a dollar tag. */
  predicate TagText(w: string) {
    forall i :: 0 <= i < |w| ==> 'A' <= w[i] <= 'Z' || 'a' <= w[i] <= 'z' || '0' <= w[i] <= '9' || w[i] == '_'
  }

  function Tag(w: string): string { "$" + w + "$" }

  predicate At(text: string, pat: string, n: nat) { n + |pat| <= |text| && text[n..n + |pat|] == pat }

  predicate FirstAt(text: string, pat: string, n: nat) {
    At(text, pat, n) && forall i :: 0 <= i < n ==> !At(text, pat, i)
  }

  /** b with every q written twice. */
  function Doubled(b: string, q: char): string {
    if b == "" then "" else (if b[0] == q then [q, q] else [b[0]]) + Doubled(b[1..], q)
  }

  /** In t + r the text t is neither changed nor cut, and r is read as if it stood alone. */
  predicate Kept(t: string, r: string) {
    && Translate(t + r) == t + Translate(r)
    && Segments(t + r) == [t + Segments(r)[0]] + Segments(r)[1..]
  }

  lemma TokenKept(t: string, r: string)
    requires t != "" && t[0] != ';' && t[0] != '?' && Head(t + r) == |t|
    ensures Kept(t, r)
  {
    hide Head;
    var s := t + r;
    assert s[..|t|] == t && s[|t|..] == r;
    TranslateStep(s);
    SegmentsNext(s);
  }

  // ----- first occurrences

  lemma {:induction false} ThroughFirst(text: string, pat: string, n: nat)
    requires pat != "" && FirstAt(text, pat, n)
    ensures Through(text, pat) == n + |pat|
  {
    if n == 0 {
      assert pat <= text;
    } else {
      var rest := text[1..];
      assert !At(text, pat, 0);
      assert At(rest, pat, n - 1) by { assert rest[n - 1..n - 1 + |pat|] == text[n..n + |pat|]; }
      forall i | 0 <= i < n - 1 ensures !At(rest, pat, i) {
        assert rest[i..i + |pat|] == text[i + 1..i + 1 + |pat|];
        assert !At(text, pat, i + 1);
      }
      ThroughFirst(rest, pat, n - 1);
    }
  }

  lemma FirstStays(b: string, pat: string, r: string)
    requires pat != "" && FirstAt(b + pat, pat, |b|)
    ensures FirstAt(b + pat + r, pat, |b|)
  {
    var s := b + pat;
    assert (s + r)[|b|..|b| + |pat|] == s[|b|..|b| + |pat|];
    forall i | 0 <= i < |b| ensures !At(s + r, pat, i) {
      assert (s + r)[i..i + |pat|] == s[i..i + |pat|];
      assert !At(s, pat, i);
    }
  }

  lemma {:induction false} ThroughNothing(text: string, pat: string)
    requires pat != "" && forall i :: 0 <= i <= |text| ==> !At(text, pat, i)
    ensures Through(text, pat) == |text|
  {
    assert !At(text, pat, 0);
    if text != "" {
      var rest := text[1..];
      forall i | 0 <= i <= |rest| ensures !At(rest, pat, i) {
        assert !At(text, pat, i + 1);
        if i + |pat| <= |rest| { assert rest[i..i + |pat|] == text[i + 1..i + 1 + |pat|]; }
      }
      ThroughNothing(rest, pat);
    }
  }

  // ----- dollar-quoted bodies

  lemma {:induction false} TagTailOf(w: string, x: string)
    requires TagText(w)
    ensures TagTail(w + "$" + x) == |w| + 1
  {
    var s := w + "$" + x;
    if w != "" {
      assert s[1..] == w[1..] + "$" + x;
      TagTailOf(w[1..], x);
    }
  }

  lemma TagLenOf(w: string, x: string)
    requires TagText(w)
    ensures TagLen(Tag(w) + x) == |w| + 2
  {
    TagTailOf(w, x);
    assert (Tag(w) + x)[1..] == w + "$" + x;
  }

  /** A tag opens a body that ends with the next occurrence of the same tag, whatever stands between; the tag
      may be empty, and without a second one the body is the rest of the text. */
  lemma DollarBody(w: string, b: string, r: string)
    requires TagText(w)
    ensures FirstAt(b + Tag(w), Tag(w), |b|) ==> Kept(Tag(w) + b + Tag(w), r)
    ensures (forall i :: 0 <= i <= |b| ==> !At(b, Tag(w), i)) ==> Kept(Tag(w) + b, "")
  {
    hide Through, TagTail, TagLen, Tag, Translate, Segments;
    var tag := Tag(w);
    DollarTag(w);
    if FirstAt(b + tag, tag, |b|) {
      var t := tag + b + tag;
      var s := t + r;
      assert s == tag + (b + tag + r);
      TagLenOf(w, b + tag + r);
      DollarHead(s);
      assert s[..|tag|] == tag && s[|tag|..] == b + tag + r;
      FirstStays(b, tag, r);
      ThroughFirst(b + tag + r, tag, |b|);
      assert t[0] == tag[0];
      TokenKept(t, r);
    }
    if forall i :: 0 <= i <= |b| ==> !At(b, tag, i) {
      var t := tag + b;
      assert t + "" == t;
      TagLenOf(w, b);
      DollarHead(t);
      assert t[..|tag|] == tag && t[|tag|..] == b;
      ThroughNothing(b, tag);
      assert t[0] == tag[0];
      TokenKept(t, "");
    }
  }

  lemma DollarTag(w: string)
    ensures |Tag(w)| == |w| + 2 && Tag(w)[0] == '$' && Tag(w)[|w| + 1] == '$'
  {
  }

  lemma DollarHead(s: string)
    requires TagLen(s) > 0
    ensures Head(s) == TagLen(s) + Through(s[TagLen(s)..], s[..TagLen(s)])
  {
    hide Through, TagTail;
  }

  /** And such a body is one statement, left as it is, however many semicolons and question marks it holds. */
  lemma DollarStatement(w: string, b: string)
    requires TagText(w) && FirstAt(b + Tag(w), Tag(w), |b|)
    ensures Translate(Tag(w) + b + Tag(w)) == Tag(w) + b + Tag(w)
    ensures Split(Tag(w) + b + Tag(w)) == [Tag(w) + b + Tag(w)]
  {
    var t := Tag(w) + b + Tag(w);
    DollarBody(w, b, "");
    DollarTag(w);
    assert t + "" == t && t[0] == '$' && t[|t| - 1] == '$';
    OneText(t);
  }

  lemma OneText(t: string)
    requires t != "" && Kept(t, "") && Trimmed(t)
    ensures Translate(t) == t && Split(t) == [t]
  {
    assert t + "" == t;
    assert Translate("") == "" && Segments("") == [""];
    StripTrims(t);
    assert Statements([t]) == [t] + Statements([]);
  }

  lemma {:induction false} TagTailIs(r: string)
    requires TagTail(r) > 0
    ensures TagText(r[..TagTail(r) - 1]) && r[TagTail(r) - 1] == '$'
  {
    if r[0] != '$' {
      TagTailIs(r[1..]);
      var n := TagTail(r[1..]);
      assert r[..n] == [r[0]] + r[1..][..n - 1];
    }
  }

  // ----- quotes and comments

  lemma {:induction false} QuotedOf(b: string, q: char, r: string)
    ensures QuotedThrough(Doubled(b, q) + r, q) == |Doubled(b, q)| + QuotedThrough(r, q)
  {
    var s := Doubled(b, q) + r;
    if b == "" {
      assert s == r;
    } else {
      var rest := Doubled(b[1..], q) + r;
      QuotedOf(b[1..], q, r);
      if b[0] == q {
        assert s[0] == q && s[1] == q && s[2..] == rest;
      } else {
        assert s[0] == b[0] && s[1..] == rest;
      }
    }
  }

  lemma QuoteEnds(q: char, r: string)
    requires r != "" ==> r[0] != q
    ensures QuotedThrough([q] + r, q) == 1 && QuotedThrough("", q) == 0
  {
  }

  /** Text between single or double quotes runs to the first quote that is not doubled, or to the end. */
  lemma Quoted(q: char, b: string, r: string)
    requires q == '\'' || q == '"'
    ensures (r != "" ==> r[0] != q) ==> Kept([q] + Doubled(b, q) + [q], r)
    ensures Kept([q] + Doubled(b, q), "")
  {
    hide QuotedThrough, Translate, Segments, Doubled;
    var d := Doubled(b, q);
    if r != "" ==> r[0] != q {
      var t := [q] + d + [q];
      assert (t + r)[1..] == d + ([q] + r) && (t + r)[0] == q;
      QuotedOf(b, q, [q] + r);
      QuoteEnds(q, r);
      TokenKept(t, r);
    }
    var t := [q] + d;
    assert t + "" == t && t[1..] == d && d + "" == d;
    QuotedOf(b, q, "");
    QuoteEnds(q, "");
    TokenKept(t, "");
  }

  lemma LineHead(s: string)
    requires "--" <= s
    ensures Head(s) == 2 + Through(s[2..], "\n")
  {
  }

  lemma BlockHead(s: string)
    requires "/*" <= s
    ensures Head(s) == 2 + Through(s[2..], "*/")
  {
    assert s[0] == '/';
  }

  lemma EndOfLine(b: string, r: string)
    requires '\n' !in b
    ensures FirstAt(b + "\n" + r, "\n", |b|)
    ensures forall i :: 0 <= i <= |b| ==> !At(b, "\n", i)
  {
    var s := b + "\n" + r;
    assert s[|b|..|b| + 1] == [s[|b|]];
    forall i | 0 <= i < |b| ensures !At(s, "\n", i) && !At(b, "\n", i) {
      assert s[i..i + 1] == [b[i]] == b[i..i + 1];
    }
  }

  /** "--" opens a comment that ends with the line. */
  lemma LineComment(b: string, r: string)
    requires '\n' !in b
    ensures Kept("--" + b + "\n", r) && Kept("--" + b, "")
  {
    hide Through, Head, Translate, Segments;
    var t := "--" + b + "\n";
    var s := t + r;
    assert s[..2] == "--" && s[2..] == b + "\n" + r;
    LineHead(s);
    EndOfLine(b, r);
    ThroughFirst(b + "\n" + r, "\n", |b|);
    TokenKept(t, r);
    var u := "--" + b;
    assert u + "" == u && u[..2] == "--" && u[2..] == b;
    LineHead(u);
    ThroughNothing(b, "\n");
    TokenKept(u, "");
  }

  /** And a slash and a star open one that ends with the first star and slash behind them. */
  lemma BlockComment(b: string, r: string)
    ensures FirstAt(b + "*/", "*/", |b|) ==> Kept("/*" + b + "*/", r)
    ensures (forall i :: 0 <= i <= |b| ==> !At(b, "*/", i)) ==> Kept("/*" + b, "")
  {
    hide Through, Head, Translate, Segments;
    if FirstAt(b + "*/", "*/", |b|) {
      var t := "/*" + b + "*/";
      var s := t + r;
      assert s[..2] == "/*" && s[2..] == b + "*/" + r;
      BlockHead(s);
      FirstStays(b, "*/", r);
      ThroughFirst(b + "*/" + r, "*/", |b|);
      TokenKept(t, r);
    }
    if forall i :: 0 <= i <= |b| ==> !At(b, "*/", i) {
      var u := "/*" + b;
      assert u + "" == u && u[..2] == "/*" && u[2..] == b;
      BlockHead(u);
      ThroughNothing(b, "*/");
      TokenKept(u, "");
    }
  }

  // ----- single characters

  predicate Starts(r: string, c: char) { r != "" && r[0] == c }

  /** A character that opens nothing stands for itself: a dash before no dash, a slash before no star, a dollar
      sign behind which no tag is finished, and every character that is not special at all. */
  lemma Ordinary(c: char, r: string)
    requires c !in "'\"?;"
    requires c == '-' ==> !Starts(r, '-')
    requires c == '/' ==> !Starts(r, '*')
    requires c == '$' ==> !exists n :: 0 <= n < |r| && TagText(r[..n]) && r[n] == '$'
    ensures Kept([c], r)
  {
    hide Through, TagTail, Translate, Segments;
    var s := [c] + r;
    assert s[1..] == r;
    if TagLen(s) > 0 { TagTailIs(r); }
    TokenKept([c], r);
  }

  lemma MarkAlone(r: string)
    requires !Starts(r, '?')
    ensures Head("?" + r) == 1
  {
    var s := "?" + r;
    assert s[0] == '?' && s[1..] == r;
    assert r != "" ==> s[1] == r[0];
  }

  /** A question mark is a parameter, two of them are one question mark, and neither ends a statement. */
  lemma Questions(r: string)
    ensures !Starts(r, '?') ==> Translate("?" + r) == "%s" + Translate(r)
    ensures Translate("??" + r) == "?" + Translate(r)
    ensures Segments("?" + r) == ["?" + Segments(r)[0]] + Segments(r)[1..]
  {
    if !Starts(r, '?') {
      var s := "?" + r;
      assert s[..1] == "?" && s[1..] == r;
      MarkAlone(r);
      TranslateStep(s);
    }
    var s := "??" + r;
    assert s[0] == '?' && s[..2] == "??" && s[2..] == r;
    assert Head(s) == 2;
    TranslateStep(s);
    QuestionSegments(r);
  }

  lemma {:induction false} QuestionSegments(r: string)
    ensures Segments("?" + r) == ["?" + Segments(r)[0]] + Segments(r)[1..]
    decreases |r|
  {
    hide Segments;
    var s := "?" + r;
    SegmentsNext(s);
    if Starts(r, '?') {
      var y := r[1..];
      assert s[..2] == "??" && s[2..] == y && r == "?" + y;
      assert Head(s) == 2;
      QuestionSegments(y);
      assert "?" + ("?" + Segments(y)[0]) == "??" + Segments(y)[0];
    } else {
      assert s[..1] == "?" && s[1..] == r;
      MarkAlone(r);
    }
  }

  /** A semicolon ends the statement. */
  lemma Semicolon(r: string)
    ensures Translate(";" + r) == ";" + Translate(r) && Segments(";" + r) == [""] + Segments(r)
  {
    var s := ";" + r;
    assert s[0] == ';' && s[..1] == ";" && s[1..] == r;
    assert Head(s) == 1;
    TranslateStep(s);
  }

  // ----- stripping

  /** The twenty-nine blanks. */
  const BLANKS := {9, 10, 11, 12, 13, 28, 29, 30, 31, 32, 0x85, 0xA0, 0x1680, 0x2000, 0x2001, 0x2002, 0x2003, 0x2004,
    0x2005, 0x2006, 0x2007, 0x2008, 0x2009, 0x200A, 0x2028, 0x2029, 0x202F, 0x205F, 0x3000}

  predicate Blank(s: string) { forall i :: 0 <= i < |s| ==> s[i] as int in BLANKS }

  lemma BlanksAre(c: char)
    ensures IsSpace(c) <==> c as int in BLANKS
  {
  }

  lemma {:induction false} StripLeftOf(a: string, s: string)
    requires Blank(a) && (s != "" ==> s[0] as int !in BLANKS)
    ensures StripLeft(a + s) == s
  {
    if a == "" {
      assert a + s == s;
    } else {
      BlanksAre(a[0]);
      assert (a + s)[1..] == a[1..] + s;
      StripLeftOf(a[1..], s);
    }
  }

  lemma {:induction false} StripRightOf(s: string, z: string)
    requires Blank(z) && (s != "" ==> s[|s| - 1] as int !in BLANKS)
    ensures StripRight(s + z) == s
  {
    if z == "" {
      assert s + z == s;
    } else {
      BlanksAre(z[|z| - 1]);
      assert (s + z)[..|s + z| - 1] == s + z[..|z| - 1];
      StripRightOf(s, z[..|z| - 1]);
    }
  }

  /** Stripping takes the blanks from both ends and nothing else. */
  lemma StripOf(a: string, m: string, z: string)
    requires Blank(a) && Blank(z)
    requires m != "" ==> m[0] as int !in BLANKS && m[|m| - 1] as int !in BLANKS
    ensures Strip(a + m + z) == m
  {
    if m == "" {
      var s := a + m + z;
      assert Blank(s) && s + "" == s;
      StripLeftOf(s, "");
    } else {
      assert a + m + z == a + (m + z);
      StripLeftOf(a, m + z);
      StripRightOf(m, z);
    }
  }

  predicate Visible(s: string) { s != "" && s[0] as int !in BLANKS && s[|s| - 1] as int !in BLANKS }

  /** Every text is what stripping leaves of it with blanks around. */
  lemma {:induction false} Middle(s: string) returns (a: string, m: string, z: string)
    ensures s == a + m + z && Blank(a) && Blank(z) && m == Strip(s) && (m == "" || Visible(m))
  {
    if s == "" {
      a, m, z := "", "", "";
    } else if s[0] as int in BLANKS {
      a, m, z := Middle(s[1..]);
      a := [s[0]] + a;
      assert s == [s[0]] + s[1..];
      StripOf(a, m, z);
    } else {
      a, m, z := MiddleLeft(s);
      StripOf(a, m, z);
    }
  }

  lemma {:induction false} MiddleLeft(s: string) returns (a: string, m: string, z: string)
    requires s != "" && s[0] as int !in BLANKS
    ensures s == a + m + z && a == "" && Blank(z) && Visible(m)
  {
    var front := s[..|s| - 1];
    if s[|s| - 1] as int in BLANKS {
      a, m, z := MiddleLeft(front);
      z := z + [s[|s| - 1]];
      assert s == front + [s[|s| - 1]];
    } else {
      a, m, z := "", s, "";
    }
  }

  /** Nothing is left exactly of blanks. */
  lemma BlankStrips(s: string)
    ensures Strip(s) == "" <==> Blank(s)
  {
    var a, m, z := Middle(s);
    if m != "" { assert s[|a|] == m[0]; }
  }

  // ----- whole statements

  /** Text of which both machines read character after character. */
  predicate PlainText(x: string) {
    forall i :: 0 <= i < |x| ==> x[i] !in "'\"$-/?;"
  }

  lemma {:induction false} PlainKept(x: string, r: string)
    requires PlainText(x)
    ensures Kept(x, r)
  {
    hide Translate, Segments;
    if x == "" {
      assert x + r == r && x + Translate(r) == Translate(r) && x + Segments(r)[0] == Segments(r)[0];
    } else {
      var y := x[1..];
      PlainKept(y, r);
      Ordinary(x[0], y + r);
      assert x + r == [x[0]] + (y + r) && x == [x[0]] + y;
      assert [x[0]] + (y + Translate(r)) == x + Translate(r);
      assert [x[0]] + (y + Segments(r)[0]) == x + Segments(r)[0];
    }
  }

  /** Of a statement of plain text the blanks around it go and the rest stays, with or without a semicolon behind
      it; the statements behind that follow in order, and where it is blank there is none. */
  lemma PlainStatement(a: string, x: string, z: string, r: string)
    requires Blank(a) && Blank(z) && PlainText(x)
    requires x != "" ==> x[0] as int !in BLANKS && x[|x| - 1] as int !in BLANKS
    ensures Split(a + x + z + ";" + r) == (if x == "" then [] else [x]) + Split(r)
    ensures Split(a + x + z) == if x == "" then [] else [x]
  {
    hide Translate, Segments, Strip, Statements;
    var t := a + x + z;
    assert PlainText(t);
    PlainEnds(t, r);
    StripOf(a, x, z);
    StatementsNext(t, Segments(Translate(r)));
    PlainAlone(t);
    StatementsNext(t, []);
    NoStatements();
    assert [t] + [] == [t];
  }

  lemma NoStatements()
    ensures Statements([]) == []
  {
  }

  lemma PlainAlone(t: string)
    requires PlainText(t)
    ensures Segments(Translate(t)) == [t]
  {
    PlainKept(t, "");
    assert t + "" == t && Translate("") == "" && Segments("") == [""];
  }

  lemma PlainEnds(t: string, r: string)
    requires PlainText(t)
    ensures Segments(Translate(t + ";" + r)) == [t] + Segments(Translate(r))
  {
    hide Translate, Segments;
    assert t + ";" + r == t + (";" + r);
    PlainKept(t, ";" + r);
    Semicolon(r);
    PlainKept(t, ";" + Translate(r));
    Semicolon(Translate(r));
    var segs := Segments(Translate(r));
    assert ([""] + segs)[1..] == segs && t + "" == t;
  }

  lemma StatementsNext(t: string, segs: seq<string>)
    ensures Statements([t] + segs) == (if Strip(t) == "" then [] else [Strip(t)]) + Statements(segs)
  {
    assert ([t] + segs)[1..] == segs;
  }
}
