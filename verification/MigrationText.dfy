/** What text the reader of royells_v20_postgres/migrations.py produces, in lines and characters: which lines are
    includes, of what file, and which lines the whole comes to. */
module MigrationText {
  import opened Prelude
  import opened SqlTokens
  import opened SqlQuotes
  import opened MigrationScripts

  // ----- include lines

  predicate Quotes(s: string) { forall i :: 0 <= i < |s| ==> s[i] == '\'' || s[i] == '"' }

  predicate Unquoted(s: string) {
    s != "" ==> s[0] != '\'' && s[0] != '"' && s[|s| - 1] != '\'' && s[|s| - 1] != '"'
  }

  lemma {:induction false} QuotesGo(q: string, name: string, q': string)
    requires Quotes(q) && Quotes(q') && Unquoted(name)
    ensures StripQuotesRight(StripQuotesLeft(q + name + q')) == name
  {
    if name == "" {
      assert q + name + q' == (q + q') + "";
      LeftGoes(q + q', "");
    } else {
      assert q + name + q' == q + (name + q');
      LeftGoes(q, name + q');
      RightGoes(name, q');
    }
  }

  lemma {:induction false} LeftGoes(q: string, s: string)
    requires Quotes(q) && (s != "" ==> s[0] != '\'' && s[0] != '"')
    ensures StripQuotesLeft(q + s) == s
  {
    if q == "" {
      assert q + s == s;
    } else {
      assert (q + s)[1..] == q[1..] + s;
      LeftGoes(q[1..], s);
    }
  }

  lemma {:induction false} RightGoes(s: string, q: string)
    requires Quotes(q) && (s != "" ==> s[|s| - 1] != '\'' && s[|s| - 1] != '"')
    ensures StripQuotesRight(s + q) == s
  {
    if q == "" {
      assert s + q == s;
    } else {
      assert (s + q)[..|s + q| - 1] == s + q[..|q| - 1];
      RightGoes(s, q[..|q| - 1]);
    }
  }

  /** A line that starts, blanks aside, with \ir or \i and a blank includes the file named behind it: blanks around
      the name go first and then quotes around it. */
  lemma IncludeNamed(t: Tree, p: Path, a: string, word: string, gap: string, q: string, name: string, q': string,
                     z: string)
    requires Blank(a) && Blank(gap) && Blank(z) && (word == "\\ir " || word == "\\i ")
    requires Quotes(q) && Quotes(q') && Unquoted(name) && Visible(q + name + q')
    ensures Included(t, p, a + (word + gap + (q + name + q')) + z) == Some(t.relative(p, name))
  {
    hide Strip, StripQuotesLeft, StripQuotesRight, Included, Unquoted, Quotes, Blank;
    var file := q + name + q';
    var m := word + gap + file;
    WordThenFile(word, gap, file);
    StripOf(a, m, z);
    GapGoes(gap, file);
    QuotesGo(q, name, q');
    IncludedBy(t, p, a + m + z, word);
  }

  lemma WordThenFile(word: string, gap: string, file: string)
    requires (word == "\\ir " || word == "\\i ") && Visible(file)
    ensures var m := word + gap + file; Visible(m) && word <= m && m[|word|..] == gap + file
  {
  }

  lemma GapGoes(gap: string, file: string)
    requires Blank(gap) && Visible(file)
    ensures Strip(gap + file) == file
  {
    assert gap + file + "" == gap + file;
    StripOf(gap, file, "");
  }

  lemma IncludedBy(t: Tree, p: Path, line: string, word: string)
    requires word <= Strip(line) && (word == "\\ir " || word == "\\i ")
    ensures Included(t, p, line) == Some(t.relative(p, IncludeName(Strip(line)[|word|..])))
  {
    hide Strip, IncludeName;
    assert Strip(line)[2] == word[2];
  }

  /** The line holds the word behind nothing but blanks, and something that is no blank behind it. */
  ghost predicate Announces(line: string, word: string) {
    exists n, m :: 0 <= n && n + |word| <= m < |line| && Blank(line[..n]) && line[n..n + |word|] == word
      && line[m] as int !in BLANKS
  }

  /** No other line includes anything. */
  lemma IncludeExactly(t: Tree, p: Path, line: string)
    ensures Included(t, p, line).Some? <==> Announces(line, "\\ir ") || Announces(line, "\\i ")
  {
    hide Strip, IncludeName;
    WordAhead(line, "\\ir ");
    WordAhead(line, "\\i ");
  }

  lemma StartsVisible(a: string, m: string, z: string, n: nat)
    requires Visible(m) && n <= |a + m + z|
    ensures n > |a| ==> !Blank((a + m + z)[..n])
  {
    if n > |a| { assert (a + m + z)[..n][|a|] == m[0]; }
  }

  lemma WordAhead(line: string, word: string)
    requires word != "" && word[0] as int !in BLANKS && word[|word| - 1] == ' '
    ensures word <= Strip(line) <==> Announces(line, word)
  {
    hide Strip, Announces, Visible;
    var a, m, z := Middle(line);
    if word <= m { AnnouncedBy(a, m, z, word); }
    if Announces(line, word) { AnnouncedIs(a, m, z, word); }
  }

  lemma AnnouncedBy(a: string, m: string, z: string, word: string)
    requires Blank(a) && (m == "" || Visible(m)) && word != "" && word <= m && word[|word| - 1] == ' '
    ensures Announces(a + m + z, word)
  {
    var line, k, j := a + m + z, |word|, |a| + |m| - 1;
    assert m[k - 1] == ' ';
    assert |m| > k;
    assert line[..|a|] == a && line[|a|..|a| + k] == m[..k] == word && line[j] == m[|m| - 1];
    assert |a| + k <= j < |line| && Blank(line[..|a|]);
  }

  lemma AnnouncedIs(a: string, m: string, z: string, word: string)
    requires Blank(a) && Blank(z) && (m == "" || Visible(m)) && word != "" && word[0] as int !in BLANKS
    requires Announces(a + m + z, word)
    ensures word <= m
  {
    var line, k := a + m + z, |word|;
    var n, j :| 0 <= n && n + k <= j < |line| && Blank(line[..n]) && line[n..n + k] == word
      && line[j] as int !in BLANKS;
    assert line[n] == word[0];
    BlankEnds(a, m, z, n);
    BlankEnds(a, m, z, j);
    StartsVisible(a, m, z, n);
    assert n == |a| && m[..k] == line[n..n + k];
  }

  lemma BlankEnds(a: string, m: string, z: string, i: nat)
    requires Blank(a) && Blank(z) && i < |a + m + z| && (a + m + z)[i] as int !in BLANKS
    ensures |a| <= i < |a| + |m|
  {
    var s := a + m + z;
    assert forall j :: 0 <= j < |a| ==> s[j] == a[j];
    assert forall j :: |a| + |m| <= j < |s| ==> s[j] == z[j - |a| - |m|];
  }

  // ----- the lines of a text

  /** The pieces of s between its newlines. */
  function Cut(s: string): (r: seq<string>)
    ensures |r| >= 1
  {
    if s == "" then [""]
    else if s[0] == '\n' then [""] + Cut(s[1..])
    else [[s[0]] + Cut(s[1..])[0]] + Cut(s[1..])[1..]
  }

  lemma {:induction false} CutLine(line: string)
    requires '\n' !in line
    ensures Cut(line) == [line]
  {
    if line != "" {
      CutLine(line[1..]);
      assert [line[0]] + line[1..] == line;
    }
  }

  lemma {:induction false} CutAt(a: string, b: string)
    ensures Cut(a + "\n" + b) == Cut(a) + Cut(b)
  {
    hide Cut;
    var s := a + "\n" + b;
    if a == "" {
      CutNext(s);
      CutLine("");
      assert s[1..] == b;
    } else {
      assert s[1..] == a[1..] + "\n" + b && s[0] == a[0];
      CutAt(a[1..], b);
      CutNext(s);
      CutNext(a);
      PiecesAssoc(s[0], Cut(a[1..]), Cut(b));
    }
  }

  lemma PiecesAssoc(c: char, first: seq<string>, rest: seq<string>)
    requires |first| >= 1
    ensures [""] + (first + rest) == ([""] + first) + rest
    ensures var all := first + rest; [[c] + all[0]] + all[1..] == [[c] + first[0]] + first[1..] + rest
  {
    assert (first + rest)[1..] == first[1..] + rest;
  }

  lemma CutNext(s: string)
    requires s != ""
    ensures var more := Cut(s[1..]);
      Cut(s) == if s[0] == '\n' then [""] + more else [[s[0]] + more[0]] + more[1..]
  {
  }

  /** Lines as splitlines gives them. */
  ghost predicate Lines(lines: seq<string>) { forall i :: 0 <= i < |lines| ==> '\n' !in lines[i] }

  /** The lines with the lines of each included text in the place of its include line. */
  function Spliced(t: Tree, p: Path, lines: seq<string>, active: set<Path>): seq<string>
    requires ExpandLines(t, p, lines, active).Ok?
  {
    if lines == [] then []
    else
      var q := Included(t, p, lines[0]);
      (if q.Some? then Cut(Expand(t, q.value, active).value) else [lines[0]]) + Spliced(t, p, lines[1..], active)
  }

  lemma {:induction false} JoinedCuts(output: seq<string>, more: string)
    requires output != []
    ensures Cut(Joined(output) + "\n" + more) == Pieces(output) + Cut(more)
  {
    if |output| == 1 {
      CutAt(output[0], more);
      assert output[1..] == [] && Pieces(output[1..]) == [];
      assert Cut(output[0]) + [] == Cut(output[0]);
    } else {
      var rest := Joined(output[1..]) + "\n" + more;
      assert Joined(output) + "\n" + more == output[0] + "\n" + rest;
      CutAt(output[0], rest);
      JoinedCuts(output[1..], more);
      Assoc(Cut(output[0]), Pieces(output[1..]), Cut(more));
    }
  }

  function Pieces(output: seq<string>): seq<string> {
    if output == [] then [] else Cut(output[0]) + Pieces(output[1..])
  }

  lemma {:induction false} OutputPieces(t: Tree, p: Path, lines: seq<string>, active: set<Path>)
    requires ExpandLines(t, p, lines, active).Ok? && Lines(lines)
    ensures Pieces(ExpandLines(t, p, lines, active).value) == Spliced(t, p, lines, active)
    ensures |ExpandLines(t, p, lines, active).value| == |lines|
    decreases |lines|
  {
    hide Included, Expand;
    if lines != [] {
      OutputPieces(t, p, lines[1..], active);
      var q := Included(t, p, lines[0]);
      var x := if q.Some? then Expand(t, q.value, active).value else lines[0];
      var more := ExpandLines(t, p, lines[1..], active).value;
      assert ExpandLines(t, p, lines, active).value == [x] + more;
      assert ([x] + more)[1..] == more;
      if q.None? { CutLine(lines[0]); }
    }
  }

  /** The text of a file is its lines, with the lines of each included text in the place of its include line and an
      empty piece behind the last newline; of an empty file it is one empty line. */
  lemma TextIsItsLines(t: Tree, p: Path, active: set<Path>)
    requires Expand(t, p, active).Ok? && Lines(t.files[p])
    ensures Cut(Expand(t, p, active).value) ==
      (if t.files[p] == [] then [""] else Spliced(t, p, t.files[p], active + {p})) + [""]
  {
    var output := ExpandLines(t, p, t.files[p], active + {p}).value;
    OutputPieces(t, p, t.files[p], active + {p});
    assert Expand(t, p, active) == Ok(Text(output));
    if output != [] {
      JoinedCuts(output, "");
      assert Joined(output) + "\n" + "" == Text(output);
    } else {
      assert Text(output) == "\n" && "\n"[1..] == "";
    }
  }

  /** Without an include line they are the lines of the file. */
  lemma {:induction false} PlainLines(t: Tree, p: Path, lines: seq<string>, active: set<Path>)
    requires forall i :: 0 <= i < |lines| ==> !Announces(lines[i], "\\ir ") && !Announces(lines[i], "\\i ")
    ensures ExpandLines(t, p, lines, active).Ok? && Spliced(t, p, lines, active) == lines
    decreases |lines|
  {
    hide Included, Expand, Announces;
    if lines != [] {
      IncludeExactly(t, p, lines[0]);
      PlainLines(t, p, lines[1..], active);
      assert [lines[0]] + lines[1..] == lines;
    }
  }

  /** A file of the root without an include is read as it stands. */
  lemma PlainFile(t: Tree, p: Path)
    requires t.inside(p) && p in t.files && t.files[p] != [] && Lines(t.files[p])
    requires forall i :: 0 <= i < |t.files[p]| ==>
      !Announces(t.files[p][i], "\\ir ") && !Announces(t.files[p][i], "\\i ")
    ensures Expand(t, p, {}).Ok? && Cut(Expand(t, p, {}).value) == t.files[p] + [""]
  {
    hide Announces, Included;
    PlainLines(t, p, t.files[p], {} + {p});
    TextIsItsLines(t, p, {});
  }

  // ----- the statements that are left out

  /** c is the letter in either case; a dotless i, whose capital is I, stands for an I as well. */
  predicate IsLetter(c: char, letter: char) {
    c == letter || c as int == letter as int + 32 || (letter == 'I' && c as int == 0x131)
  }

  predicate Spells(s: string, word: string) {
    |s| == |word| && forall i :: 0 <= i < |s| ==> IsLetter(s[i], word[i])
  }

  lemma UpperLetter(c: char, letter: char)
    requires 'A' <= letter <= 'Z'
    ensures (if c == '\U{0131}' then 'I' else Capital(c)) == letter <==> IsLetter(c, letter)
  {
  }

  lemma {:induction false} UpperSpells(s: string, word: string)
    requires forall i :: 0 <= i < |word| ==> 'A' <= word[i] <= 'Z'
    ensures Upper(s) == word <==> Spells(s, word)
  {
    hide IsLetter, Capital;
    if s != "" && word != "" {
      UpperSpells(s[1..], word[1..]);
      UpperLetter(s[0], word[0]);
      assert word == [word[0]] + word[1..];
      assert forall i :: 0 < i < |s| ==> s[i] == s[1..][i - 1];
      assert forall i :: 0 < i < |word| ==> word[i] == word[1..][i - 1];
    }
  }

  predicate Dropped(st: string) { Spells(Strip(st), "BEGIN") || Spells(Strip(st), "COMMIT") }

  lemma NothingSent(rest: seq<string>)
    ensures Sent([]) + rest == rest
  {
  }

  lemma SentNext(sts: seq<string>)
    requires sts != []
    ensures Sent(sts) == (if Dropped(sts[0]) then [] else [Translate(sts[0])]) + Sent(sts[1..])
  {
    hide Translate, Strip, Upper, Spells;
    UpperSpells(Strip(sts[0]), "BEGIN");
    UpperSpells(Strip(sts[0]), "COMMIT");
  }

  /** Left out is a statement that spells BEGIN or COMMIT, blanks aside, and every other reaches the driver in its
      place. */
  lemma {:induction false} LeftOut(before: seq<string>, st: string, behind: seq<string>)
    ensures Sent(before + [st] + behind) ==
      Sent(before) + (if Dropped(st) then [] else [Translate(st)]) + Sent(behind)
  {
    hide Sent, Spells, Strip, Translate;
    var sts := before + [st] + behind;
    var rest := (if Dropped(st) then [] else [Translate(st)]) + Sent(behind);
    SentNext(sts);
    if before == [] {
      assert sts == [st] + behind && sts[1..] == behind;
      NothingSent(rest);
    } else {
      LeftOut(before[1..], st, behind);
      SentNext(before);
      assert sts[1..] == before[1..] + [st] + behind && sts[0] == before[0];
      Assoc(if Dropped(before[0]) then [] else [Translate(before[0])], Sent(before[1..]), rest);
      Assoc(Sent(before), if Dropped(st) then [] else [Translate(st)], Sent(behind));
      Assoc(Sent(before[1..]), if Dropped(st) then [] else [Translate(st)], Sent(behind));
    }
  }
}
