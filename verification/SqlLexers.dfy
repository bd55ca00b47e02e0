/** The two character machines of royells_v20_postgres/sql.py, proved against SqlTokens. */
module SqlLexers {
  import opened SqlTokens

  datatype State = Normal | Single | Double | LineComment | BlockComment | Dollar(tag: string)

  type ValidState = st: State | st.Dollar? ==> st.tag != "" witness Normal

  /** statement[index : index + 2] */
  function Pair(s: string, i: nat): string
    requires i <= |s|
  {
    if i + 2 <= |s| then s[i..i + 2] else s[i..]
  }

  // ----- what either machine still has to do when it stands in state st before s

  /** How much of s still belongs to the token the machine is inside. */
  ghost function Pending(st: ValidState, s: string): (n: nat)
    ensures n <= |s|
  {
    match st
    case Normal => 0
    case Single => QuotedThrough(s, '\'')
    case Double => QuotedThrough(s, '"')
    case LineComment => Through(s, "\n")
    case BlockComment => Through(s, "*/")
    case Dollar(tag) => Through(s, tag)
  }

  ghost function TranslateFrom(st: ValidState, s: string): string {
    s[..Pending(st, s)] + Translate(s[Pending(st, s)..])
  }

  ghost function SegmentsFrom(st: ValidState, s: string): (r: seq<string>)
    ensures |r| >= 1
  {
    Glue(s[..Pending(st, s)], Segments(s[Pending(st, s)..]))
  }

  /** The machines copy k characters and go on in state next. */
  datatype Move = Move(k: nat, next: ValidState)

  /** The moves the two machines share: all but those on a question mark and a semicolon. */
  ghost function Next(st: ValidState, s: string): (m: Move)
    requires s != ""
    ensures 0 < m.k <= |s|
  {
    match st
    case Normal =>
      if "--" <= s then Move(2, LineComment)
      else if "/*" <= s then Move(2, BlockComment)
      else if s[0] == '\'' then Move(1, Single)
      else if s[0] == '"' then Move(1, Double)
      else if TagLen(s) > 0 then Move(TagLen(s), Dollar(s[..TagLen(s)]))
      else Move(1, Normal)
    case Single => if s[0] != '\'' then Move(1, st) else if "''" <= s then Move(2, st) else Move(1, Normal)
    case Double => if s[0] != '"' then Move(1, st) else if "\"\"" <= s then Move(2, st) else Move(1, Normal)
    case LineComment => Move(1, if s[0] == '\n' then Normal else st)
    case BlockComment => if "*/" <= s then Move(2, Normal) else Move(1, st)
    case Dollar(tag) => if tag <= s then Move(|tag|, Normal) else Move(1, st)
  }

  /** A shared move stays inside the current token, or opens the next one. */
  lemma NextInToken(st: ValidState, s: string)
    requires s != "" && !(st.Normal? && s[0] == '?')
    ensures var m := Next(st, s);
      (if st.Normal? then Head(s) else Pending(st, s)) == m.k + Pending(m.next, s[m.k..])
    ensures st.Normal? ==> s[..Head(s)] != "?" && s[..Head(s)] != "??"
  {
    hide Through, QuotedThrough, TagTail, Head, Next, Pending;
    if st.Normal? { NextOpens(s); } else { NextInside(st, s); }
  }

  lemma NextOpens(s: string)
    requires s != "" && s[0] != '?'
    ensures var m := Next(Normal, s); Head(s) == m.k + Pending(m.next, s[m.k..])
    ensures s[..Head(s)] != "?" && s[..Head(s)] != "??"
  {
    hide Through, QuotedThrough, TagTail;
  }

  lemma NextInside(st: ValidState, s: string)
    requires s != "" && !st.Normal?
    ensures var m := Next(st, s); Pending(st, s) == m.k + Pending(m.next, s[m.k..])
  {
    hide TagTail, TagLen;
  }

  lemma GlueGlue(a: string, b: string, segs: seq<string>)
    requires |segs| >= 1
    ensures Glue(a, Glue(b, segs)) == Glue(a + b, segs)
  {
    assert a + (b + segs[0]) == (a + b) + segs[0];
  }

  lemma GlueNothing(segs: seq<string>)
    requires |segs| >= 1
    ensures Glue("", segs) == segs
  {
    assert "" + segs[0] == segs[0];
  }

  lemma FromNormal(s: string)
    ensures TranslateFrom(Normal, s) == Translate(s)
    ensures SegmentsFrom(Normal, s) == Segments(s)
  {
    assert s[0..] == s && s[..0] == "";
    GlueNothing(Segments(s));
  }

  lemma AtEnd()
    ensures forall st: ValidState :: TranslateFrom(st, "") == ""
  {
  }

  /** The first n characters of s are a token, of which the machine has read m.k. */
  lemma CutToken(s: string, n: nat, m: Move)
    requires m.k <= n <= |s| && n == m.k + Pending(m.next, s[m.k..])
    ensures s[..n] + Translate(s[n..]) == s[..m.k] + TranslateFrom(m.next, s[m.k..])
    ensures Glue(s[..n], Segments(s[n..])) == Glue(s[..m.k], SegmentsFrom(m.next, s[m.k..]))
  {
    var mid := s[m.k..][..n - m.k];
    assert s[..n] == s[..m.k] + mid && s[n..] == s[m.k..][n - m.k..];
    Assoc(s[..m.k], mid, Translate(s[n..]));
    GlueGlue(s[..m.k], mid, Segments(s[n..]));
  }

  lemma NextTranslates(st: ValidState, s: string, m: Move)
    requires s != "" && !(st.Normal? && s[0] == '?')
    requires m == Next(st, s)
    ensures TranslateFrom(st, s) == s[..m.k] + TranslateFrom(m.next, s[m.k..])
  {
    NextInToken(st, s);
    if st.Normal? {
      CutToken(s, Head(s), m);
      TranslateStep(s);
      FromNormal(s);
    } else {
      CutToken(s, Pending(st, s), m);
    }
  }

  lemma NextSegments(st: ValidState, s: string, m: Move)
    requires s != "" && !(st.Normal? && s[0] in ['?', ';'])
    requires m == Next(st, s)
    ensures SegmentsFrom(st, s) == Glue(s[..m.k], SegmentsFrom(m.next, s[m.k..]))
  {
    NextInToken(st, s);
    if st.Normal? {
      CutToken(s, Head(s), m);
      FromNormal(s);
    } else {
      CutToken(s, Pending(st, s), m);
    }
  }

  /** What the translator writes for the next k characters of s, and where that leaves it. */
  ghost predicate Translates(st: ValidState, s: string, m: Move, out: string)
    requires s != ""
  {
    if st.Normal? && "??" <= s then m == Move(2, Normal) && out == "?"
    else if st.Normal? && s[0] == '?' then m == Move(1, Normal) && out == "%s"
    else m == Next(st, s) && out == s[..m.k]
  }

  lemma TranslatesOn(st: ValidState, s: string, m: Move, out: string)
    requires s != "" && Translates(st, s, m, out)
    ensures m.k <= |s| && TranslateFrom(st, s) == out + TranslateFrom(m.next, s[m.k..])
  {
    if st.Normal? && s[0] == '?' {
      TranslateStep(s);
      FromNormal(s);
      FromNormal(s[m.k..]);
    } else {
      NextTranslates(st, s, m);
    }
  }

  /** A question mark never starts or ends a segment, however it pairs up. */
  lemma {:induction false} SegmentsQuestion(x: string)
    ensures Segments("?" + x) == Glue("?", Segments(x))
    decreases |x|
  {
    var s := "?" + x;
    if "?" <= x {
      var y := x[1..];
      assert s[..2] == "??" && s[2..] == y && x == "?" + y;
      SegmentsQuestion(y);
      GlueGlue("?", "?", Segments(y));
      assert Head(s) == 2;
      assert "?" + "?" == "??";
    } else {
      assert s[..1] == "?" && s[1..] == x;
      assert Head(s) == 1;
    }
  }

  /** translate_qmark outside every literal and comment. */
  method TranslateNormal(statement: string, start: nat) returns (written: string, index: nat, state: ValidState)
    requires start < |statement|
    ensures start < index && Translates(Normal, statement[start..], Move(index - start, state), written)
  {
    ghost var rest := statement[start..];
    var c := statement[start];
    var pair := Pair(statement, start);
    if pair == "--" {
      written, index, state := pair, start + 2, LineComment;
    } else if pair == "/*" {
      written, index, state := pair, start + 2, BlockComment;
    } else if c == '\'' {
      written, index, state := [c], start + 1, Single;
    } else if c == '"' {
      written, index, state := [c], start + 1, Double;
    } else if TagLen(statement[start..]) > 0 {
      var dollarTag := statement[start..][..TagLen(statement[start..])];
      written, index, state := dollarTag, start + |dollarTag|, Dollar(dollarTag);
    } else if pair == "??" {
      written, index, state := "?", start + 2, Normal;
    } else {
      written, index, state := if c == '?' then "%s" else [c], start + 1, Normal;
    }
  }

  /** translate_qmark inside a literal, comment or dollar-quoted body. */
  method TranslateInside(statement: string, start: nat, st: ValidState)
    returns (written: string, index: nat, state: ValidState)
    requires start < |statement| && !st.Normal?
    ensures start < index && Translates(st, statement[start..], Move(index - start, state), written)
  {
    ghost var rest := statement[start..];
    state := st;
    var c := statement[start];
    written, index := [c], start + 1;
    if state == Single || state == Double {
      var quote := if state == Single then '\'' else '"';
      if c == quote && index < |statement| && statement[index] == quote {
        written, index := written + [quote], index + 1;
      } else if c == quote {
        state := Normal;
      }
    } else if state == LineComment {
      if c == '\n' {
        state := Normal;
      }
    } else if state == BlockComment {
      if Pair(statement, start) == "*/" {
        written, index, state := Pair(statement, start), start + 2, Normal;
      }
    } else if state.tag <= statement[start..] {
      written, index, state := state.tag, start + |state.tag|, Normal;
    }
  }

  /** royells_v20_postgres/sql.py, translate_qmark. */
  method TranslateQmark(statement: string) returns (result: string)
    ensures result == Translate(statement)
  {
    hide TranslateFrom, Translate, Translates, Next, Pending, TagLen;
    result := "";
    var index := 0;
    var state: ValidState := Normal;
    assert statement[0..] == statement;
    FromNormal(statement);
    AtEnd();
    while index < |statement|
      invariant 0 <= index <= |statement|
      invariant result + TranslateFrom(state, statement[index..]) == Translate(statement)
    {
      ghost var rest, st, start := statement[index..], state, index;
      var written;
      if state == Normal {
        written, index, state := TranslateNormal(statement, index);
      } else {
        written, index, state := TranslateInside(statement, index, state);
      }
      TranslatesOn(st, rest, Move(index - start, state), written);
      assert rest[index - start..] == statement[index..];
      Assoc(result, written, TranslateFrom(state, statement[index..]));
      result := result + written;
    }
    assert statement[index..] == "";
  }

  // ----- the splitter

  lemma CopiesOn(st: ValidState, s: string, m: Move)
    requires s != "" && !(st.Normal? && s[0] == ';')
    requires m == Next(st, s)
    ensures SegmentsFrom(st, s) == Glue(s[..m.k], SegmentsFrom(m.next, s[m.k..]))
  {
    if st.Normal? && s[0] == '?' {
      assert s == "?" + s[1..] && s[..1] == "?";
      SegmentsQuestion(s[1..]);
      FromNormal(s);
      FromNormal(s[1..]);
    } else {
      NextSegments(st, s, m);
    }
  }

  /** The statements still to come: current is the text collected since the last cut. */
  ghost function Todo(current: string, st: ValidState, s: string): seq<string> {
    Statements(Glue(current, SegmentsFrom(st, s)))
  }

  lemma NothingRead(s: string)
    ensures Todo("", Normal, s) == Statements(Segments(s))
  {
    FromNormal(s);
    GlueNothing(Segments(s));
  }

  lemma CopiedTodo(current: string, st: ValidState, s: string, m: Move)
    requires s != "" && !(st.Normal? && s[0] == ';')
    requires m == Next(st, s)
    ensures Todo(current, st, s) == Todo(current + s[..m.k], m.next, s[m.k..])
  {
    CopiesOn(st, s, m);
    GlueGlue(current, s[..m.k], SegmentsFrom(m.next, s[m.k..]));
  }

  /** statements with the collected text added, unless it is blank */
  function Appended(statements: seq<string>, current: string): seq<string> {
    if Strip(current) == "" then statements else statements + [Strip(current)]
  }

  lemma StatementsCons(current: string, segs: seq<string>)
    ensures Statements([current] + segs) == Appended([], current) + Statements(segs)
  {
  }

  lemma SemicolonSegments(current: string, s: string)
    requires s != "" && s[0] == ';'
    ensures Glue(current, SegmentsFrom(Normal, s)) == [current] + Segments(s[1..])
  {
    FromNormal(s);
    assert Head(s) == 1;
    assert current + "" == current;
  }

  lemma SemicolonCuts(statements: seq<string>, current: string, s: string)
    requires s != "" && s[0] == ';'
    ensures statements + Todo(current, Normal, s) == Appended(statements, current) + Todo("", Normal, s[1..])
  {
    hide Statements, Segments, Strip;
    SemicolonSegments(current, s);
    NothingRead(s[1..]);
    StatementsCons(current, Segments(s[1..]));
    Assoc(statements, Appended([], current), Statements(Segments(s[1..])));
  }

  lemma TextEnds(statements: seq<string>, current: string, st: ValidState)
    ensures statements + Todo(current, st, "") == Appended(statements, current)
  {
    assert current + ("" + "") == current;
    assert Glue(current, Glue("", [""])) == [current];
    assert Todo(current, st, "") == Statements([current]) == Appended([], current);
  }

  method AppendStripped(statements: seq<string>, current: string) returns (r: seq<string>)
    ensures r == Appended(statements, current)
  {
    r := statements;
    var value := Strip(current);
    if value != "" {
      r := r + [value];
    }
  }

  method SplitNormal(translated: string, start: nat) returns (copied: string, index: nat, state: ValidState)
    requires start < |translated| && translated[start] != ';'
    ensures start < index <= |translated|
    ensures copied == translated[start..][..index - start]
      && translated[index..] == translated[start..][index - start..]
    ensures Move(index - start, state) == Next(Normal, translated[start..])
  {
    var c := translated[start];
    var pair := Pair(translated, start);
    copied, index, state := [c], start + 1, Normal;
    if pair == "--" {
      copied, index, state := pair, start + 2, LineComment;
    } else if pair == "/*" {
      copied, index, state := pair, start + 2, BlockComment;
    } else if c == '\'' {
      state := Single;
    } else if c == '"' {
      state := Double;
    } else if TagLen(translated[start..]) > 0 {
      var dollarTag := translated[start..][..TagLen(translated[start..])];
      copied, index, state := dollarTag, start + |dollarTag|, Dollar(dollarTag);
    }
  }

  method SplitInside(translated: string, start: nat, st: ValidState)
    returns (copied: string, index: nat, state: ValidState)
    requires start < |translated| && !st.Normal?
    ensures start < index <= |translated|
    ensures copied == translated[start..][..index - start]
      && translated[index..] == translated[start..][index - start..]
    ensures Move(index - start, state) == Next(st, translated[start..])
  {
    ghost var rest := translated[start..];
    var c := translated[start];
    var pair := Pair(translated, start);
    copied, index, state := [c], start + 1, st;
    if state == Single && c == '\'' {
      if start + 1 < |translated| && translated[start + 1] == '\'' {
        copied, index := "''", start + 2;
      } else {
        state := Normal;
      }
    } else if state == Double && c == '"' {
      if start + 1 < |translated| && translated[start + 1] == '"' {
        copied, index := "\"\"", start + 2;
      } else {
        state := Normal;
      }
    } else if state == LineComment && c == '\n' {
      state := Normal;
    } else if state == BlockComment && pair == "*/" {
      copied, index, state := pair, start + 2, Normal;
    } else if state.Dollar? && state.tag <= translated[start..] {
      copied, index, state := state.tag, start + |state.tag|, Normal;
    }
  }

  /** royells_v20_postgres/sql.py, split_sql_statements. */
  method SplitSqlStatements(script: string) returns (statements: seq<string>)
    ensures statements == Split(script)
  {
    hide Todo, Appended, Next, SegmentsFrom, Statements, Segments, Glue, TagLen, Strip;
    statements := [];
    var current := "";
    var translated := TranslateQmark(script);
    var state: ValidState := Normal;
    var index := 0;
    ghost var rest := translated;
    NothingRead(translated);
    while index < |translated|
      invariant 0 <= index <= |translated| && rest == translated[index..]
      invariant statements + Todo(current, state, rest) == Split(script)
    {
      ghost var st, start := state, index;
      if state == Normal && translated[index] == ';' {
        SemicolonCuts(statements, current, rest);
        statements := AppendStripped(statements, current);
        current := "";
        index := index + 1;
      } else {
        var copied;
        if state == Normal {
          copied, index, state := SplitNormal(translated, index);
        } else {
          copied, index, state := SplitInside(translated, index, state);
        }
        CopiedTodo(current, st, rest, Move(index - start, state));
        current := current + copied;
      }
      rest := rest[index - start..];
    }
    TextEnds(statements, current, state);
    statements := AppendStripped(statements, current);
  }
}
