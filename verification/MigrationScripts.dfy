/** Reading and running the scripts of royells_v20_postgres/migrations.py: the expansion of include lines and
    the statements of a script that reach the database. */
module MigrationScripts {
  import opened Prelude
  import opened SqlTokens
  import SqlLexers
  import SqlLaws

  /** A resolved path. */
  type Path = string

  /** The files as lists of lines; inside holds of the root and what lies under it, and relative(p, name) is
      name resolved against the directory of p. */
  datatype Tree = Tree(files: map<Path, seq<string>>, inside: Path -> bool, relative: (Path, string) -> Path)

  datatype Fault = Escapes | Recursive | Unreadable

  function StripQuotesLeft(s: string): string {
    if s != "" && (s[0] == '\'' || s[0] == '"') then StripQuotesLeft(s[1..]) else s
  }

  function StripQuotesRight(s: string): string {
    if s != "" && (s[|s| - 1] == '\'' || s[|s| - 1] == '"') then StripQuotesRight(s[..|s| - 1]) else s
  }

  function IncludeName(s: string): string { StripQuotesRight(StripQuotesLeft(Strip(s))) }

  /** The file a line includes, if it is an include line. */
  function Included(t: Tree, p: Path, line: string): Option<Path> {
    var stripped := Strip(line);
    if "\\ir " <= stripped then Some(t.relative(p, IncludeName(stripped[4..])))
    else if "\\i " <= stripped then Some(t.relative(p, IncludeName(stripped[3..])))
    else None
  }

  function Joined(lines: seq<string>): string {
    if lines == [] then "" else if |lines| == 1 then lines[0] else lines[0] + "\n" + Joined(lines[1..])
  }

  function Text(output: seq<string>): string { Joined(output) + "\n" }

  // ----- expansion with the files that are being read

  /** What _read_script returns; active holds the files whose expansion is under way. */
  function Expand(t: Tree, p: Path, active: set<Path>): Result<string, Fault>
    decreases t.files.Keys - active, 0, 1
  {
    if !t.inside(p) then Err(Escapes)
    else if p in active then Err(Recursive)
    else if p !in t.files then Err(Unreadable)
    else
      assert t.files.Keys - (active + {p}) < t.files.Keys - active by { assert p in t.files.Keys - active; }
      match ExpandLines(t, p, t.files[p], active + {p})
      case Err(e) => Err(e)
      case Ok(output) => Ok(Text(output))
  }

  function ExpandLines(t: Tree, p: Path, lines: seq<string>, active: set<Path>): Result<seq<string>, Fault>
    decreases t.files.Keys - active, |lines|, 2
  {
    if lines == [] then Ok([])
    else
      var first := match Included(t, p, lines[0]) case None => Ok(lines[0]) case Some(q) => Expand(t, q, active);
      match first
      case Err(e) => Err(e)
      case Ok(x) => Before([x], ExpandLines(t, p, lines[1..], active))
  }

  function Before(output: seq<string>, r: Result<seq<string>, Fault>): Result<seq<string>, Fault> {
    match r case Err(e) => Err(e) case Ok(more) => Ok(output + more)
  }

  lemma BeforeBefore(output: seq<string>, x: string, r: Result<seq<string>, Fault>)
    ensures Before(output, Before([x], r)) == Before(output + [x], r)
    ensures Before([], r) == r
  {
    if r.Ok? {
      Assoc(output, [x], r.value);
      assert [] + r.value == r.value;
    }
  }

  method ReadScript(t: Tree, path: Path, seen: set<Path>) returns (r: Result<string, Fault>)
    ensures r == Expand(t, path, seen)
    decreases t.files.Keys - seen
  {
    hide Included, Joined;
    if !t.inside(path) {
      return Err(Escapes);
    }
    if path in seen {
      return Err(Recursive);
    }
    if path !in t.files {
      return Err(Unreadable);
    }
    assert path in t.files.Keys - seen;
    var active := seen + {path};
    var output: seq<string> := [];
    var lines := t.files[path];
    var i := 0;
    BeforeBefore([], "", ExpandLines(t, path, lines, active));
    while i < |lines|
      invariant 0 <= i <= |lines|
      invariant Before(output, ExpandLines(t, path, lines[i..], active)) == ExpandLines(t, path, lines, active)
    {
      assert lines[i..][0] == lines[i] && lines[i..][1..] == lines[i + 1..];
      var line := lines[i];
      var included := Included(t, path, line);
      if included.Some? {
        var text := ReadScript(t, included.value, active);
        if text.Err? {
          return Err(text.error);
        }
        line := text.value;
      }
      BeforeBefore(output, line, ExpandLines(t, path, lines[i + 1..], active));
      output := output + [line];
      i := i + 1;
    }
    assert output + [] == output;
    return Ok(Text(output));
  }

  // ----- which scripts are read

  ghost predicate Includes(t: Tree, p: Path, q: Path) {
    p in t.files && exists i :: 0 <= i < |t.files[p]| && Included(t, p, t.files[p][i]) == Some(q)
  }

  /** Each file of the chain includes the next. */
  ghost predicate Chain(t: Tree, ps: seq<Path>) {
    forall k :: 0 <= k < |ps| - 1 ==> Includes(t, ps[k], ps[k + 1])
  }

  /** The chain stays inside the root, its files are there, and none of them comes twice. */
  ghost predicate Sound(t: Tree, ps: seq<Path>, active: set<Path>) {
    && (forall k :: 0 <= k < |ps| ==> t.inside(ps[k]) && ps[k] in t.files && ps[k] !in active)
    && (forall j, k :: 0 <= j < k < |ps| ==> ps[j] != ps[k])
  }

  ghost predicate ChainFrom(t: Tree, p: Path, ps: seq<Path>) { ps != [] && ps[0] == p && Chain(t, ps) }

  /** The lines are all expanded exactly when every file they include is. */
  lemma {:induction false} LinesRead(t: Tree, p: Path, lines: seq<string>, active: set<Path>)
    ensures ExpandLines(t, p, lines, active).Ok? <==>
      forall i :: 0 <= i < |lines| && Included(t, p, lines[i]).Some? ==>
        Expand(t, Included(t, p, lines[i]).value, active).Ok?
    decreases |lines|
  {
    hide Included, Expand;
    if lines != [] {
      var rest := lines[1..];
      LinesRead(t, p, rest, active);
      assert forall i :: 0 < i < |lines| ==> lines[i] == rest[i - 1];
      assert forall i :: 0 <= i < |rest| ==> rest[i] == lines[i + 1];
    }
  }

  lemma {:induction false} ReadChains(t: Tree, p: Path, active: set<Path>, ps: seq<Path>)
    requires Expand(t, p, active).Ok? && ChainFrom(t, p, ps)
    ensures Sound(t, ps, active)
    decreases |ps|
  {
    hide Included;
    LinesRead(t, p, t.files[p], active + {p});
    if |ps| > 1 {
      var rest := ps[1..];
      assert Includes(t, ps[0], ps[1]);
      assert forall k :: 0 <= k < |rest| ==> rest[k] == ps[k + 1];
      ReadChains(t, ps[1], active + {p}, rest);
      assert forall k :: 0 < k < |ps| ==> ps[k] == rest[k - 1];
    }
  }

  lemma SoundTail(t: Tree, p: Path, rest: seq<Path>, active: set<Path>)
    ensures Sound(t, [p] + rest, active) ==> Sound(t, rest, active + {p})
  {
    var ps := [p] + rest;
    if Sound(t, ps, active) {
      assert ps[0] == p;
      assert forall k :: 0 <= k < |rest| ==> rest[k] == ps[k + 1];
      assert forall k :: 0 <= k < |rest| ==>
        rest[k] != p && t.inside(rest[k]) && rest[k] in t.files && rest[k] !in active;
    }
  }

  /** A script that is not read has a chain of includes that is to blame. */
  lemma {:induction false} UnreadChain(t: Tree, p: Path, active: set<Path>) returns (ps: seq<Path>)
    requires Expand(t, p, active).Err?
    ensures ChainFrom(t, p, ps) && !Sound(t, ps, active)
    decreases t.files.Keys - active
  {
    hide Included;
    ps := [p];
    if t.inside(p) && p !in active && p in t.files {
      assert p in t.files.Keys - active;
      LinesRead(t, p, t.files[p], active + {p});
      var i :| 0 <= i < |t.files[p]| && Included(t, p, t.files[p][i]).Some?
               && Expand(t, Included(t, p, t.files[p][i]).value, active + {p}).Err?;
      var q := Included(t, p, t.files[p][i]).value;
      assert Includes(t, p, q);
      var rest := UnreadChain(t, q, active + {p});
      ps := [p] + rest;
      assert forall k :: 0 <= k < |rest| ==> ps[k + 1] == rest[k];
      SoundTail(t, p, rest, active);
    }
  }

  /** A script is read exactly when no chain of includes from it leaves the root, meets a missing file or comes
      back to a file of its own.  A file may be included any number of times side by side. */
  lemma ReadExactly(t: Tree, p: Path)
    ensures Expand(t, p, {}).Ok? <==> forall ps :: ChainFrom(t, p, ps) ==> Sound(t, ps, {})
  {
    if Expand(t, p, {}).Ok? {
      forall ps | ChainFrom(t, p, ps) ensures Sound(t, ps, {}) { ReadChains(t, p, {}, ps); }
    } else {
      var ps := UnreadChain(t, p, {});
    }
  }

  // ----- what is read

  /** Expansion without any record of the files under way: includes are replaced n levels deep, and there is
      no text if that was not deep enough. */
  function Unfold(t: Tree, p: Path, n: nat): Option<string>
    decreases n, 0
  {
    if n == 0 || !t.inside(p) || p !in t.files then None
    else match UnfoldLines(t, p, t.files[p], n - 1)
      case None => None
      case Some(output) => Some(Text(output))
  }

  function UnfoldLines(t: Tree, p: Path, lines: seq<string>, n: nat): Option<seq<string>>
    decreases n, |lines| + 1
  {
    if lines == [] then Some([])
    else
      var first := match Included(t, p, lines[0]) case None => Some(lines[0]) case Some(q) => Unfold(t, q, n);
      match (first, UnfoldLines(t, p, lines[1..], n))
      case (Some(x), Some(more)) => Some([x] + more)
      case _ => None
  }

  lemma {:induction false} Deeper(t: Tree, p: Path, n: nat, m: nat)
    requires n <= m && Unfold(t, p, n).Some?
    ensures Unfold(t, p, m) == Unfold(t, p, n)
    decreases n, 0
  {
    hide Included, Joined;
    DeeperLines(t, p, t.files[p], n - 1, m - 1);
  }

  lemma {:induction false} DeeperLines(t: Tree, p: Path, lines: seq<string>, n: nat, m: nat)
    requires n <= m && UnfoldLines(t, p, lines, n).Some?
    ensures UnfoldLines(t, p, lines, m) == UnfoldLines(t, p, lines, n)
    decreases n, |lines| + 1
  {
    hide Included, Joined;
    if lines != [] {
      if Included(t, p, lines[0]).Some? { Deeper(t, Included(t, p, lines[0]).value, n, m); }
      DeeperLines(t, p, lines[1..], n, m);
    }
  }

  /** What is read is the unfolding, as deep as there are files not under way. */
  lemma {:induction false} ReadIsUnfolded(t: Tree, p: Path, active: set<Path>)
    requires Expand(t, p, active).Ok?
    ensures Unfold(t, p, |t.files.Keys - active|) == Some(Expand(t, p, active).value)
    decreases t.files.Keys - active, 0, 1
  {
    hide Included, Joined;
    assert p in t.files.Keys - active;
    assert t.files.Keys - (active + {p}) == (t.files.Keys - active) - {p};
    LinesAreUnfolded(t, p, t.files[p], active + {p});
  }

  lemma {:induction false} LinesAreUnfolded(t: Tree, p: Path, lines: seq<string>, active: set<Path>)
    requires ExpandLines(t, p, lines, active).Ok?
    ensures UnfoldLines(t, p, lines, |t.files.Keys - active|) == Some(ExpandLines(t, p, lines, active).value)
    decreases t.files.Keys - active, |lines|, 2
  {
    hide Included, Joined;
    if lines != [] {
      if Included(t, p, lines[0]).Some? { ReadIsUnfolded(t, Included(t, p, lines[0]).value, active); }
      LinesAreUnfolded(t, p, lines[1..], active);
    }
  }

  /** A script that unfolds in full is read, whatever files that do not unfold as deep are under way: the
      files under way are above it and need more depth, so it is none of them. */
  lemma {:induction false} UnfoldedIsRead(t: Tree, p: Path, n: nat, active: set<Path>)
    requires Unfold(t, p, n).Some? && forall a :: a in active ==> Unfold(t, a, n) == None
    ensures Expand(t, p, active) == Ok(Unfold(t, p, n).value)
    decreases n, 0
  {
    hide Included, Joined;
    if Unfold(t, p, n - 1).Some? {
      Deeper(t, p, n - 1, n);
      forall a | a in active ensures Unfold(t, a, n - 1) == None {
        if Unfold(t, a, n - 1).Some? { Deeper(t, a, n - 1, n); }
      }
      UnfoldedIsRead(t, p, n - 1, active);
    } else {
      forall a | a in active ensures Unfold(t, a, n - 1) == None {
        if Unfold(t, a, n - 1).Some? { Deeper(t, a, n - 1, n); }
      }
      UnfoldedAreRead(t, p, t.files[p], n - 1, active + {p});
    }
  }

  lemma {:induction false} UnfoldedAreRead(t: Tree, p: Path, lines: seq<string>, n: nat, active: set<Path>)
    requires UnfoldLines(t, p, lines, n).Some? && forall a :: a in active ==> Unfold(t, a, n) == None
    ensures ExpandLines(t, p, lines, active) == Ok(UnfoldLines(t, p, lines, n).value)
    decreases n, |lines| + 1
  {
    hide Included, Joined;
    if lines != [] {
      if Included(t, p, lines[0]).Some? { UnfoldedIsRead(t, Included(t, p, lines[0]).value, n, active); }
      UnfoldedAreRead(t, p, lines[1..], n, active);
    }
  }

  /** The record of files under way refuses nothing that has a finite expansion and changes no text. */
  lemma ReadsTheUnfolding(t: Tree, p: Path, text: string)
    ensures Expand(t, p, {}) == Ok(text) <==> exists n: nat :: Unfold(t, p, n) == Some(text)
  {
    if Expand(t, p, {}) == Ok(text) {
      ReadIsUnfolded(t, p, {});
      assert Unfold(t, p, |t.files.Keys - {}|) == Some(text);
    }
    if n: nat :| Unfold(t, p, n) == Some(text) { UnfoldedIsRead(t, p, n, {}); }
  }

  // ----- running a script

  /** str.upper() as far as it matters for two words in ASCII: of the other letters only the dotless i has a
      letter of theirs for its capital. */
  function Upper(s: string): string {
    if s == "" then "" else [if s[0] == '\U{0131}' then 'I' else Capital(s[0])] + Upper(s[1..])
  }

  function Capital(c: char): char { if 'a' <= c <= 'z' then c - 'a' + 'A' else c }

  predicate Bounds(word: string) { word == "BEGIN" || word == "COMMIT" }

  /** A statement that the code takes for the beginning or end of a transaction. */
  predicate IsBoundary(st: string) { Bounds(Upper(Strip(st))) }

  function Kept(sts: seq<string>): seq<string> {
    if sts == [] then [] else (if IsBoundary(sts[0]) then [] else [sts[0]]) + Kept(sts[1..])
  }

  /** execute() translates each statement once more. */
  function Sent(sts: seq<string>): seq<string> {
    if sts == [] then [] else (if IsBoundary(sts[0]) then [] else [Translate(sts[0])]) + Sent(sts[1..])
  }

  lemma SentCons(before: seq<string>, sts: seq<string>)
    requires sts != []
    ensures before + Sent(sts) == (if IsBoundary(sts[0]) then before else before + [Translate(sts[0])]) + Sent(sts[1..])
  {
    hide IsBoundary, Translate;
    var first := if IsBoundary(sts[0]) then [] else [Translate(sts[0])];
    Assoc(before, first, Sent(sts[1..]));
    assert before + [] == before;
  }

  /** royells_v20_postgres/migrations.py, _execute_script; sent is what reaches the driver. */
  method ExecuteScript(script: string) returns (count: nat, sent: seq<string>)
    ensures count == |Split(script)|
    ensures sent == Sent(Split(script))
  {
    hide Split, Translate, IsBoundary;
    var statements := SqlLexers.SplitSqlStatements(script);
    sent := [];
    var i := 0;
    assert statements[0..] == statements;
    while i < |statements|
      invariant 0 <= i <= |statements|
      invariant sent + Sent(statements[i..]) == Sent(statements)
    {
      SentCons(sent, statements[i..]);
      assert statements[i..][1..] == statements[i + 1..];
      if !IsBoundary(statements[i]) {
        var translated := SqlLexers.TranslateQmark(statements[i]);
        sent := sent + [translated];
      }
      i := i + 1;
    }
    return |statements|, sent;
  }

  lemma {:induction false} KeptIn(sts: seq<string>)
    ensures forall st :: st in Kept(sts) <==> st in sts && !IsBoundary(st)
  {
    hide IsBoundary;
    if sts != [] { KeptIn(sts[1..]); }
  }

  lemma {:induction false} SentIsKept(sts: seq<string>)
    ensures |Sent(sts)| == |Kept(sts)|
    ensures forall i :: 0 <= i < |Kept(sts)| ==> Sent(sts)[i] == Translate(Kept(sts)[i])
  {
    hide IsBoundary, Translate;
    if sts != [] { SentIsKept(sts[1..]); }
  }

  lemma {:induction false} SentUntranslated(sts: seq<string>)
    requires forall st :: st in sts ==> Translate(st) == st
    ensures Sent(sts) == Kept(sts)
  {
    hide IsBoundary, Translate;
    if sts != [] { SentUntranslated(sts[1..]); }
  }

  lemma {:induction false} RenderedShows(ts: seq<string>, t: string)
    requires t in ts
    ensures forall c :: c in Render(t) ==> c in Rendered(ts)
  {
    if t != ts[0] { RenderedShows(ts[1..], t); }
  }

  /** Translation makes no transaction boundary of a statement: what it changes holds a '?' or a '%'. */
  lemma NoNewBoundary(st: string)
    requires SqlLaws.Trimmed(st) && IsBoundary(Translate(st))
    ensures IsBoundary(st)
  {
    hide Tokens, Strip, SqlLaws.Trimmed, Translate;
    SqlLaws.TranslateFixpoint(st);
    SqlLaws.TranslateTrimmed(st);
    SqlLaws.StripTrims(Translate(st));
    if SqlLaws.HasMark(st) {
      MarkShows(st);
      var c :| c in Translate(st) && (c == '?' || c == '%');
      UpperKeeps(Translate(st), c);
      assert false;
    }
  }

  lemma MarkShows(st: string)
    requires SqlLaws.HasMark(st)
    ensures exists c :: c in Translate(st) && (c == '?' || c == '%')
  {
    hide Tokens;
    var t := if "?" in Tokens(st) then "?" else "??";
    RenderedShows(Tokens(st), t);
    var c := Render(t)[0];
    assert c in Render(t) && (c == '?' || c == '%');
    assert c in Translate(st);
  }

  lemma {:induction false} UpperKeeps(s: string, c: char)
    requires c in s && !('a' <= c <= 'z') && c != '\U{0131}'
    ensures c in Upper(s)
  {
    if c != s[0] { UpperKeeps(s[1..], c); }
  }

  lemma {:induction false} TokenShows(s: string, t: string)
    ensures t in Tokens(s) ==> t != "" && t[0] in s
    decreases |s|
  {
    hide Head;
    if s != "" { TokenShows(s[Head(s)..], t); }
  }

  lemma BoundaryIsPlain(st: string)
    requires SqlLaws.Trimmed(st) && IsBoundary(st)
    ensures Translate(st) == st
  {
    hide Tokens, Strip, SqlLaws.Trimmed;
    SqlLaws.TranslateFixpoint(st);
    SqlLaws.StripTrims(st);
    if SqlLaws.HasMark(st) {
      var t := if "?" in Tokens(st) then "?" else "??";
      TokenShows(st, t);
      UpperKeeps(st, '?');
    }
  }

  /** What reaches the database are the script's statements without the transaction boundaries, as they were
      split, exactly when the script has no top-level '??'; no boundary reaches it whatever the script. */
  lemma SentAsSplit(script: string)
    ensures Sent(Split(script)) == Kept(Split(script)) <==> !SqlLaws.HasEscape(script)
    ensures forall st :: st in Sent(Split(script)) ==> !IsBoundary(st)
  {
    hide Split, Translate, IsBoundary, SqlLaws.Trimmed, SqlLaws.HasEscape;
    var sts := Split(script);
    KeptIn(sts);
    SentIsKept(sts);
    SqlLaws.StatementsAreStable(script);
    forall st | st in Sent(sts) ensures !IsBoundary(st) {
      var i :| 0 <= i < |Sent(sts)| && Sent(sts)[i] == st;
      assert Kept(sts)[i] in Kept(sts);
      SqlLaws.StatementsAreSingle(script, Kept(sts)[i]);
      if IsBoundary(st) { NoNewBoundary(Kept(sts)[i]); }
    }
    forall st | st in sts && IsBoundary(st) ensures Translate(st) == st {
      SqlLaws.StatementsAreSingle(script, st);
      BoundaryIsPlain(st);
    }
    if Sent(sts) == Kept(sts) {
      forall st | st in sts ensures Translate(st) == st {
        if !IsBoundary(st) {
          var i :| 0 <= i < |Kept(sts)| && Kept(sts)[i] == st;
          assert Sent(sts)[i] == Translate(st);
        }
      }
    }
    if forall st :: st in sts ==> Translate(st) == st { SentUntranslated(sts); }
  }

  /** A text of one statement: no character in it is a semicolon or a question mark. */
  lemma OneStatement(s: string)
    requires s != "" && SqlLaws.Trimmed(s) && ';' !in s && '?' !in s
    ensures Translate(s) == s && Split(s) == [s]
  {
    hide Tokens, Strip, SqlLaws.Trimmed;
    TokenShows(s, ";");
    TokenShows(s, "?");
    TokenShows(s, "??");
    SqlLaws.TranslateFixpoint(s);
    SqlLaws.OneSegment(s);
    SqlLaws.StripTrims(s);
    assert Statements([s]) == [s] + Statements([]);
  }

  // ----- transaction boundaries that are not recognised

  predicate Comment(t: string) { "--" <= t || "/*" <= t }

  /** What is left of a statement when a space stands for each comment. */
  function Bare(ts: seq<string>): string {
    if ts == [] then "" else (if Comment(ts[0]) then " " else ts[0]) + Bare(ts[1..])
  }

  function Capitals(s: string): string { if s == "" then "" else [Capital(s[0])] + Capitals(s[1..]) }

  /** What a statement comes to in the database, which folds ASCII letters only. */
  function Effective(st: string): string { Capitals(Strip(Bare(Tokens(st)))) }

  lemma {:induction false} BareShows(ts: seq<string>, t: string)
    requires t in ts && !Comment(t)
    ensures forall c :: c in t ==> c in Bare(ts)
  {
    if t != ts[0] { BareShows(ts[1..], t); }
  }

  lemma {:induction false} StripLeftHolds(s: string, c: char)
    requires !IsSpace(c)
    ensures c in s ==> c in StripLeft(s)
  {
    hide IsSpace;
    if s != "" && IsSpace(s[0]) { StripLeftHolds(s[1..], c); }
  }

  lemma {:induction false} StripRightHolds(s: string, c: char)
    requires !IsSpace(c)
    ensures c in s ==> c in StripRight(s)
  {
    hide IsSpace;
    if s != "" && IsSpace(s[|s| - 1]) {
      assert s == s[..|s| - 1] + [s[|s| - 1]];
      StripRightHolds(s[..|s| - 1], c);
    }
  }

  lemma {:induction false} CapitalsHold(s: string, c: char)
    requires c in s && !('a' <= c <= 'z')
    ensures c in Capitals(s)
  {
    if c != s[0] { CapitalsHold(s[1..], c); }
  }

  lemma BareKeeps(st: string, t: string, c: char)
    requires t in Tokens(st) && !Comment(t) && c in t && (c == '?' || c == '%')
    ensures !Bounds(Effective(st))
  {
    hide Tokens, IsSpace;
    BareShows(Tokens(st), t);
    NotSpace(c);
    var s := Bare(Tokens(st));
    StripLeftHolds(s, c);
    StripRightHolds(StripLeft(s), c);
    CapitalsHold(Strip(s), c);
  }

  lemma NotSpace(c: char)
    requires c == '?' || c == '%'
    ensures !IsSpace(c)
  {
  }

  lemma MarkSpoils(st: string)
    requires "?" in Tokens(st) || "??" in Tokens(st) || "%" in Tokens(st)
    ensures !Bounds(Effective(st))
  {
    hide Tokens, Effective, Bounds;
    assert "?"[0] == '?' && "??"[0] == '?' && "%"[0] == '%';
    if "?" in Tokens(st) {
      BareKeeps(st, "?", '?');
    } else if "??" in Tokens(st) {
      BareKeeps(st, "??", '?');
    } else {
      BareKeeps(st, "%", '%');
    }
  }

  lemma {:induction false} RetokenedShows(ts: seq<string>)
    requires "?" in ts || "??" in ts
    ensures var r := SqlLaws.Retokened(ts); "%" in r || "?" in r || "??" in r
  {
    if ts[0] != "?" && ts[0] != "??" { RetokenedShows(ts[1..]); }
  }

  /** A text that comes to a transaction boundary, before or after translation, holds no question mark. */
  lemma EffectiveIsPlain(st: string)
    requires Bounds(Effective(st)) || Bounds(Effective(Translate(st)))
    ensures Translate(st) == st
  {
    hide Tokens, Effective, Translate;
    SqlLaws.TranslateFixpoint(st);
    if SqlLaws.HasMark(st) {
      SqlLaws.RelexTranslated(st);
      RetokenedShows(Tokens(st));
      MarkSpoils(st);
      MarkSpoils(Translate(st));
    }
  }

  lemma NoTokens()
    ensures Tokens("") == [] && Bare([]) == ""
  {
  }

  lemma {:induction false} BareIsAll(s: string)
    requires forall t :: t in Tokens(s) ==> !Comment(t)
    ensures Bare(Tokens(s)) == s
    decreases |s|
  {
    hide Head, Tokens, Bare, Comment;
    if s == "" {
      NoTokens();
    } else {
      var t, rest := s[..Head(s)], s[Head(s)..];
      SqlLaws.TokensCons(s);
      assert Tokens(s) == [t] + Tokens(rest);
      assert t in Tokens(s) && forall x :: x in Tokens(rest) ==> x in Tokens(s);
      BareIsAll(rest);
      BareCons(t, Tokens(rest));
      assert t + rest == s;
    }
  }

  lemma {:induction false} CapitalsAreUpper(s: string)
    requires '\U{0131}' !in Capitals(s)
    ensures Upper(s) == Capitals(s)
  {
    if s != "" {
      assert Capitals(s)[0] == Capital(s[0]);
      CapitalsAreUpper(s[1..]);
    }
  }

  lemma CommentUnrecognised(st: string, t: string)
    requires SqlLaws.Trimmed(st) && t in Tokens(st) && Comment(t)
    ensures !IsBoundary(st)
  {
    hide Tokens, Strip, SqlLaws.Trimmed, Upper;
    SqlLaws.StripTrims(st);
    TokenShows(st, t);
    UpperKeeps(st, t[0]);
  }

  lemma NoCommentRecognised(st: string)
    requires SqlLaws.Trimmed(st) && Bounds(Effective(st)) && forall t :: t in Tokens(st) ==> !Comment(t)
    ensures IsBoundary(st)
  {
    hide Tokens, Strip, SqlLaws.Trimmed, Upper, Capitals, Comment, Bare;
    BareIsAll(st);
    CapitalsAreUpper(Strip(st));
  }

  /** The code recognises a boundary exactly when there is no comment with it. */
  lemma RecognisedExactly(st: string)
    requires SqlLaws.Trimmed(st) && Bounds(Effective(st))
    ensures IsBoundary(st) <==> forall t :: t in Tokens(st) ==> !Comment(t)
  {
    hide Tokens, Effective, SqlLaws.Trimmed, IsBoundary, Comment;
    if t :| t in Tokens(st) && Comment(t) {
      CommentUnrecognised(st, t);
    } else {
      NoCommentRecognised(st);
    }
  }

  // ----- every spelling of a transaction command

  /** A character of a word in the database. */
  predicate IsIdent(c: char) { IsWord(c) || c == '$' || c >= '\U{0080}' }

  /** The word that a text begins with. */
  function WordOf(s: string): string { if s == "" || !IsIdent(s[0]) then "" else [s[0]] + WordOf(s[1..]) }

  /** The word that a statement begins with once blanks and comments are passed. */
  function Verb(st: string): string { Capitals(WordOf(StripLeft(Bare(Tokens(st))))) }

  /** A statement that begins with a word by which a transaction is begun or ended, whatever follows. */
  predicate Controls(st: string) {
    Verb(st) in {"BEGIN", "START", "COMMIT", "END", "ROLLBACK", "ABORT"}
  }

  predicate HasComment(st: string) { exists t :: t in Tokens(st) && Comment(t) }

  predicate AllIdent(s: string) { forall c :: c in s ==> IsIdent(c) }

  /** Putting the same text in front keeps two texts alike in the word they begin with ... */
  lemma {:induction false} WordFront(t: string, a: string, b: string)
    requires WordOf(a) == WordOf(b)
    ensures WordOf(t + a) == WordOf(t + b)
  {
    if t == "" {
      assert t + a == a && t + b == b;
    } else {
      assert (t + a)[1..] == t[1..] + a && (t + b)[1..] == t[1..] + b;
      WordFront(t[1..], a, b);
    }
  }

  predicate SameStart(a: string, b: string) {
    WordOf(a) == WordOf(b) && WordOf(StripLeft(a)) == WordOf(StripLeft(b))
  }

  /** ... also once blanks are passed. */
  lemma {:induction false} StartFront(t: string, a: string, b: string)
    requires SameStart(a, b)
    ensures SameStart(t + a, t + b)
  {
    hide IsSpace, IsIdent;
    WordFront(t, a, b);
    if t == "" {
      assert t + a == a && t + b == b;
    } else if IsSpace(t[0]) {
      assert (t + a)[1..] == t[1..] + a && (t + b)[1..] == t[1..] + b;
      StartFront(t[1..], a, b);
    }
  }

  /** Translation changes question marks only, and no word begins or ends with what it writes for them. */
  lemma {:induction false} RetokenedStart(ts: seq<string>)
    ensures SameStart(Bare(SqlLaws.Retokened(ts)), Bare(ts))
    decreases |ts|
  {
    hide SameStart, Bare, SqlLaws.Retokened, Comment;
    if ts == [] {
      SqlLaws.NothingRetokened();
      SameAsItself(Bare([]));
    } else {
      var t, rest := ts[0], ts[1..];
      assert ts == [t] + rest;
      SqlLaws.RetokenedCons(t, rest);
      BareCons(t, rest);
      var r := SqlLaws.Retokened(rest);
      MarksAreBare();
      if t == "??" && rest != [] && rest[0] == "??" {
        var more := rest[1..];
        assert rest == ["??"] + more;
        var r' := SqlLaws.Retokened(more);
        BareCons("??", more);
        BareCons("??", r');
        DoubleMarks(Bare(r'), Bare(more));
      } else if t == "?" || t == "??" {
        BareCons("?", r);
        BareCons("%", ["s"] + r);
        BareCons("s", r);
        assert ["%", "s"] + r == ["%"] + (["s"] + r);
        MarkTexts(Bare(r), Bare(rest));
      } else {
        RetokenedStart(rest);
        BareCons(t, r);
        StartFront(if Comment(t) then " " else t, Bare(r), Bare(rest));
      }
    }
  }

  lemma SameAsItself(a: string)
    ensures SameStart(a, a)
  {
  }

  lemma MarksAreBare()
    ensures !Comment("?") && !Comment("??") && !Comment("%") && !Comment("s")
  {
    assert "?"[0] == '?' && "??"[0] == '?' && "%"[0] == '%' && "s"[0] == 's';
  }

  lemma NoWord(s: string)
    requires s != "" && (s[0] == '?' || s[0] == '%')
    ensures WordOf(s) == "" && StripLeft(s) == s
  {
  }

  lemma MarkTexts(a: string, b: string)
    ensures SameStart("%" + ("s" + a), "?" + b) && SameStart("?" + a, "??" + b)
  {
    NoWord("%" + ("s" + a));
    NoWord("?" + a);
    NoWord("?" + b);
    NoWord("??" + b);
  }

  lemma DoubleMarks(a: string, b: string)
    ensures SameStart("??" + a, "??" + ("??" + b))
  {
    NoWord("??" + a);
    NoWord("??" + ("??" + b));
  }

  lemma VerbTranslated(st: string)
    ensures Verb(Translate(st)) == Verb(st)
  {
    hide Tokens, Bare, Translate;
    SqlLaws.RelexTranslated(st);
    RetokenedStart(Tokens(st));
  }

  lemma {:induction false} WordIsAll(s: string)
    requires AllIdent(s)
    ensures WordOf(s) == s
  {
    if s != "" { WordIsAll(s[1..]); }
  }

  lemma {:induction false} UpperIdent(s: string, c: char)
    requires c in s && !IsIdent(c)
    ensures c in Upper(s)
  {
    UpperKeeps(s, c);
  }

  lemma BoundaryIsWord(st: string)
    requires SqlLaws.Trimmed(st) && IsBoundary(st)
    ensures AllIdent(st)
  {
    hide Strip, SqlLaws.Trimmed, Upper;
    SqlLaws.StripTrims(st);
    forall c | c in st ensures IsIdent(c) {
      if !IsIdent(c) {
        UpperIdent(st, c);
        LettersAreIdent(Upper(st), c);
      }
    }
  }

  lemma LettersAreIdent(word: string, c: char)
    requires Bounds(word) && c in word
    ensures IsIdent(c)
  {
  }

  /** What the code drops comes to BEGIN or COMMIT, unless it is no transaction command at all. */
  lemma DroppedIsBare(st: string)
    requires SqlLaws.Trimmed(st) && IsBoundary(st) && Controls(st)
    ensures Bounds(Effective(st)) && !HasComment(st)
  {
    hide Tokens, Bare, Upper, Capitals, Comment, Strip, StripLeft, WordOf, IsBoundary, SqlLaws.Trimmed, AllIdent;
    forall t | t in Tokens(st) ensures !Comment(t) {
      if Comment(t) { CommentUnrecognised(st, t); }
    }
    BareIsAll(st);
    SqlLaws.StripTrims(st);
    TrimmedStart(st);
    BoundaryIsWord(st);
    WordIsAll(st);
    ControlsHaveNoDotless(Capitals(st));
    CapitalsAreUpper(st);
    BoundaryIs(st);
  }

  lemma BoundaryIs(st: string)
    requires IsBoundary(st)
    ensures Bounds(Upper(Strip(st)))
  {
  }

  lemma TrimmedStart(st: string)
    requires SqlLaws.Trimmed(st)
    ensures StripLeft(st) == st
  {
  }

  lemma ControlsHaveNoDotless(verb: string)
    requires verb in {"BEGIN", "START", "COMMIT", "END", "ROLLBACK", "ABORT"}
    ensures '\U{0131}' !in verb
  {
  }

  /** Which statements of a script's own that begin or end a transaction reach the database inside the
      transaction of the runner: all but those that are BEGIN or COMMIT and nothing else, comments included. */
  lemma ControlSent(script: string, st: string)
    requires st in Split(script) && Controls(st)
    ensures !IsBoundary(st) <==> HasComment(st) || !Bounds(Effective(st))
    ensures HasComment(st) || !Bounds(Effective(st)) ==> Translate(st) in Sent(Split(script)) && Controls(Translate(st))
  {
    hide Split, Effective, IsBoundary, SqlLaws.Trimmed, Tokens, Translate, Verb, Sent, Kept;
    SqlLaws.StatementsAreSingle(script, st);
    if IsBoundary(st) { DroppedIsBare(st); }
    if Bounds(Effective(st)) { RecognisedExactly(st); }
    VerbTranslated(st);
    if !IsBoundary(st) { SentOf(Split(script), st); }
  }

  lemma SentOf(sts: seq<string>, st: string)
    requires st in sts && !IsBoundary(st)
    ensures Translate(st) in Sent(sts)
  {
    hide IsBoundary, Translate;
    KeptIn(sts);
    SentIsKept(sts);
    var i :| 0 <= i < |Kept(sts)| && Kept(sts)[i] == st;
    assert Sent(sts)[i] == Translate(st);
  }

  /** And nothing else that reaches it begins or ends a transaction. */
  lemma SentControls(script: string, text: string)
    ensures text in Sent(Split(script)) && Controls(text) <==>
      exists st ::
        st in Split(script) && text == Translate(st) && Controls(st) && (HasComment(st) || !Bounds(Effective(st)))
  {
    hide Split, Effective, IsBoundary, Tokens, Translate, Verb, Sent, Kept, HasComment;
    var sts := Split(script);
    if text in Sent(sts) && Controls(text) {
      var st := SourceOf(sts, text);
      VerbTranslated(st);
      ControlSent(script, st);
    }
    if st :| st in sts && text == Translate(st) && Controls(st) && (HasComment(st) || !Bounds(Effective(st))) {
      ControlSent(script, st);
    }
  }

  lemma SourceOf(sts: seq<string>, text: string) returns (st: string)
    requires text in Sent(sts)
    ensures st in sts && !IsBoundary(st) && text == Translate(st)
  {
    hide IsBoundary, Translate;
    KeptIn(sts);
    SentIsKept(sts);
    var i :| 0 <= i < |Sent(sts)| && Sent(sts)[i] == text;
    st := Kept(sts)[i];
    assert st in Kept(sts);
  }

  /** Of the statements that are BEGIN or COMMIT and nothing else, exactly those with a comment are sent. */
  lemma HiddenBoundaries(script: string, st: string)
    ensures st in Sent(Split(script)) && Bounds(Effective(st)) <==>
      st in Split(script) && Bounds(Effective(st)) && HasComment(st)
  {
    hide Split, Effective, IsBoundary, SqlLaws.Trimmed, Tokens, Translate;
    var sts := Split(script);
    if st in Sent(sts) && Bounds(Effective(st)) {
      var source := SourceOf(sts, st);
      EffectiveIsPlain(source);
      SqlLaws.StatementsAreSingle(script, st);
      RecognisedExactly(st);
    }
    if st in sts && Bounds(Effective(st)) && HasComment(st) {
      SqlLaws.StatementsAreSingle(script, st);
      RecognisedExactly(st);
      EffectiveIsPlain(st);
      SentOf(sts, st);
    }
  }

  /** So a script sends a bare BEGIN or COMMIT exactly when one of its statements is one with a comment. */
  lemma SendsBoundary(script: string)
    ensures (exists st :: st in Sent(Split(script)) && Bounds(Effective(st))) <==>
      exists st :: st in Split(script) && Bounds(Effective(st)) && !IsBoundary(st)
  {
    hide Split, Effective, IsBoundary, SqlLaws.Trimmed, Tokens, Comment;
    forall st
      ensures st in Sent(Split(script)) && Bounds(Effective(st)) <==>
        st in Split(script) && Bounds(Effective(st)) && !IsBoundary(st)
    {
      HiddenBoundaries(script, st);
      if st in Split(script) && Bounds(Effective(st)) {
        SqlLaws.StatementsAreSingle(script, st);
        RecognisedExactly(st);
      }
    }
  }

  /** A command spelled out is sent although there is no comment with it. */
  lemma CommitWork()
    ensures Sent(Split("COMMIT WORK")) == ["COMMIT WORK"] && Controls("COMMIT WORK") && !HasComment("COMMIT WORK")
  {
    hide Split, Effective, Tokens, Translate, IsBoundary, Bare, Verb, Comment;
    var st := "COMMIT WORK";
    OneStatement(st);
    forall t | t in Tokens(st) ensures !Comment(t) { TokenShows(st, t); NotComment(st, t); }
    BareIsAll(st);
    TwoWords();
    SpaceUnrecognised(st);
    SentCons([], [st]);
    assert [] + [st] == [st];
  }

  lemma NotComment(st: string, t: string)
    requires t != "" && t[0] in st && '-' !in st && '/' !in st
    ensures !Comment(t)
  {
  }

  lemma SpaceUnrecognised(st: string)
    requires SqlLaws.Trimmed(st) && ' ' in st
    ensures !IsBoundary(st)
  {
    hide Strip, SqlLaws.Trimmed, Upper;
    SqlLaws.StripTrims(st);
    UpperKeeps(st, ' ');
  }

  lemma TwoWords()
    ensures Bare(Tokens("COMMIT WORK")) == "COMMIT WORK" ==> Verb("COMMIT WORK") == "COMMIT"
  {
    hide Bare, Tokens, StripLeft, WordOf, Capitals, AllIdent;
    CapitalCommit();
    TrimmedStart("COMMIT WORK");
    LettersOnly("COMMIT");
    WordBefore("COMMIT", " WORK");
    assert "COMMIT" + " WORK" == "COMMIT WORK";
  }

  lemma LettersOnly(word: string)
    requires Bounds(word)
    ensures AllIdent(word)
  {
    hide Bounds;
    forall c | c in word ensures IsIdent(c) { LettersAreIdent(word, c); }
  }

  lemma {:induction false} WordBefore(word: string, rest: string)
    requires AllIdent(word) && (rest == "" || !IsIdent(rest[0]))
    ensures WordOf(word + rest) == word
  {
    if word != "" {
      assert (word + rest)[1..] == word[1..] + rest;
      WordBefore(word[1..], rest);
    } else {
      assert word + rest == rest;
    }
  }

  /** The shortest family: a COMMIT on the line below a comment. */
  lemma HiddenCommit(note: string)
    requires '\n' !in note && ';' !in note && '?' !in note
    ensures var script := "--" + note + "\nCOMMIT";
      Sent(Split(script)) == [script] && Effective(script) == "COMMIT"
  {
    hide Split, Effective, Upper, Head, Tokens, Translate;
    var script := "--" + note + "\nCOMMIT";
    OneStatement(script) by { assert script[0] == '-' && script[|script| - 1] == 'T'; }
    CommentFirst(note);
    SqlLaws.StatementsAreSingle(script, script);
    RecognisedExactly(script);
    SentCons([], [script]);
    assert [] + [script] == [script];
  }

  lemma CommentFirst(note: string)
    requires '\n' !in note
    ensures var script := "--" + note + "\nCOMMIT";
      Effective(script) == "COMMIT" && exists t :: t in Tokens(script) && Comment(t)
  {
    hide Tokens, Through, Strip, Capitals, Head, Bare;
    var script, comment := "--" + note + "\nCOMMIT", "--" + note + "\n";
    assert script == comment + "COMMIT";
    CommentHead(note);
    SqlLaws.FirstToken(comment, "COMMIT");
    assert comment in Tokens(script);
    BareCons(comment, Tokens("COMMIT"));
    assert Bare(Tokens("COMMIT")) == "COMMIT" by {
      forall t | t in Tokens("COMMIT") ensures !Comment(t) { TokenShows("COMMIT", t); }
      BareIsAll("COMMIT");
    }
    StrippedCommit();
    assert " " + "COMMIT" == " COMMIT";
  }

  lemma CommentHead(note: string)
    requires '\n' !in note
    ensures Head("--" + note + "\n" + "COMMIT") == |note| + 3
  {
    hide Through;
    var script := "--" + note + "\n" + "COMMIT";
    assert "--" <= script && script[2..] == note + "\n" + "COMMIT";
    ThroughLine(note, "COMMIT");
  }

  lemma StrippedCommit()
    ensures Capitals(Strip(" COMMIT")) == "COMMIT"
  {
    assert " COMMIT"[1..] == "COMMIT";
    assert StripLeft(" COMMIT") == "COMMIT";
    CapitalCommit();
  }

  lemma CapitalCommit()
    ensures Capitals("COMMIT") == "COMMIT"
  {
  }

  lemma BareCons(t: string, ts: seq<string>)
    ensures Bare([t] + ts) == (if Comment(t) then " " else t) + Bare(ts)
  {
  }

  lemma {:induction false} ThroughLine(note: string, rest: string)
    requires '\n' !in note
    ensures Through(note + "\n" + rest, "\n") == |note| + 1
  {
    var s := note + "\n" + rest;
    if note != "" {
      assert s[1..] == note[1..] + "\n" + rest && s[0] == note[0];
      ThroughLine(note[1..], rest);
    }
  }
}
