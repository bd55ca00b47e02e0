/** A reference tokeniser for the SQL dialect of royells_v20_postgres/sql.py.

    It works a whole token at a time: a literal, quoted identifier, comment or dollar-quoted
    body is one token that ends at the first place its closing delimiter appears.  The two
    character machines of SqlLexers are proved against it. */
module SqlTokens {

  /** The characters removed by Python's str.strip(). */
  predicate IsSpace(c: char) {
    var n := c as int;
    9 <= n <= 13 || 28 <= n <= 32 || n == 0x85 || n == 0xA0 || n == 0x1680 || 0x2000 <= n <= 0x200A
    || n == 0x2028 || n == 0x2029 || n == 0x202F || n == 0x205F || n == 0x3000
  }

  /** The class [A-Za-z_0-9] of a dollar tag; a tag may start with a digit. */
  predicate IsWord(c: char) {
    'A' <= c <= 'Z' || 'a' <= c <= 'z' || c == '_' || '0' <= c <= '9'
  }

  /** How much of s lies up to and including the first occurrence of pat; all of s if there is none. */
  function Through(s: string, pat: string): (n: nat)
    requires pat != ""
    ensures n <= |s|
    ensures s != "" ==> n > 0
  {
    if pat <= s then |pat| else if s == "" then 0 else 1 + Through(s[1..], pat)
  }

  /** The same for the text after an opening quote, where a doubled quote does not close. */
  function QuotedThrough(s: string, q: char): (n: nat)
    ensures n <= |s|
    ensures s != "" ==> n > 0
  {
    if s == "" then 0
    else if s[0] != q then 1 + QuotedThrough(s[1..], q)
    else if |s| > 1 && s[1] == q then 2 + QuotedThrough(s[2..], q)
    else 1
  }

  /** Length of the longest prefix of s of the form word* '$', or 0. */
  function TagTail(s: string): (n: nat)
    ensures n <= |s|
    ensures n > 0 ==> forall i :: 0 <= i < n ==> !IsSpace(s[i])
  {
    if s == "" then 0
    else if s[0] == '$' then 1
    else if !IsWord(s[0]) then 0
    else var n := TagTail(s[1..]); if n == 0 then 0 else n + 1
  }

  /** Length of the dollar tag that opens s, or 0. */
  function TagLen(s: string): (n: nat)
    ensures n <= |s|
    ensures n > 0 ==> n >= 2 && s[0] == '$'
  {
    if s != "" && s[0] == '$' && TagTail(s[1..]) > 0 then 1 + TagTail(s[1..]) else 0
  }

  /** Length of the first token. */
  function Head(s: string): (n: nat)
    requires s != ""
    ensures 1 <= n <= |s|
  {
    if "--" <= s then 2 + Through(s[2..], "\n")
    else if "/*" <= s then 2 + Through(s[2..], "*/")
    else if s[0] == '\'' || s[0] == '"' then 1 + QuotedThrough(s[1..], s[0])
    else if TagLen(s) > 0 then TagLen(s) + Through(s[TagLen(s)..], s[..TagLen(s)])
    else if "??" <= s then 2
    else 1
  }

  function Tokens(s: string): (ts: seq<string>) {
    if s == "" then [] else [s[..Head(s)]] + Tokens(s[Head(s)..])
  }

  /** A token whose inside the machines copy without looking at it. */
  predicate Opaque(t: string) {
    "--" <= t || "/*" <= t || (t != "" && (t[0] == '\'' || t[0] == '"')) || (|t| > 1 && t[0] == '$')
  }

  function OpaqueTokens(ts: seq<string>): seq<string> {
    if ts == [] then [] else (if Opaque(ts[0]) then [ts[0]] else []) + OpaqueTokens(ts[1..])
  }

  /** What the translator writes for a token. */
  function Render(t: string): string {
    if t == "??" then "?" else if t == "?" then "%s" else t
  }

  function Rendered(ts: seq<string>): string {
    if ts == [] then "" else Render(ts[0]) + Rendered(ts[1..])
  }

  function Translate(s: string): string {
    Rendered(Tokens(s))
  }

  /** The text between top-level semicolons, in order; always at least one segment. */
  function Segments(s: string): (r: seq<string>)
    ensures |r| >= 1
  {
    if s == "" then [""]
    else
      var rest := Segments(s[Head(s)..]);
      if s[0] == ';' then [""] + rest else Glue(s[..Head(s)], rest)
  }

  function Glue(cur: string, segs: seq<string>): (r: seq<string>)
    requires |segs| >= 1
    ensures |r| == |segs|
  {
    [cur + segs[0]] + segs[1..]
  }

  function StripLeft(s: string): string {
    if s != "" && IsSpace(s[0]) then StripLeft(s[1..]) else s
  }

  function StripRight(s: string): string {
    if s != "" && IsSpace(s[|s| - 1]) then StripRight(s[..|s| - 1]) else s
  }

  function Strip(s: string): string {
    StripRight(StripLeft(s))
  }

  /** The stripped segments that are not empty. */
  function Statements(segs: seq<string>): seq<string> {
    if segs == [] then []
    else (if Strip(segs[0]) == "" then [] else [Strip(segs[0])]) + Statements(segs[1..])
  }

  /** The statements of a script: its text is translated first and then cut. */
  function Split(script: string): seq<string> {
    Statements(Segments(Translate(script)))
  }

  // ----- what the searches mean

  /** A closing delimiter is the first occurrence: one that is there is found, at its place or an earlier one,
      and the end of the text is reached only where there is none. */
  lemma {:induction false} ThroughIsFirst(s: string, pat: string)
    requires pat != ""
    ensures forall i :: 0 <= i <= |s| && pat <= s[i..] ==> Through(s, pat) <= i + |pat|
    ensures (exists i :: 0 <= i <= |s| && pat <= s[i..]) ==>
      |pat| <= Through(s, pat) && pat <= s[Through(s, pat) - |pat|..]
    ensures (forall i :: 0 <= i <= |s| ==> !(pat <= s[i..])) ==> Through(s, pat) == |s|
    decreases |s|
  {
    assert s[0..] == s;
    if s != "" && !(pat <= s) {
      var r := s[1..];
      ThroughIsFirst(r, pat);
      forall i | 0 < i <= |s| ensures r[i - 1..] == s[i..] {
      }
      assert forall i :: 0 <= i <= |r| ==> r[i..] == s[i + 1..];
    }
  }

  // ----- unfolding

  lemma TranslateStep(s: string)
    requires s != ""
    ensures Translate(s) == Render(s[..Head(s)]) + Translate(s[Head(s)..])
  {
    assert Tokens(s)[1..] == Tokens(s[Head(s)..]);
  }

  lemma Assoc<T>(a: seq<T>, b: seq<T>, c: seq<T>)
    ensures (a + b) + c == a + (b + c)
  {
  }
}
