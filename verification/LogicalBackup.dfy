/** The streaming backup and restore of royells_v20_postgres/adapter.py.  A line is the record it encodes, and
    the digest of a text is the text: both encodings are taken to be injective. */
module LogicalBackup {
  import opened Prelude
  import SqlTokens

  type Table = string

  type Row = map<string, string>

  type Database = map<Table, seq<Row>>

  /** The columns of a row line are the keys of its row in the order of the text. */
  datatype Line =
    | Header(version: int, schema: string, tables: seq<Table>)
    | RowLine(table: Table, columns: seq<string>, row: Row)
    | Footer(counts: map<Table, nat>, digest: seq<Line>)

  /** BACKUP_TABLES names every table once; a table name is an identifier and so not empty. */
  predicate Distinct(tables: seq<Table>) {
    "" !in tables && forall i, j :: 0 <= i < j < |tables| ==> tables[i] != tables[j]
  }

  type Manifest = ts: seq<Table> | Distinct(ts) witness []

  function Names(tables: Manifest): set<Table> { set t | t in tables }

  function Index(tables: seq<Table>, t: Table): (i: nat)
    requires t in tables
    ensures i < |tables| && tables[i] == t
  {
    if tables[0] == t then 0 else 1 + Index(tables[1..], t)
  }

  /** The rows a file holds for a table, in order. */
  function RowsFor(lines: seq<Line>, t: Table): seq<Row> {
    if lines == [] then []
    else
      var line := lines[|lines| - 1];
      RowsFor(lines[..|lines| - 1], t) + (if line.RowLine? && line.table == t then [line.row] else [])
  }

  // ----- json.dumps(..., sort_keys=True)

  predicate AtMost(a: string, b: string) {
    a == "" || (b != "" && (a[0] < b[0] || (a[0] == b[0] && AtMost(a[1..], b[1..]))))
  }

  lemma {:induction false} AtMostTotal(a: string, b: string)
    ensures AtMost(a, b) || AtMost(b, a)
    ensures AtMost(a, b) && AtMost(b, a) ==> a == b
  {
    if a != "" && b != "" { AtMostTotal(a[1..], b[1..]); }
  }

  lemma {:induction false} AtMostTransitive(a: string, b: string, c: string)
    requires AtMost(a, b) && AtMost(b, c)
    ensures AtMost(a, c)
  {
    if a != "" && a[0] == b[0] == c[0] { AtMostTransitive(a[1..], b[1..], c[1..]); }
  }

  predicate IsLeast(s: set<string>, x: string) { x in s && forall y :: y in s ==> AtMost(x, y) }

  lemma HasLeast(s: set<string>)
    requires s != {}
    ensures exists x :: IsLeast(s, x)
    decreases |s|
  {
    hide AtMost;
    var x :| x in s;
    var rest := s - {x};
    assert forall z :: z in s <==> z == x || z in rest;
    AtMostTotal(x, x);
    if rest != {} {
      HasLeast(rest);
      var y :| IsLeast(rest, y);
      AtMostTotal(x, y);
      if AtMost(x, y) {
        forall z | z in s ensures AtMost(x, z) { if z != x { AtMostTransitive(x, y, z); } }
        assert IsLeast(s, x);
      } else {
        assert IsLeast(s, y);
      }
    } else {
      assert IsLeast(s, x);
    }
  }

  function Least(s: set<string>): (x: string)
    requires s != {}
    ensures IsLeast(s, x)
  {
    HasLeast(s);
    assert forall x, y | IsLeast(s, x) && IsLeast(s, y) :: x == y by {
      forall x, y | IsLeast(s, x) && IsLeast(s, y) ensures x == y { AtMostTotal(x, y); }
    }
    var x :| IsLeast(s, x);
    x
  }

  function SortedKeys(s: set<string>): (keys: seq<string>)
    ensures forall k :: k in keys <==> k in s
    decreases |s|
  {
    if s == {} then [] else [Least(s)] + SortedKeys(s - {Least(s)})
  }

  /** a stands before b in the order of the characters: it ends where b goes on, or has the smaller one where they
      first differ. */
  ghost predicate Earlier(a: string, b: string) {
    exists n :: 0 <= n <= |a| && n < |b| && a[..n] == b[..n] && (n < |a| ==> a[n] < b[n])
  }

  lemma {:induction false} AtMostEarlier(a: string, b: string)
    requires AtMost(a, b) && a != b
    ensures Earlier(a, b)
  {
    if a == "" {
      assert a[..0] == b[..0];
    } else if a[0] < b[0] {
      assert a[..0] == b[..0];
    } else {
      assert a == [a[0]] + a[1..] && b == [b[0]] + b[1..];
      AtMostEarlier(a[1..], b[1..]);
      var n :| 0 <= n <= |a[1..]| && n < |b[1..]| && a[1..][..n] == b[1..][..n]
        && (n < |a[1..]| ==> a[1..][n] < b[1..][n]);
      assert a[..n + 1] == [a[0]] + a[1..][..n] && b[..n + 1] == [b[0]] + b[1..][..n];
    }
  }

  /** Keys are written in ascending order, each once. */
  lemma {:induction false} KeysAscend(s: set<string>)
    ensures forall i, j :: 0 <= i < j < |SortedKeys(s)| ==> Earlier(SortedKeys(s)[i], SortedKeys(s)[j])
    decreases |s|
  {
    hide Earlier, AtMost;
    if s != {} {
      var x := Least(s);
      var rest := SortedKeys(s - {x});
      KeysAscend(s - {x});
      assert SortedKeys(s) == [x] + rest;
      forall j | 0 <= j < |rest| ensures Earlier(x, rest[j]) {
        assert rest[j] in rest;
        AtMostEarlier(x, rest[j]);
      }
    }
  }

  function Written(t: Table, row: Row): Line { RowLine(t, SortedKeys(row.Keys), row) }

  /** Different columns are written differently. */
  lemma SortedKeysDiffer(a: set<string>, b: set<string>)
    requires SortedKeys(a) == SortedKeys(b)
    ensures a == b
  {
    assert forall k :: k in a <==> k in SortedKeys(a);
    assert forall k :: k in b <==> k in SortedKeys(b);
  }

  // ----- backup

  function Lines(t: Table, rows: seq<Row>): seq<Line> { seq(|rows|, i requires 0 <= i < |rows| => Written(t, rows[i])) }

  function Body(db: Database, tables: seq<Table>): seq<Line>
    requires forall t :: t in tables ==> t in db
  {
    if tables == [] then []
    else Body(db, tables[..|tables| - 1]) + Lines(tables[|tables| - 1], db[tables[|tables| - 1]])
  }

  function Counts(db: Database, tables: seq<Table>): map<Table, nat>
    requires forall t :: t in tables ==> t in db
  {
    map t | t in tables :: |db[t]|
  }

  function BackupFile(db: Database, tables: Manifest): seq<Line>
    requires Names(tables) == db.Keys
  {
    var content := [Header(2, "royells", tables)] + Body(db, tables);
    content + [Footer(Counts(db, tables), content)]
  }

  /** One table is read in batches and written line by line. */
  method Dump(t: Table, rows: seq<Row>, batchSize: nat) returns (lines: seq<Line>, count: nat)
    requires batchSize > 0
    ensures lines == Lines(t, rows) && count == |rows|
  {
    lines, count := [], 0;
    var at := 0;
    while at < |rows|
      invariant at == count <= |rows| && lines == Lines(t, rows[..at])
    {
      var batch := rows[at..if at + batchSize <= |rows| then at + batchSize else |rows|];
      for k := 0 to |batch|
        invariant count == at + k && lines == Lines(t, rows[..at + k])
      {
        lines := lines + [Written(t, batch[k])];
        count := count + 1;
      }
      at := at + |batch|;
    }
    assert rows[..at] == rows;
  }

  lemma BodyNext(db: Database, tables: seq<Table>, i: nat)
    requires i < |tables| && forall t :: t in tables ==> t in db
    ensures Body(db, tables[..i + 1]) == Body(db, tables[..i]) + Lines(tables[i], db[tables[i]])
    ensures Counts(db, tables[..i + 1]) == Counts(db, tables[..i])[tables[i] := |db[tables[i]]|]
  {
    assert tables[..i + 1][..i] == tables[..i];
    assert tables[..i + 1] == tables[..i] + [tables[i]];
  }

  /** royells_v20_postgres/adapter.py, backup. */
  method Backup(db: Database, tables: Manifest, batchSize: nat) returns (file: seq<Line>)
    requires Names(tables) == db.Keys && batchSize > 0
    ensures file == BackupFile(db, tables)
  {
    hide Body, Counts;
    var header := [Header(2, "royells", tables)];
    file := header;
    var counts: map<Table, nat> := map[];
    assert forall t :: t in tables ==> t in Names(tables);
    NothingDumped(db);
    assert header + [] == header;
    for i := 0 to |tables|
      invariant file == header + Body(db, tables[..i]) && counts == Counts(db, tables[..i])
    {
      BodyNext(db, tables, i);
      var lines, count := Dump(tables[i], db[tables[i]], batchSize);
      Assoc(header, Body(db, tables[..i]), lines);
      file := file + lines;
      counts := counts[tables[i] := count];
    }
    assert tables[..|tables|] == tables;
    file := file + [Footer(counts, file)];
  }

  lemma NothingDumped(db: Database)
    ensures Body(db, []) == [] && Counts(db, []) == map[]
  {
  }

  lemma Assoc<T>(a: seq<T>, b: seq<T>, c: seq<T>)
    ensures (a + b) + c == a + (b + c)
  {
  }

  // ----- restore

  function FirstFooter(lines: seq<Line>): (n: nat)
    ensures n <= |lines| && (n < |lines| ==> lines[n].Footer?) && forall k :: 0 <= k < n ==> !lines[k].Footer?
  {
    if lines == [] || lines[0].Footer? then 0 else 1 + FirstFooter(lines[1..])
  }

  function LastHeader(lines: seq<Line>): (h: Option<Line>)
    ensures h.Some? ==> h.value.Header?
  {
    if lines == [] then None
    else if lines[|lines| - 1].Header? then Some(lines[|lines| - 1]) else LastHeader(lines[..|lines| - 1])
  }

  /** The footer's counts, where header, digest and manifest are right. */
  function Verified(file: seq<Line>, tables: Manifest): Option<map<Table, nat>> {
    var n := FirstFooter(file);
    if n == |file| then None
    else
      var content, footer := file[..n], file[n];
      var header := LastHeader(content);
      if header == Some(Header(2, "royells", tables)) && footer.digest == content && footer.counts.Keys == Names(tables)
      then Some(footer.counts) else None
  }

  /** royells_v20_postgres/adapter.py, _verify_backup. */
  method VerifyBackup(file: seq<Line>, tables: Manifest) returns (counts: Option<map<Table, nat>>)
    ensures counts == Verified(file, tables)
  {
    var digest: seq<Line> := [];
    var header: Option<Line> := None;
    var i := 0;
    while i < |file| && !file[i].Footer?
      invariant 0 <= i <= FirstFooter(file) && digest == file[..i] && header == LastHeader(file[..i])
    {
      assert file[..i + 1][..i] == file[..i];
      if file[i].Header? {
        header := Some(file[i]);
      }
      digest := digest + [file[i]];
      i := i + 1;
    }
    if header == None || header.value.version != 2 || header.value.schema != "royells"
      || header.value.tables != tables {
      return None;
    }
    if i == |file| || file[i].digest != digest || file[i].counts.Keys != Names(tables) {
      return None;
    }
    return Some(file[i].counts);
  }

  /** Rows of known tables only, grouped in manifest order, with the same columns throughout a table. */
  ghost predicate Loadable(lines: seq<Line>, tables: Manifest) {
    && (forall i :: 0 <= i < |lines| && lines[i].RowLine? ==> lines[i].table in tables)
    && (forall i, j :: 0 <= i < j < |lines| && lines[i].RowLine? && lines[j].RowLine? ==>
          Index(tables, lines[i].table) <= Index(tables, lines[j].table)
          && (lines[i].table == lines[j].table ==> lines[i].columns == lines[j].columns))
  }

  /** quote_identifier refuses anything else. */
  predicate IsIdentifier(s: string) { s != "" && !('0' <= s[0] <= '9') && forall c :: c in s ==> SqlTokens.IsWord(c) }

  /** A letter or an underscore, and letters, digits and underscores behind it. */
  lemma IdentifiersExactly(s: string)
    ensures IsIdentifier(s) <==>
      && s != "" && ('A' <= s[0] <= 'Z' || 'a' <= s[0] <= 'z' || s[0] == '_')
      && forall i :: 0 <= i < |s| ==>
        'A' <= s[i] <= 'Z' || 'a' <= s[i] <= 'z' || '0' <= s[i] <= '9' || s[i] == '_'
  {
    assert forall i :: 0 <= i < |s| ==> s[i] in s;
  }

  /** A row with these columns can be inserted: there is one, and all are identifiers. */
  predicate Insertable(columns: seq<string>) { columns != [] && forall c :: c in columns ==> IsIdentifier(c) }

  ghost predicate AllInsertable(lines: seq<Line>) {
    forall k :: 0 <= k < |lines| && lines[k].RowLine? ==> Insertable(lines[k].columns)
  }

  /** A file is restored when it verifies, loads, has rows that can be inserted, and holds as many rows of each
      table as its footer says; rows behind the footer are loaded and counted like those before it. */
  ghost predicate Acceptable(file: seq<Line>, tables: Manifest) {
    && Verified(file, tables).Some? && Loadable(file, tables) && AllInsertable(file)
    && forall t :: t in tables ==> |RowsFor(file, t)| == Verified(file, tables).value[t]
  }

  function Emptied(tables: Manifest): Database { map t | t in tables :: [] }

  /** flush_rows: INSERT the collected rows. */
  function Flushed(db: Database, t: Table, rows: seq<Row>): Database {
    if rows == [] || t !in db then db else db[t := db[t] + rows]
  }

  /** The loop's local variables. */
  datatype Loader = Loader(db: Database, current: Table, columns: seq<string>, rows: seq<Row>, last: int)

  /** After some lines every row seen is inserted or collected, in order. */
  ghost predicate Loading(seen: seq<Line>, tables: Manifest, l: Loader) {
    && Loadable(seen, tables) && l.db.Keys == Names(tables)
    && (forall t :: t in tables ==> l.db[t] + (if t == l.current then l.rows else []) == RowsFor(seen, t))
    && (forall k :: 0 <= k < |seen| && seen[k].RowLine? ==>
          Index(tables, seen[k].table) <= l.last && (seen[k].table == l.current ==> seen[k].columns == l.columns))
    && if l.current == "" then l.rows == [] && l.last == -1
       else l.current in tables && l.last == Index(tables, l.current)
            && exists k :: 0 <= k < |seen| && seen[k].RowLine? && seen[k].table == l.current
  }

  /** All rows seen can be inserted, but perhaps those that are still collected. */
  ghost predicate Inserting(seen: seq<Line>, l: Loader) {
    forall k :: 0 <= k < |seen| && seen[k].RowLine? ==>
      (seen[k].table == l.current && l.rows != []) || Insertable(seen[k].columns)
  }

  predicate FlushFails(l: Loader) { l.rows != [] && !Insertable(l.columns) }

  lemma FlushInserts(seen: seq<Line>, tables: Manifest, l: Loader)
    requires Loading(seen, tables, l) && Inserting(seen, l) && !FlushFails(l)
    ensures Inserting(seen, Flush(l)) && AllInsertable(seen)
  {
    hide Insertable, Index, RowsFor;
  }

  /** What cannot be inserted makes the file unacceptable. */
  lemma FlushRefused(file: seq<Line>, i: nat, tables: Manifest, l: Loader)
    requires i <= |file| && Loading(file[..i], tables, l) && FlushFails(l)
    ensures !AllInsertable(file)
  {
    hide Insertable, Index, RowsFor;
    var seen := file[..i];
    var k :| 0 <= k < |seen| && seen[k].RowLine? && seen[k].table == l.current;
    assert file[k] == seen[k];
  }

  lemma RowInserts(seen: seq<Line>, tables: Manifest, l: Loader, line: Line)
    requires line.RowLine? && line.table in tables && Inserting(seen, l)
    requires line.table != l.current ==> AllInsertable(seen)
    ensures Inserting(seen + [line], Took(Switched(l, tables, line), line.row))
  {
    hide Insertable, Index;
  }

  lemma OtherInserts(seen: seq<Line>, l: Loader, line: Line)
    requires !line.RowLine? && Inserting(seen, l)
    ensures Inserting(seen + [line], l)
  {
    hide Insertable;
  }

  function Flush(l: Loader): Loader { l.(db := Flushed(l.db, l.current, l.rows), rows := []) }

  /** A row of another table: what was collected is inserted, and the row sets the columns. */
  function Switched(l: Loader, tables: seq<Table>, line: Line): Loader
    requires line.RowLine? && line.table in tables
  {
    if line.table == l.current then l
    else Loader(Flush(l).db, line.table, line.columns, [], Index(tables, line.table))
  }

  function Took(l: Loader, row: Row): Loader { l.(rows := l.rows + [row]) }

  lemma RowsForNext(seen: seq<Line>, line: Line, t: Table)
    ensures RowsFor(seen + [line], t)
      == RowsFor(seen, t) + (if line.RowLine? && line.table == t then [line.row] else [])
  {
    assert (seen + [line])[..|seen|] == seen;
  }

  lemma FlushKeeps(seen: seq<Line>, tables: Manifest, l: Loader)
    requires Loading(seen, tables, l)
    ensures Loading(seen, tables, Flush(l))
  {
    assert forall t :: t in tables <==> t in Names(tables);
  }

  lemma OtherLine(seen: seq<Line>, tables: Manifest, l: Loader, line: Line)
    requires Loading(seen, tables, l) && !line.RowLine?
    ensures Loading(seen + [line], tables, l)
  {
    hide Index, RowsFor;
    forall t | t in tables ensures RowsFor(seen + [line], t) == RowsFor(seen, t) {
      RowsForNext(seen, line, t);
      assert RowsFor(seen, t) + [] == RowsFor(seen, t);
    }
    if l.current != "" {
      var k :| 0 <= k < |seen| && seen[k].RowLine? && seen[k].table == l.current;
      assert (seen + [line])[k].table == l.current;
    }
  }

  lemma SameTable(seen: seq<Line>, tables: Manifest, l: Loader, line: Line)
    requires Loading(seen, tables, l) && line.RowLine? && line.table == l.current && l.current != ""
      && line.columns == l.columns
    ensures Loading(seen + [line], tables, Took(l, line.row))
  {
    hide Index, RowsFor;
    var all := seen + [line];
    forall t | t in tables ensures l.db[t] + (if t == l.current then l.rows + [line.row] else []) == RowsFor(all, t) {
      RowsForNext(seen, line, t);
      if t == l.current {
        Assoc(l.db[t], l.rows, [line.row]);
      }
    }
    assert all[|seen|] == line;
  }

  lemma NewTable(seen: seq<Line>, tables: Manifest, l: Loader, line: Line)
    requires Loading(seen, tables, l) && line.RowLine? && line.table != l.current && line.table in tables
    requires Index(tables, line.table) >= l.last
    ensures Loading(seen + [line], tables, Took(Switched(l, tables, line), line.row))
  {
    hide Index, RowsFor;
    FlushKeeps(seen, tables, l);
    var f, all := Flush(l), seen + [line];
    assert Index(tables, line.table) > l.last;
    assert forall k :: 0 <= k < |seen| && seen[k].RowLine? ==> seen[k].table != line.table;
    forall t | t in tables ensures f.db[t] + (if t == line.table then [line.row] else []) == RowsFor(all, t) {
      RowsForNext(seen, line, t);
      assert f.db[t] + [] == f.db[t];
    }
    assert all[|seen|] == line;
  }

  /** What the loop refuses cannot be part of a loadable file. */
  lemma Refused(file: seq<Line>, i: nat, tables: Manifest, l: Loader)
    requires i < |file| && Loading(file[..i], tables, l) && file[i].RowLine?
    requires file[i].table !in tables || Index(tables, file[i].table) < l.last
      || (file[i].table == l.current && file[i].columns != l.columns)
    ensures !Loadable(file, tables)
  {
    if file[i].table in tables && l.current != "" {
      var k :| 0 <= k < i && file[..i][k].RowLine? && file[..i][k].table == l.current;
      assert file[..i][k] == file[k];
    }
  }

  /** royells_v20_postgres/adapter.py, restore: the database is left alone where it raises. */
  method Restore(db: Database, file: seq<Line>, tables: Manifest, batchSize: nat) returns (after: Database, ok: bool)
    requires batchSize > 0
    ensures ok <==> Acceptable(file, tables)
    ensures !ok ==> after == db
    ensures ok ==> after == map t | t in tables :: RowsFor(file, t)
  {
    hide Loading, Loadable, Index, RowsFor, Tally, Verified, Flushed, Names, Emptied;
    hide Inserting, Insertable, AllInsertable;
    var expected := VerifyBackup(file, tables);
    if expected == None {
      return db, false;
    }
    assert expected.value.Keys == Names(tables) by { VerifiedKeys(file, tables); }
    var l := Loader(Emptied(tables), "", [], [], -1);
    var restored: map<Table, nat> := map t | t in tables :: 0;
    NothingSeen(tables);
    for i := 0 to |file|
      invariant Loading(file[..i], tables, l) && Inserting(file[..i], l)
      invariant restored == Tally(file[..i], tables)
    {
      var line := file[i];
      assert file[..i + 1] == file[..i] + [line];
      TallyNext(file[..i], line, tables);
      if line.RowLine? {
        if line.table !in tables || Index(tables, line.table) < l.last {
          Refused(file, i, tables, l);
          return db, false;
        }
        if line.table != l.current {
          if FlushFails(l) {
            FlushRefused(file, i, tables, l);
            return db, false;
          }
          FlushInserts(file[..i], tables, l);
          NewTable(file[..i], tables, l, line);
          RowInserts(file[..i], tables, l, line);
          l := Switched(l, tables, line);
        } else if line.columns != l.columns {
          Refused(file, i, tables, l);
          return db, false;
        } else {
          SameTable(file[..i], tables, l, line);
          RowInserts(file[..i], tables, l, line);
        }
        l := Took(l, line.row);
        restored := restored[line.table := restored[line.table] + 1];
        if |l.rows| >= batchSize {
          if FlushFails(l) {
            FlushRefused(file, i + 1, tables, l);
            return db, false;
          }
          FlushKeeps(file[..i + 1], tables, l);
          FlushInserts(file[..i + 1], tables, l);
          l := Flush(l);
        }
      } else {
        OtherLine(file[..i], tables, l, line);
        OtherInserts(file[..i], l, line);
      }
    }
    assert file[..|file|] == file;
    AllSeen(file, tables, l);
    TallyAgrees(file, tables, expected.value);
    if FlushFails(l) {
      FlushRefused(file, |file|, tables, l);
      return db, false;
    }
    FlushInserts(file, tables, l);
    l := Flush(l);
    if restored != expected.value {
      return db, false;
    }
    return l.db, true;
  }

  lemma VerifiedKeys(file: seq<Line>, tables: Manifest)
    requires Verified(file, tables).Some?
    ensures Verified(file, tables).value.Keys == Names(tables)
  {
  }

  lemma NothingSeen(tables: Manifest)
    ensures Loading([], tables, Loader(Emptied(tables), "", [], [], -1))
    ensures Inserting([], Loader(Emptied(tables), "", [], [], -1))
    ensures Tally([], tables) == map t | t in tables :: 0
  {
  }

  /** restored_counts after some lines. */
  function Tally(seen: seq<Line>, tables: seq<Table>): (counts: map<Table, nat>)
    ensures forall t :: t in counts <==> t in tables
  {
    map t | t in tables :: |RowsFor(seen, t)|
  }

  lemma TallyNext(seen: seq<Line>, line: Line, tables: Manifest)
    ensures Tally(seen + [line], tables) ==
      if line.RowLine? && line.table in tables
      then Tally(seen, tables)[line.table := Tally(seen, tables)[line.table] + 1]
      else Tally(seen, tables)
  {
    hide RowsFor;
    var a, b := Tally(seen, tables), Tally(seen + [line], tables);
    var c := if line.RowLine? && line.table in tables then a[line.table := a[line.table] + 1] else a;
    forall t | t in tables ensures b[t] == c[t] { RowsForNext(seen, line, t); }
    assert b.Keys == c.Keys;
  }

  lemma TallyAgrees(file: seq<Line>, tables: Manifest, counts: map<Table, nat>)
    requires counts.Keys == Names(tables)
    ensures Tally(file, tables) == counts <==> forall t :: t in tables ==> |RowsFor(file, t)| == counts[t]
  {
    assert forall t :: t in tables <==> t in Names(tables);
  }

  lemma AllSeen(file: seq<Line>, tables: Manifest, l: Loader)
    requires Loading(file, tables, l)
    ensures Loadable(file, tables) && Flush(l).db == map t | t in tables :: RowsFor(file, t)
  {
    FlushKeeps(file, tables, l);
    assert forall t :: t in tables ==> Flush(l).db[t] + [] == Flush(l).db[t];
  }

  // ----- backup, then restore

  /** Every row of a table has the same columns. */
  ghost predicate Uniform(db: Database) {
    forall t, i, j :: t in db && 0 <= i < j < |db[t]| ==> db[t][i].Keys == db[t][j].Keys
  }

  /** Every row can be inserted again. */
  ghost predicate Named(db: Database) {
    forall t, i :: t in db && 0 <= i < |db[t]| ==> Insertable(SortedKeys(db[t][i].Keys))
  }

  lemma {:induction false} RowsForConcat(a: seq<Line>, b: seq<Line>, t: Table)
    ensures RowsFor(a + b, t) == RowsFor(a, t) + RowsFor(b, t)
    decreases |b|
  {
    if b == [] {
      assert a + b == a;
    } else {
      var b', line := b[..|b| - 1], b[|b| - 1];
      assert a + b == (a + b') + [line] && b == b' + [line];
      RowsForConcat(a, b', t);
      RowsForNext(a + b', line, t);
      RowsForNext(b', line, t);
    }
  }

  lemma {:induction false} RowsForLines(t: Table, rows: seq<Row>, u: Table)
    ensures RowsFor(Lines(t, rows), u) == if t == u then rows else []
    decreases |rows|
  {
    hide RowsFor;
    EmptyRows();
    assert rows == [] ==> Lines(t, rows) == [];
    if rows != [] {
      var n := |rows| - 1;
      RowsForLines(t, rows[..n], u);
      assert Lines(t, rows) == Lines(t, rows[..n]) + [Written(t, rows[n])];
      RowsForNext(Lines(t, rows[..n]), Written(t, rows[n]), u);
      assert rows == rows[..n] + [rows[n]];
    }
  }

  lemma IndexOf(tables: Manifest, n: nat)
    requires n < |tables|
    ensures Index(tables, tables[n]) == n
  {
  }

  /** Lines of known tables with an index below n, loadable together. */
  ghost predicate LoadsBelow(lines: seq<Line>, tables: Manifest, n: nat) {
    Loadable(lines, tables) && forall k :: 0 <= k < |lines| ==>
      lines[k].RowLine? && lines[k].table in tables && Index(tables, lines[k].table) < n
  }

  lemma LoadsOneMore(lines: seq<Line>, tables: Manifest, n: nat, rows: seq<Row>)
    requires n < |tables| && LoadsBelow(lines, tables, n)
    requires forall i, j :: 0 <= i < j < |rows| ==> rows[i].Keys == rows[j].Keys
    ensures LoadsBelow(lines + Lines(tables[n], rows), tables, n + 1)
  {
    hide Index, Lines;
    IndexOf(tables, n);
    var more := Lines(tables[n], rows);
    LinesAre(tables[n], rows);
    var all := lines + more;
    assert forall k :: 0 <= k < |lines| ==> all[k] == lines[k];
    assert forall k :: |lines| <= k < |all| ==> all[k] == Written(tables[n], rows[k - |lines|]);
  }

  /** The dump of the first n tables loads ... */
  lemma {:induction false} BodyLoads(db: Database, tables: Manifest, n: nat)
    requires Names(tables) == db.Keys && Uniform(db) && n <= |tables| && forall t :: t in tables ==> t in db
    ensures LoadsBelow(Body(db, tables[..n]), tables, n)
  {
    hide Index, LoadsBelow, Body;
    if n == 0 {
      NothingDumped(db);
      NothingLoads(tables);
    } else {
      BodyLoads(db, tables, n - 1);
      BodyNext(db, tables, n - 1);
      LoadsOneMore(Body(db, tables[..n - 1]), tables, n - 1, db[tables[n - 1]]);
    }
  }

  lemma NothingLoads(tables: Manifest)
    ensures LoadsBelow([], tables, 0)
  {
  }

  /** ... and holds exactly their rows. */
  lemma {:induction false} BodyRows(db: Database, tables: Manifest, n: nat, u: Table)
    requires n <= |tables| && (forall t :: t in tables ==> t in db) && u in tables
    ensures RowsFor(Body(db, tables[..n]), u) == if Index(tables, u) < n then db[u] else []
  {
    hide Index, RowsFor, Body;
    if n == 0 {
      NothingDumped(db);
      EmptyRows();
    } else {
      var t := tables[n - 1];
      BodyRows(db, tables, n - 1, u);
      BodyNext(db, tables, n - 1);
      IndexOf(tables, n - 1);
      RowsForConcat(Body(db, tables[..n - 1]), Lines(t, db[t]), u);
      RowsForLines(t, db[t], u);
      if t == u {
        assert [] + db[u] == db[u];
      } else {
        assert RowsFor(Body(db, tables[..n - 1]), u) + [] == RowsFor(Body(db, tables[..n - 1]), u);
      }
    }
  }

  lemma EmptyRows()
    ensures forall t :: RowsFor([], t) == []
  {
  }

  lemma LinesAre(t: Table, rows: seq<Row>)
    ensures |Lines(t, rows)| == |rows| && forall k :: 0 <= k < |rows| ==> Lines(t, rows)[k] == Written(t, rows[k])
  {
  }

  // ----- where the footer stands

  function Content(db: Database, tables: Manifest): seq<Line>
    requires Names(tables) == db.Keys
  {
    [Header(2, "royells", tables)] + Body(db, tables)
  }

  /** The lines of a backup with the footer behind the first k of them, its digest over those k. */
  function FooterAt(db: Database, tables: Manifest, k: nat): seq<Line>
    requires Names(tables) == db.Keys && k <= |Content(db, tables)|
  {
    var content := Content(db, tables);
    content[..k] + [Footer(Counts(db, tables), content[..k])] + content[k..]
  }

  lemma FooterIsAt(before: seq<Line>, footer: Line, after: seq<Line>)
    requires footer.Footer? && forall k :: 0 <= k < |before| ==> !before[k].Footer?
    ensures var file := before + [footer] + after;
      FirstFooter(file) == |before| && file[..|before|] == before && file[|before|] == footer
  {
    var file := before + [footer] + after;
    assert file[|before|] == footer;
    assert forall k :: 0 <= k < |before| ==> file[k] == before[k];
  }

  lemma {:induction false} HeaderBefore(content: seq<Line>)
    requires content != [] && content[0].Header? && forall k :: 0 < k < |content| ==> content[k].RowLine?
    ensures LastHeader(content) == Some(content[0])
    decreases |content|
  {
    if |content| > 1 { HeaderBefore(content[..|content| - 1]); }
  }

  /** A line that holds no row changes neither the rows nor whether they load, wherever it is put. */
  lemma OtherLineRows(before: seq<Line>, line: Line, after: seq<Line>, t: Table)
    requires !line.RowLine?
    ensures RowsFor(before + [line] + after, t) == RowsFor(before + after, t)
  {
    hide RowsFor;
    RowsForNext(before, line, t);
    assert RowsFor(before, t) + [] == RowsFor(before, t);
    RowsForConcat(before + [line], after, t);
    RowsForConcat(before, after, t);
  }

  lemma OtherLineLoads(before: seq<Line>, line: Line, after: seq<Line>, tables: Manifest)
    requires !line.RowLine? && Loadable(before + after, tables)
    ensures Loadable(before + [line] + after, tables)
  {
    hide Index;
    var n := |before|;
    var lines, all := before + after, before + [line] + after;
    assert forall k :: 0 <= k < |all| && k != n ==> all[k] == lines[if k < n then k else k - 1];
  }

  /** The lines of a backup: a header and then rows, written with their columns sorted. */
  lemma ContentLines(db: Database, tables: Manifest)
    requires Names(tables) == db.Keys
    ensures var content := Content(db, tables);
      forall k :: 0 < k < |content| ==> content[k].RowLine? && content[k].columns == SortedKeys(content[k].row.Keys)
  {
    hide Body;
    assert forall t :: t in tables ==> t in Names(tables);
    assert tables[..|tables|] == tables;
    BodyLines(db, tables, |tables|);
  }

  ghost predicate AllWritten(lines: seq<Line>) {
    forall k :: 0 <= k < |lines| ==> lines[k].RowLine? && lines[k].columns == SortedKeys(lines[k].row.Keys)
  }

  lemma {:induction false} BodyLines(db: Database, tables: seq<Table>, n: nat)
    requires n <= |tables| && forall t :: t in tables ==> t in db
    ensures AllWritten(Body(db, tables[..n]))
  {
    hide Body, Lines, SortedKeys;
    if n == 0 {
      NothingDumped(db);
    } else {
      BodyLines(db, tables, n - 1);
      BodyNext(db, tables, n - 1);
      LinesAre(tables[n - 1], db[tables[n - 1]]);
    }
  }

  lemma ContentRows(db: Database, tables: Manifest, t: Table)
    requires Names(tables) == db.Keys && t in tables
    ensures RowsFor(Content(db, tables), t) == db[t]
  {
    hide Index, RowsFor, Body;
    assert tables[..|tables|] == tables;
    assert forall u :: u in tables ==> u in Names(tables);
    var header := Header(2, "royells", tables);
    OtherLineRows([], header, Body(db, tables), t);
    assert [] + [header] == [header] && [] + Body(db, tables) == Body(db, tables);
    BodyRows(db, tables, |tables|, t);
  }

  lemma ContentLoads(db: Database, tables: Manifest)
    requires Names(tables) == db.Keys && Uniform(db)
    ensures Loadable(Content(db, tables), tables)
  {
    hide Index, Body, Loadable;
    assert tables[..|tables|] == tables;
    assert forall u :: u in tables ==> u in Names(tables);
    var header := Header(2, "royells", tables);
    BodyLoads(db, tables, |tables|);
    OtherLineLoads([], header, Body(db, tables), tables) by {
      assert [] + Body(db, tables) == Body(db, tables);
    }
    assert [] + [header] == [header];
  }

  lemma FooterVerifies(db: Database, tables: Manifest, k: nat)
    requires Names(tables) == db.Keys && 1 <= k <= |Content(db, tables)|
    ensures Verified(FooterAt(db, tables, k), tables) == Some(Counts(db, tables))
  {
    hide FirstFooter, Body, LastHeader, SortedKeys;
    var content := Content(db, tables);
    ContentLines(db, tables);
    FooterIsAt(content[..k], Footer(Counts(db, tables), content[..k]), content[k..]);
    HeaderBefore(content[..k]);
    assert forall t :: t in tables <==> t in Names(tables);
    assert Counts(db, tables).Keys == Names(tables);
  }

  lemma {:induction false} RowIsALine(lines: seq<Line>, t: Table, row: Row) returns (k: nat)
    requires row in RowsFor(lines, t)
    ensures k < |lines| && lines[k].RowLine? && lines[k].table == t && lines[k].row == row
    decreases |lines|
  {
    var n := |lines| - 1;
    if row in RowsFor(lines[..n], t) {
      k := RowIsALine(lines[..n], t, row);
    } else {
      k := n;
    }
  }

  lemma LoadableRows(lines: seq<Line>, tables: Manifest, t: Table, i: nat, j: nat)
    requires Loadable(lines, tables) && i < j < |RowsFor(lines, t)|
    requires AllColumns(lines)
    ensures RowsFor(lines, t)[i].Keys == RowsFor(lines, t)[j].Keys
  {
    hide RowsFor, Index, SortedKeys;
    var x := RowIsALine(lines, t, RowsFor(lines, t)[i]);
    var y := RowIsALine(lines, t, RowsFor(lines, t)[j]);
    SortedKeysDiffer(lines[x].row.Keys, lines[y].row.Keys);
  }

  /** The code does not care where the footer stands: with its digest over the lines before it, it is accepted
      at any place exactly when the rows of each table have the same columns, at least one and named by
      identifiers, and every row is restored. */
  lemma FooterAnywhere(db: Database, tables: Manifest, k: nat)
    requires Names(tables) == db.Keys && 1 <= k <= |Content(db, tables)|
    ensures Acceptable(FooterAt(db, tables, k), tables) <==> Uniform(db) && Named(db)
    ensures (map t | t in tables :: RowsFor(FooterAt(db, tables, k), t)) == db
  {
    hide Index, RowsFor, Verified, Content, Loadable, Counts, SortedKeys, Insertable, Uniform, Named, AllInsertable;
    var content, file := Content(db, tables), FooterAt(db, tables, k);
    var footer := Footer(Counts(db, tables), content[..k]);
    assert content[..k] + content[k..] == content;
    CountsAre(db, tables);
    assert forall t :: t in tables <==> t in Names(tables);
    forall t | t in tables ensures RowsFor(file, t) == db[t] {
      OtherLineRows(content[..k], footer, content[k..], t);
      ContentRows(db, tables, t);
    }
    FooterVerifies(db, tables, k);
    WrittenAround(db, tables, k);
    if Uniform(db) {
      ContentLoads(db, tables);
      OtherLineLoads(content[..k], footer, content[k..], tables);
      if Named(db) { NamedInserts(db, tables, file); }
    }
    if Acceptable(file, tables) {
      UniformRows(db, tables, file);
      InsertsNamed(db, tables, file);
    }
  }

  lemma UniformRows(db: Database, tables: Manifest, file: seq<Line>)
    requires Names(tables) == db.Keys && Loadable(file, tables) && AllColumns(file)
    requires forall t :: t in tables ==> RowsFor(file, t) == db[t]
    ensures Uniform(db)
  {
    hide Index, RowsFor, Loadable, SortedKeys;
    assert forall t :: t in tables <==> t in Names(tables);
    forall t, i, j | t in db && 0 <= i < j < |db[t]| ensures db[t][i].Keys == db[t][j].Keys {
      LoadableRows(file, tables, t, i, j);
    }
  }

  lemma NamedInserts(db: Database, tables: Manifest, file: seq<Line>)
    requires Names(tables) == db.Keys && Loadable(file, tables) && AllColumns(file) && Named(db)
    requires forall t :: t in tables ==> RowsFor(file, t) == db[t]
    ensures AllInsertable(file)
  {
    hide Index, RowsFor, SortedKeys, Insertable;
    assert forall t :: t in tables <==> t in Names(tables);
    forall k | 0 <= k < |file| && file[k].RowLine? ensures Insertable(file[k].columns) {
      LineIsARow(file, k);
      var i :| 0 <= i < |db[file[k].table]| && db[file[k].table][i] == file[k].row;
    }
  }

  lemma InsertsNamed(db: Database, tables: Manifest, file: seq<Line>)
    requires Names(tables) == db.Keys && AllInsertable(file) && AllColumns(file)
    requires forall t :: t in tables ==> RowsFor(file, t) == db[t]
    ensures Named(db)
  {
    hide RowsFor, SortedKeys, Insertable;
    assert forall t :: t in tables <==> t in Names(tables);
    forall t, i | t in db && 0 <= i < |db[t]| ensures Insertable(SortedKeys(db[t][i].Keys)) {
      var k := RowIsALine(file, t, db[t][i]);
    }
  }

  ghost predicate AllColumns(lines: seq<Line>) {
    forall k :: 0 <= k < |lines| && lines[k].RowLine? ==> lines[k].columns == SortedKeys(lines[k].row.Keys)
  }

  lemma WrittenAround(db: Database, tables: Manifest, k: nat)
    requires Names(tables) == db.Keys && 1 <= k <= |Content(db, tables)|
    ensures AllColumns(FooterAt(db, tables, k))
  {
    hide Body, SortedKeys, Counts;
    ContentLines(db, tables);
    var content, file := Content(db, tables), FooterAt(db, tables, k);
    assert forall j :: 0 <= j < |file| && j != k ==> file[j] == content[if j < k then j else j - 1];
  }

  lemma CountsAre(db: Database, tables: Manifest)
    requires Names(tables) == db.Keys
    ensures forall t :: t in tables ==> t in db && t in Counts(db, tables) && Counts(db, tables)[t] == |db[t]|
  {
    assert forall t :: t in tables ==> t in Names(tables);
  }

  /** Restoring what was backed up gives back every table, row for row and whatever the two batch sizes; it is
      accepted exactly when the rows of each table have the same columns, at least one and named by identifiers. */
  lemma RestoreUndoesBackup(db: Database, tables: Manifest)
    requires Names(tables) == db.Keys
    ensures Acceptable(BackupFile(db, tables), tables) <==> Uniform(db) && Named(db)
    ensures (map t | t in tables :: RowsFor(BackupFile(db, tables), t)) == db
  {
    hide RowsFor, Body, Counts, Acceptable;
    var content := Content(db, tables);
    FooterAnywhere(db, tables, |content|);
    assert content[..|content|] == content && content[|content|..] == [];
    assert FooterAt(db, tables, |content|) == BackupFile(db, tables);
  }

  ghost predicate HoldsRow(lines: seq<Line>) { exists k :: 0 <= k < |lines| && lines[k].RowLine? }

  lemma RowsBehind(before: seq<Line>, after: seq<Line>, t: Table)
    ensures RowsFor(before + after, t) == RowsFor(before, t) <==> RowsFor(after, t) == []
  {
    hide RowsFor;
    RowsForConcat(before, after, t);
    if RowsFor(after, t) == [] { assert RowsFor(before, t) + [] == RowsFor(before, t); }
  }

  /** The digest covers every row that is restored exactly when no row stands behind the first footer. */
  lemma DigestCoversRows(file: seq<Line>, tables: Manifest)
    requires Acceptable(file, tables)
    ensures (forall t :: t in tables ==> RowsFor(file, t) == RowsFor(file[..FirstFooter(file)], t)) <==>
      !HoldsRow(file[FirstFooter(file)..])
  {
    hide RowsFor, Index, HoldsRow, FirstFooter, Verified;
    var n := FirstFooter(file);
    var before, after := file[..n], file[n..];
    assert before + after == file;
    forall t ensures RowsFor(file, t) == RowsFor(before, t) <==> RowsFor(after, t) == [] {
      RowsBehind(before, after, t);
    }
    if HoldsRow(after) {
      var k := RowIn(after);
      assert file[n + k] == after[k];
      LineIsARow(after, k);
    } else {
      forall t ensures RowsFor(after, t) == [] { NoRows(after, t); }
    }
  }

  lemma RowIn(lines: seq<Line>) returns (k: nat)
    requires HoldsRow(lines)
    ensures k < |lines| && lines[k].RowLine?
  {
    k :| k < |lines| && lines[k].RowLine?;
  }

  lemma {:induction false} NoRows(lines: seq<Line>, t: Table)
    requires !HoldsRow(lines)
    ensures RowsFor(lines, t) == []
    decreases |lines|
  {
    if lines != [] {
      assert !lines[|lines| - 1].RowLine?;
      NoRows(lines[..|lines| - 1], t);
    }
  }

  lemma {:induction false} LineIsARow(lines: seq<Line>, k: nat)
    requires k < |lines| && lines[k].RowLine?
    ensures lines[k].row in RowsFor(lines, lines[k].table)
    decreases |lines|
  {
    if k < |lines| - 1 { LineIsARow(lines[..|lines| - 1], k); }
  }

  lemma OneColumn(c: string)
    requires IsIdentifier(c)
    ensures Insertable(SortedKeys({c}))
  {
    assert c in SortedKeys({c});
  }

  /** The smallest such file: header, footer, and one row behind them. */
  lemma RowBehindFooter()
    ensures var header := Header(2, "royells", ["t"]);
      var file := [header, Footer(map["t" := 1], [header]), Written("t", map["c" := "v"])];
      Acceptable(file, ["t"]) && RowsFor(file, "t") == [map["c" := "v"]] && FirstFooter(file) == 1
  {
    hide RowsFor, SortedKeys, Acceptable;
    var header, row := Header(2, "royells", ["t"]), map["c" := "v"];
    var db, tables: Manifest := map["t" := [row]], ["t"];
    var file := [header, Footer(map["t" := 1], [header]), Written("t", row)];
    assert Names(tables) == db.Keys;
    assert Body(db, tables) == [Written("t", row)] by {
      assert tables[..0] == [] && Body(db, []) == [];
      LinesAre("t", [row]);
    }
    assert Content(db, tables) == [header, Written("t", row)];
    assert Counts(db, tables) == map["t" := 1];
    assert FooterAt(db, tables, 1) == file;
    OneColumn("c");
    assert row.Keys == {"c"};
    assert Uniform(db) && Named(db);
    FooterAnywhere(db, tables, 1);
    assert (map t | t in tables :: RowsFor(file, t))["t"] == [row];
  }
}
