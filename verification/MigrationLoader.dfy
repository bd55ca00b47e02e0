/** Loading the local migrations: royells_v20_postgres/migrations.py, _load.  The migration files come with
    their names taken apart, in the order of the names; the digest of a text is the text. */
module MigrationLoader {
  import opened Prelude
  import opened MigrationLedger
  import opened MigrationScripts
  import SqlQuotes
  import SqlTokens

  datatype Side = UpSide | DownSide

  datatype ScriptFile = ScriptFile(version: nat, name: string, side: Side, path: Path)

  /** Migration files are grouped by version and name. */
  type Key = (nat, string)

  datatype Scripts = Scripts(up: Option<string>, down: Option<string>)

  datatype Loaded = Loaded(version: nat, name: string, upSql: string, downSql: string)

  datatype LoadFault = Unread(fault: Fault) | NoUpScript | DuplicateVersion | VersionGap

  function KeyOf(f: ScriptFile): Key { (f.version, f.name) }

  function Keys(files: seq<ScriptFile>): set<Key> { set f | f in files :: KeyOf(f) }

  /** The last file of a group and side is the one that stands. */
  function ScriptOf(t: Tree, files: seq<ScriptFile>, key: Key, side: Side): Option<string> {
    if files == [] then None
    else
      var n := |files| - 1;
      var f := files[n];
      if KeyOf(f) == key && f.side == side then
        match Expand(t, f.path, {}) case Ok(text) => Some(text) case Err(_) => None
      else ScriptOf(t, files[..n], key, side)
  }

  function Pair(t: Tree, files: seq<ScriptFile>, key: Key): Scripts {
    Scripts(ScriptOf(t, files, key, UpSide), ScriptOf(t, files, key, DownSide))
  }

  ghost predicate AllRead(t: Tree, files: seq<ScriptFile>) {
    forall f :: f in files ==> Expand(t, f.path, {}).Ok?
  }

  /** The first file that is not read, and why. */
  ghost predicate FirstUnread(t: Tree, files: seq<ScriptFile>, e: Fault) {
    exists i :: 0 <= i < |files| && AllRead(t, files[..i]) && Expand(t, files[i].path, {}) == Err(e)
  }

  ghost predicate EveryGroupHasUp(t: Tree, files: seq<ScriptFile>) {
    forall k :: k in Keys(files) ==> ScriptOf(t, files, k, UpSide).Some?
  }

  ghost predicate OneNamePerVersion(files: seq<ScriptFile>) {
    forall j, k :: j in Keys(files) && k in Keys(files) && j.0 == k.0 ==> j == k
  }

  ghost predicate HasVersion(files: seq<ScriptFile>, v: nat) { exists k :: k in Keys(files) && k.0 == v }

  ghost predicate NoGap(files: seq<ScriptFile>) {
    forall j, k, v :: j in Keys(files) && k in Keys(files) && j.0 <= v <= k.0 ==> HasVersion(files, v)
  }

  /** Each migration comes from its own group, and every group has one. */
  ghost predicate FromFiles(t: Tree, files: seq<ScriptFile>, ms: seq<Loaded>) {
    && (forall k :: k in Keys(files) <==> exists m :: m in ms && (m.version, m.name) == k)
    && (forall m :: m in ms ==> IsGroup(t, files, m))
  }

  ghost predicate IsGroup(t: Tree, files: seq<ScriptFile>, m: Loaded) {
    var s := Pair(t, files, (m.version, m.name));
    s.up == Some(m.upSql) && m.downSql == if s.down.Some? then s.down.value else ""
  }

  function Record(m: Loaded): Migration { Migration(m.version, m.name, m.upSql, SqlTokens.Strip(m.downSql) != "") }

  function Records(ms: seq<Loaded>): seq<Migration> { seq(|ms|, i requires 0 <= i < |ms| => Record(ms[i])) }

  /** The text stands for a group and side: that of the last of its files. */
  ghost predicate Stands(t: Tree, files: seq<ScriptFile>, version: nat, name: string, side: Side, text: string) {
    exists i :: 0 <= i < |files| && files[i].version == version && files[i].name == name && files[i].side == side
      && Expand(t, files[i].path, {}) == Ok(text)
      && forall j :: i < j < |files| ==>
        !(files[j].version == version && files[j].name == name && files[j].side == side)
  }

  lemma {:induction false} ScriptStands(t: Tree, files: seq<ScriptFile>, version: nat, name: string, side: Side)
    ensures ScriptOf(t, files, (version, name), side).Some? ==>
      Stands(t, files, version, name, side, ScriptOf(t, files, (version, name), side).value)
    ensures (forall f :: f in files ==> !(f.version == version && f.name == name && f.side == side)) ==>
      ScriptOf(t, files, (version, name), side) == None
    ensures AllRead(t, files) && ScriptOf(t, files, (version, name), side) == None ==>
      forall f :: f in files ==> !(f.version == version && f.name == name && f.side == side)
    decreases |files|
  {
    hide Expand;
    if files != [] {
      var n := |files| - 1;
      ScriptStands(t, files[..n], version, name, side);
      assert files == files[..n] + [files[n]];
      assert files[n] in files;
    }
  }

  /** What is loaded is named and numbered like its files and has their texts; a migration without a down file has an
      empty down script. */
  lemma LoadedStands(t: Tree, files: seq<ScriptFile>, ms: seq<Loaded>, m: Loaded)
    requires AllRead(t, files) && FromFiles(t, files, ms) && m in ms
    ensures Stands(t, files, m.version, m.name, UpSide, m.upSql)
    ensures if exists f :: f in files && f.version == m.version && f.name == m.name && f.side == DownSide
      then Stands(t, files, m.version, m.name, DownSide, m.downSql) else m.downSql == ""
  {
    hide Expand, ScriptOf, Stands, AllRead;
    assert IsGroup(t, files, m);
    ScriptStands(t, files, m.version, m.name, UpSide);
    ScriptStands(t, files, m.version, m.name, DownSide);
  }

  /** And every file is one of a migration. */
  lemma FileIsLoaded(t: Tree, files: seq<ScriptFile>, ms: seq<Loaded>, f: ScriptFile)
    requires FromFiles(t, files, ms) && f in files
    ensures exists m :: m in ms && m.version == f.version && m.name == f.name
  {
    assert KeyOf(f) in Keys(files);
  }

  /** The record of a migration has its up script for a checksum, and it is reversible exactly when its down script
      holds a character that is no blank. */
  lemma RecordExactly(m: Loaded)
    ensures Record(m).version == m.version && Record(m).name == m.name && Record(m).checksum == m.upSql
    ensures Record(m).reversible <==>
      exists i :: 0 <= i < |m.downSql| && m.downSql[i] as int !in SqlQuotes.BLANKS
  {
    SqlQuotes.BlankStrips(m.downSql);
  }

  // ----- grouping

  lemma OneMore(t: Tree, files: seq<ScriptFile>, i: nat, key: Key)
    requires i < |files| && Expand(t, files[i].path, {}).Ok?
    ensures var f, before, text := files[i], Pair(t, files[..i], key), Expand(t, files[i].path, {}).value;
      Pair(t, files[..i + 1], key) ==
        if KeyOf(f) != key then before
        else if f.side == UpSide then before.(up := Some(text)) else before.(down := Some(text))
  {
    assert files[..i + 1][..i] == files[..i];
  }

  lemma KeysMore(files: seq<ScriptFile>, i: nat)
    requires i < |files|
    ensures Keys(files[..i + 1]) == Keys(files[..i]) + {KeyOf(files[i])}
  {
    assert files[..i + 1] == files[..i] + [files[i]];
  }

  lemma {:induction false} NoScript(t: Tree, files: seq<ScriptFile>, key: Key, side: Side)
    requires key !in Keys(files)
    ensures ScriptOf(t, files, key, side) == None
    decreases |files|
  {
    if files != [] {
      assert KeyOf(files[|files| - 1]) in Keys(files);
      assert forall f :: f in files[..|files| - 1] ==> f in files;
      NoScript(t, files[..|files| - 1], key, side);
    }
  }

  lemma NoFiles()
    ensures Keys([]) == {}
  {
  }

  lemma OneRead(t: Tree, files: seq<ScriptFile>, i: nat)
    requires i < |files|
    ensures AllRead(t, files[..i + 1]) <==> AllRead(t, files[..i]) && Expand(t, files[i].path, {}).Ok?
    ensures AllRead(t, files) ==> Expand(t, files[i].path, {}).Ok?
  {
    assert files[..i + 1] == files[..i] + [files[i]];
    assert files[i] in files;
  }

  /** The first half of _load. */
  method Group(t: Tree, files: seq<ScriptFile>) returns (r: Result<map<Key, Scripts>, Fault>)
    ensures r.Ok? <==> AllRead(t, files)
    ensures r.Err? ==> FirstUnread(t, files, r.error)
    ensures r.Ok? ==> r.value.Keys == Keys(files) && forall k :: k in r.value ==> r.value[k] == Pair(t, files, k)
  {
    hide Expand, ScriptOf, Keys, AllRead;
    var grouped: map<Key, Scripts> := map[];
    NoFiles();
    NothingUnread(t);
    var i := 0;
    while i < |files|
      invariant 0 <= i <= |files| && AllRead(t, files[..i])
      invariant grouped.Keys == Keys(files[..i])
      invariant forall k :: k in grouped ==> grouped[k] == Pair(t, files[..i], k)
    {
      OneRead(t, files, i);
      KeysMore(files, i);
      var text := ReadScript(t, files[i].path, {});
      if text.Err? {
        return Err(text.error);
      }
      var key := KeyOf(files[i]);
      Unseen(t, files[..i], key);
      var scripts := if key in grouped then grouped[key] else Scripts(None, None);
      scripts := if files[i].side == UpSide then scripts.(up := Some(text.value))
        else scripts.(down := Some(text.value));
      grouped := grouped[key := scripts];
      forall k | k in grouped ensures grouped[k] == Pair(t, files[..i + 1], k) { OneMore(t, files, i, k); }
      i := i + 1;
    }
    assert files[..i] == files;
    return Ok(grouped);
  }

  lemma NothingUnread(t: Tree)
    ensures AllRead(t, [])
  {
  }

  lemma Unseen(t: Tree, files: seq<ScriptFile>, key: Key)
    ensures key !in Keys(files) ==> Pair(t, files, key) == Scripts(None, None)
  {
    if key !in Keys(files) {
      NoScript(t, files, key, UpSide);
      NoScript(t, files, key, DownSide);
    }
  }

  // ----- ordering

  ghost predicate Lowest(keys: set<Key>, k: Key) { k in keys && forall j :: j in keys ==> k.0 <= j.0 }

  lemma HasLowest(keys: set<Key>)
    requires keys != {}
    ensures exists k :: Lowest(keys, k)
    decreases |keys|
  {
    var x :| x in keys;
    var rest := keys - {x};
    assert forall j :: j in keys <==> j == x || j in rest;
    if rest == {} {
      assert Lowest(keys, x);
    } else {
      HasLowest(rest);
      var y :| Lowest(rest, y);
      assert Lowest(keys, if x.0 < y.0 then x else y);
    }
  }

  method TakeLowest(keys: set<Key>) returns (k: Key)
    requires keys != {}
    ensures Lowest(keys, k)
  {
    HasLowest(keys);
    k :| k in keys && forall j :: j in keys ==> k.0 <= j.0;
  }

  ghost predicate Sorted(ms: seq<Loaded>) { forall i, j :: 0 <= i < j < |ms| ==> ms[i].version <= ms[j].version }

  /** Each of the keys once. */
  ghost predicate Lists(ms: seq<Loaded>, keys: set<Key>) {
    && (forall k :: k in keys <==> exists m :: m in ms && (m.version, m.name) == k)
    && (forall i, j :: 0 <= i < j < |ms| ==> (ms[i].version, ms[i].name) != (ms[j].version, ms[j].name))
  }

  lemma ListsMore(ms: seq<Loaded>, keys: set<Key>, m: Loaded)
    requires Lists(ms, keys) && (m.version, m.name) !in keys
    ensures Lists(ms + [m], keys + {(m.version, m.name)})
  {
    var ms', keys' := ms + [m], keys + {(m.version, m.name)};
    assert forall i :: 0 <= i < |ms| ==> ms[i] in ms;
    forall k ensures k in keys' <==> exists x :: x in ms' && (x.version, x.name) == k {
      if k in keys {
        var x :| x in ms && (x.version, x.name) == k;
        assert x in ms';
      } else if k in keys' {
        assert m in ms';
      }
    }
  }

  ghost predicate Distinct(vs: seq<nat>) { forall i, j :: 0 <= i < j < |vs| ==> vs[i] != vs[j] }

  function Elements(vs: seq<nat>): set<nat> { set v | v in vs }

  /** len(versions) == len(set(versions)) */
  lemma {:induction false} DistinctCount(vs: seq<nat>)
    ensures |Elements(vs)| <= |vs| && (|Elements(vs)| == |vs| <==> Distinct(vs))
    decreases |vs|
  {
    if vs != [] {
      DistinctCount(vs[1..]);
      assert vs == [vs[0]] + vs[1..];
      assert Elements(vs) == {vs[0]} + Elements(vs[1..]);
      DistinctCons(vs[0], vs[1..]);
      if vs[0] in vs[1..] { assert Elements(vs) == Elements(vs[1..]); }
    }
  }

  lemma DistinctCons(v: nat, vs: seq<nat>)
    ensures Distinct([v] + vs) <==> v !in vs && Distinct(vs)
  {
    var all := [v] + vs;
    assert forall i :: 0 <= i < |vs| ==> all[i + 1] == vs[i];
    if v in vs {
      var i :| 0 <= i < |vs| && vs[i] == v;
      assert all[0] == all[i + 1];
    }
  }

  lemma VersionsOnce(files: seq<ScriptFile>, ms: seq<Loaded>)
    requires Lists(ms, Keys(files))
    ensures OneNamePerVersion(files) <==> forall i, j :: 0 <= i < j < |ms| ==> ms[i].version != ms[j].version
  {
    hide Keys;
    if i, j :| 0 <= i < j < |ms| && ms[i].version == ms[j].version {
      assert ms[i] in ms && ms[j] in ms;
      assert (ms[i].version, ms[i].name) in Keys(files) && (ms[j].version, ms[j].name) in Keys(files);
    } else {
      forall a, b | a in Keys(files) && b in Keys(files) && a.0 == b.0 ensures a == b {
        var x :| x in ms && (x.version, x.name) == a;
        var y :| y in ms && (y.version, y.name) == b;
        var i :| 0 <= i < |ms| && ms[i] == x;
        var j :| 0 <= j < |ms| && ms[j] == y;
      }
    }
  }

  ghost predicate Rising(ms: seq<Loaded>) { forall i, j :: 0 <= i < j < |ms| ==> ms[i].version < ms[j].version }

  ghost predicate Ranging(ms: seq<Loaded>) { forall i :: 0 <= i < |ms| ==> ms[i].version == ms[0].version + i }

  /** A group is listed at some place, and what is listed is a group. */
  lemma PlaceOf(files: seq<ScriptFile>, ms: seq<Loaded>, k: Key) returns (i: nat)
    requires Lists(ms, Keys(files)) && k in Keys(files)
    ensures i < |ms| && ms[i].version == k.0
  {
    hide Keys;
    var m :| m in ms && (m.version, m.name) == k;
    i :| 0 <= i < |ms| && ms[i] == m;
  }

  lemma KeyAt(files: seq<ScriptFile>, ms: seq<Loaded>, i: nat)
    requires Lists(ms, Keys(files)) && i < |ms|
    ensures (ms[i].version, ms[i].name) in Keys(files) && HasVersion(files, ms[i].version)
  {
    hide Keys;
    assert ms[i] in ms;
  }

  lemma RangeHasNoGap(files: seq<ScriptFile>, ms: seq<Loaded>)
    requires Lists(ms, Keys(files)) && Ranging(ms)
    ensures NoGap(files)
  {
    hide Keys, Lists;
    forall j, k, v | j in Keys(files) && k in Keys(files) && j.0 <= v <= k.0 ensures HasVersion(files, v) {
      var x := PlaceOf(files, ms, j);
      var y := PlaceOf(files, ms, k);
      KeyAt(files, ms, v - ms[0].version);
    }
  }

  lemma NoRangeHasGap(files: seq<ScriptFile>, ms: seq<Loaded>)
    requires Lists(ms, Keys(files)) && Rising(ms) && !Ranging(ms)
    ensures !NoGap(files)
  {
    hide Keys, Lists;
    var i := FirstGap(ms);
    var v := ms[i].version + 1;
    KeyAt(files, ms, i);
    KeyAt(files, ms, i + 1);
    forall k | k in Keys(files) ensures k.0 != v {
      var j := PlaceOf(files, ms, k);
      assert j < i ==> ms[j].version < ms[i].version;
      assert i + 1 < j ==> ms[i + 1].version < ms[j].version;
    }
    assert !HasVersion(files, v);
  }

  /** Strictly ascending versions are a range exactly when there is no gap in them. */
  lemma RangeOrGap(files: seq<ScriptFile>, ms: seq<Loaded>)
    requires Lists(ms, Keys(files)) && Rising(ms)
    ensures NoGap(files) <==> Ranging(ms)
  {
    if Ranging(ms) { RangeHasNoGap(files, ms); } else { NoRangeHasGap(files, ms); }
  }

  lemma {:induction false} FirstGap(ms: seq<Loaded>) returns (i: nat)
    requires Rising(ms) && !Ranging(ms)
    ensures i + 1 < |ms| && ms[i].version + 1 < ms[i + 1].version
  {
    i := 0;
    while i + 1 < |ms| && ms[i + 1].version == ms[0].version + i + 1
      invariant i < |ms| && forall j :: 0 <= j <= i ==> ms[j].version == ms[0].version + j
    {
      i := i + 1;
    }
  }

  lemma SortedMore(ms: seq<Loaded>, m: Loaded, left: set<Key>)
    requires Sorted(ms) && Lowest(left, (m.version, m.name)) && Below(ms, left)
    ensures Sorted(ms + [m]) && Below(ms + [m], left - {(m.version, m.name)})
  {
    assert forall i :: 0 <= i < |ms| ==> ms[i] in ms;
  }

  ghost predicate Below(ms: seq<Loaded>, left: set<Key>) {
    forall m, k :: m in ms && k in left ==> m.version <= k.0
  }

  /** What is listed comes from the groups done, which all have an up script. */
  ghost predicate AllGroups(t: Tree, files: seq<ScriptFile>, ms: seq<Loaded>, done: set<Key>) {
    && (forall m :: m in ms ==> IsGroup(t, files, m))
    && (forall k :: k in done ==> Pair(t, files, k).up.Some?)
  }

  lemma NothingListed(t: Tree, files: seq<ScriptFile>, left: set<Key>)
    ensures Sorted([]) && Lists([], {}) && Below([], left) && AllGroups(t, files, [], {})
  {
  }

  lemma InLeft(left: set<Key>, key: Key)
    requires Lowest(left, key)
    ensures key in left
  {
  }

  ghost predicate Parts(done: set<Key>, left: set<Key>, all: set<Key>) { done + left == all && done !! left }

  lemma PartsMoved(done: set<Key>, left: set<Key>, all: set<Key>, key: Key)
    requires Parts(done, left, all) && key in left
    ensures Parts(done + {key}, left - {key}, all) && key in all && key !in done
  {
  }

  lemma AllLeft(all: set<Key>)
    ensures Parts({}, all, all)
  {
  }

  lemma NothingIsLeft(done: set<Key>, all: set<Key>)
    requires Parts(done, {}, all)
    ensures done == all
  {
  }

  lemma NoUp(t: Tree, files: seq<ScriptFile>, key: Key)
    requires key in Keys(files) && Pair(t, files, key).up == None
    ensures !EveryGroupHasUp(t, files)
  {
  }

  lemma GroupsMore(t: Tree, files: seq<ScriptFile>, ms: seq<Loaded>, done: set<Key>, m: Loaded)
    requires AllGroups(t, files, ms, done)
    requires var s := Pair(t, files, (m.version, m.name));
      s.up == Some(m.upSql) && m.downSql == if s.down.Some? then s.down.value else ""
    ensures AllGroups(t, files, ms + [m], done + {(m.version, m.name)})
  {
    hide ScriptOf;
  }

  /** The second half of _load: the groups in ascending order, each with its up script. */
  method Listed(t: Tree, files: seq<ScriptFile>, grouped: map<Key, Scripts>) returns (r: Option<seq<Loaded>>)
    requires grouped.Keys == Keys(files) && forall k :: k in grouped ==> grouped[k] == Pair(t, files, k)
    ensures r.Some? <==> EveryGroupHasUp(t, files)
    ensures r.Some? ==> Sorted(r.value) && Lists(r.value, Keys(files)) && FromFiles(t, files, r.value)
  {
    hide Keys, Pair, AllGroups, Sorted, Lists, Below, Lowest, FromFiles, Parts, EveryGroupHasUp;
    var ms: seq<Loaded> := [];
    var left := grouped.Keys;
    ghost var done: set<Key> := {};
    NothingListed(t, files, left);
    AllLeft(grouped.Keys);
    while left != {}
      invariant Parts(done, left, grouped.Keys)
      invariant Sorted(ms) && Lists(ms, done) && Below(ms, left)
      invariant AllGroups(t, files, ms, done)
      decreases |left|
    {
      var key := TakeLowest(left);
      InLeft(left, key);
      PartsMoved(done, left, grouped.Keys, key);
      var scripts := grouped[key];
      if scripts.up == None {
        NoUp(t, files, key);
        return None;
      }
      var m := Loaded(key.0, key.1, scripts.up.value, if scripts.down.Some? then scripts.down.value else "");
      GroupsMore(t, files, ms, done, m);
      ListsMore(ms, done, m);
      SortedMore(ms, m, left);
      ms := ms + [m];
      left := left - {key};
      done := done + {key};
    }
    NothingIsLeft(done, grouped.Keys);
    ListedAll(t, files, ms);
    return Some(ms);
  }

  lemma ListedAll(t: Tree, files: seq<ScriptFile>, ms: seq<Loaded>)
    requires Lists(ms, Keys(files)) && AllGroups(t, files, ms, Keys(files))
    ensures FromFiles(t, files, ms) && EveryGroupHasUp(t, files)
  {
    hide ScriptOf;
  }

  function VersionsOf(ms: seq<Loaded>): seq<nat> { seq(|ms|, i requires 0 <= i < |ms| => ms[i].version) }

  method Load(t: Tree, files: seq<ScriptFile>) returns (r: Result<seq<Loaded>, LoadFault>)
    ensures match r
      case Ok(ms) =>
        && AllRead(t, files) && EveryGroupHasUp(t, files) && OneNamePerVersion(files) && NoGap(files)
        && FromFiles(t, files, ms) && Contiguous(Records(ms))
      case Err(Unread(e)) => FirstUnread(t, files, e)
      case Err(NoUpScript) => AllRead(t, files) && !EveryGroupHasUp(t, files)
      case Err(DuplicateVersion) => AllRead(t, files) && EveryGroupHasUp(t, files) && !OneNamePerVersion(files)
      case Err(VersionGap) =>
        AllRead(t, files) && EveryGroupHasUp(t, files) && OneNamePerVersion(files) && !NoGap(files)
  {
    hide Keys, AllRead, EveryGroupHasUp, OneNamePerVersion, NoGap, FromFiles, FirstUnread, Lists;
    var grouped := Group(t, files);
    if grouped.Err? {
      return Err(Unread(grouped.error));
    }
    var listed := Listed(t, files, grouped.value);
    if listed == None {
      return Err(NoUpScript);
    }
    var ms := listed.value;
    var versions := VersionsOf(ms);
    DistinctCount(versions);
    VersionsOnce(files, ms);
    assert Distinct(versions) <==> forall i, j :: 0 <= i < j < |ms| ==> ms[i].version != ms[j].version by {
      assert forall i :: 0 <= i < |ms| ==> versions[i] == ms[i].version;
    }
    if |versions| != |Elements(versions)| {
      return Err(DuplicateVersion);
    }
    RangeOrGap(files, ms);
    if ms != [] {
      var first, last := ms[0].version, ms[|ms| - 1].version;
      var range := seq(last + 1 - first, i => first + i);
      if versions != range {
        assert exists i :: 0 <= i < |ms| && ms[i].version != first + i;
        return Err(VersionGap);
      }
      assert forall i :: 0 <= i < |ms| ==> ms[i].version == versions[i] == range[i] == first + i;
    }
    return Ok(ms);
  }

  lemma LocalLoaded(ms: seq<Loaded>)
    requires Contiguous(Records(ms))
    ensures forall v :: v in Versions(Records(ms)) <==> exists m :: m in ms && m.version == v
    ensures forall m :: m in ms ==> Local(Records(ms), m.version) == Some(Record(m))
  {
    var rs := Records(ms);
    forall v | v in Versions(rs) ensures exists m :: m in ms && m.version == v {
      var i :| 0 <= i < |rs| && rs[i].version == v;
      assert ms[i] in ms;
    }
    forall m | m in ms ensures m.version in Versions(rs) {
      var i :| 0 <= i < |ms| && ms[i] == m;
      assert rs[i] in rs;
    }
    forall m | m in ms ensures Local(rs, m.version) == Some(Record(m)) {
      var i :| 0 <= i < |ms| && ms[i] == m;
      assert rs[i].version == rs[0].version + i;
    }
  }

  lemma RecordsAgree(row: Row, m: Loaded, m': Loaded)
    requires Matches(row, Record(m)) && m.version == m'.version
    ensures Matches(row, Record(m')) <==> Unedited(m, m')
  {
  }

  /** What verify makes of edits: given rows that were right for one set of files, another set is accepted
      exactly when every applied version is still there under its name with the same expanded up script, and
      as reversible as it was.  What a down script does may change unseen. */
  lemma EditsSeen(rows: Rows, ms: seq<Loaded>, ms': seq<Loaded>)
    requires Contiguous(Records(ms)) && Contiguous(Records(ms')) && Verified(rows, Records(ms))
    ensures Verified(rows, Records(ms')) <==>
      forall m :: m in ms && m.version in rows ==> exists m' :: m' in ms' && Unedited(m, m')
  {
    hide Local, Versions, Records, Contiguous, Record;
    LocalLoaded(ms);
    LocalLoaded(ms');
    if Verified(rows, Records(ms')) {
      forall m | m in ms && m.version in rows ensures exists m' :: m' in ms' && Unedited(m, m') {
        var m' :| m' in ms' && m'.version == m.version;
        RecordsAgree(rows[m.version], m, m');
      }
    }
    if forall m :: m in ms && m.version in rows ==> exists m' :: m' in ms' && Unedited(m, m') {
      forall v | v in rows
        ensures !rows[v].dirty && v in Versions(Records(ms')) && Matches(rows[v], Local(Records(ms'), v).value)
      {
        var m :| m in ms && m.version == v;
        var m' :| m' in ms' && Unedited(m, m');
        RecordsAgree(rows[v], m, m');
      }
    }
  }

  ghost predicate Unedited(m: Loaded, m': Loaded) {
    && m'.version == m.version && m'.name == m.name && m'.upSql == m.upSql
    && (SqlTokens.Strip(m'.downSql) != "" <==> SqlTokens.Strip(m.downSql) != "")
  }
}
