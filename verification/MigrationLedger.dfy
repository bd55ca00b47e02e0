/** The marker rows of royells_v20_postgres/migrations.py and the four transactions that touch them. */
module MigrationLedger {
  import opened Prelude

  /** The checksum is that of the up script; the down script is not covered by it. */
  datatype Migration = Migration(version: nat, name: string, checksum: string, reversible: bool)

  datatype Row = Row(name: string, checksum: string, dirty: bool, reversible: bool)

  type Rows = map<nat, Row>

  /** The row of an applied migration. */
  function CleanRow(m: Migration): Row { Row(m.name, m.checksum, false, m.reversible) }

  datatype Error = IsDirty | Conflict | MarkerMissing | MarkerConflict

  /** _load sorts the local migrations and refuses gaps and duplicates. */
  predicate Contiguous(ms: seq<Migration>) {
    forall i :: 0 <= i < |ms| ==> ms[i].version == ms[0].version + i
  }

  type Catalog = ms: seq<Migration> | Contiguous(ms) witness []

  function Versions(ms: Catalog): set<nat> { set m | m in ms :: m.version }

  function Local(ms: Catalog, v: nat): (r: Option<Migration>)
    ensures r.Some? <==> v in Versions(ms)
    ensures r.Some? ==> r.value in ms && r.value.version == v
  {
    if ms == [] || v < ms[0].version || v >= ms[0].version + |ms| then None else Some(ms[v - ms[0].version])
  }

  /** verify() raises unless every row is clean and matches its local migration. */
  predicate Verified(rows: Rows, ms: Catalog) {
    forall v :: v in rows ==> !rows[v].dirty && v in Versions(ms) && Matches(rows[v], Local(ms, v).value)
  }

  predicate Matches(row: Row, m: Migration) {
    row.name == m.name && row.checksum == m.checksum && row.reversible == m.reversible
  }

  // ----- the transactions

  /** upgrade, first transaction: skip an applied migration, or commit a dirty marker for it. */
  function MarkUp(rows: Rows, m: Migration): Result<Option<Rows>, Error> {
    if m.version !in rows then Ok(Some(rows[m.version := Row(m.name, m.checksum, true, m.reversible)]))
    else if rows[m.version].dirty then Err(IsDirty)
    else if rows[m.version].name != m.name || rows[m.version].checksum != m.checksum then Err(Conflict)
    else Ok(None)
  }

  /** upgrade, second transaction, before the script: the marker must be this runner's. */
  function UpFault(rows: Rows, m: Migration): Option<Error> {
    if m.version !in rows || !rows[m.version].dirty then Some(MarkerMissing)
    else if rows[m.version].name != m.name || rows[m.version].checksum != m.checksum then Some(MarkerConflict)
    else None
  }

  /** ... and after it. */
  function ClearMark(rows: Rows, m: Migration): Rows
    requires m.version in rows
  {
    rows[m.version := rows[m.version].(dirty := false, reversible := m.reversible)]
  }

  /** downgrade, first transaction. */
  function MarkDown(rows: Rows, m: Migration): Result<Option<Rows>, Error> {
    if m.version !in rows then Ok(None)
    else if rows[m.version].dirty then Err(IsDirty)
    else if rows[m.version].checksum != m.checksum then Err(Conflict)
    else Ok(Some(rows[m.version := rows[m.version].(dirty := true)]))
  }

  /** downgrade, second transaction, before the script. */
  function DownFault(rows: Rows, m: Migration): Option<Error> {
    if m.version !in rows || !rows[m.version].dirty then Some(MarkerMissing)
    else if rows[m.version].checksum != m.checksum then Some(MarkerConflict)
    else None
  }

  /** ... and after it. */
  function RemoveMark(rows: Rows, v: nat): Rows { rows - {v} }

  /** The four transactions together.  A marker that is put for an upgrade is found by the second transaction, which
      makes a clean row of it; one for a downgrade is found as well, and goes.  The first transaction leaves
      everything alone where there is nothing to do, and raises where the row is dirty or another migration's. */
  lemma MarkingExactly(rows: Rows, m: Migration)
    ensures var v := m.version; var up, down := MarkUp(rows, m), MarkDown(rows, m);
      if v !in rows then
        && up.Ok? && up.value.Some? && UpFault(up.value.value, m) == None && v in up.value.value
        && up.value.value[v].dirty && ClearMark(up.value.value, m) == rows[v := CleanRow(m)]
        && down == Ok(None) && UpFault(rows, m) == DownFault(rows, m) == Some(MarkerMissing)
      else if rows[v].dirty then
        && up == Err(IsDirty) && down == Err(IsDirty)
        && (UpFault(rows, m) == None <==> rows[v].name == m.name && rows[v].checksum == m.checksum)
        && (UpFault(rows, m) == Some(MarkerConflict) <==> rows[v].name != m.name || rows[v].checksum != m.checksum)
        && (DownFault(rows, m) == None <==> rows[v].checksum == m.checksum)
        && (DownFault(rows, m) == Some(MarkerConflict) <==> rows[v].checksum != m.checksum)
      else
        && up == (if rows[v].name == m.name && rows[v].checksum == m.checksum then Ok(None) else Err(Conflict))
        && (down == Err(Conflict) <==> rows[v].checksum != m.checksum)
        && (down.Err? || (down.value.Some? && v in down.value.value && down.value.value[v].dirty
              && DownFault(down.value.value, m) == None && RemoveMark(down.value.value, v) == rows - {v}))
        && UpFault(rows, m) == DownFault(rows, m) == Some(MarkerMissing)
  {
    var v := m.version;
    if v in rows { assert rows[v := rows[v].(dirty := true)] - {v} == rows - {v}; }
  }
}
