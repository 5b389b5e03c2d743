/**
 * The loading stage of src/load.py: the three table definitions of
 * `create_tables` and the upsert engine `upsert_to_data`.
 *
 * The SQLite database is modelled by its contents: for every table, the rows
 * keyed by their (non-null) primary key, plus the rows whose key is NULL.
 * SQLite accepts NULL in a TEXT PRIMARY KEY, `key = NULL` never matches, and
 * such a row never triggers ON CONFLICT, so those rows only accumulate.
 *
 * A write is one `INSERT ... ON CONFLICT(key) DO UPDATE SET <non-key columns>`.
 * It fails, leaving the database as it was, when the statement is invalid
 * for the frame's columns or when a foreign key it writes has no parent row
 * (only while foreign-key enforcement is on).
 */
module Load {

  import opened Options
  import opened Frames

  datatype ForeignKey = ForeignKey(column: ColName, parent: string, parentColumn: ColName)

  datatype TableDef = TableDef(columns: seq<ColName>, key: ColName, foreignKeys: seq<ForeignKey>)

  const ProvidersTable := TableDef(["ProviderID", "Name", "Specialty", "City"], "ProviderID", [])

  const PatientsTable := TableDef(["PatientID", "Name", "DateOfBirth", "Gender"], "PatientID", [])

  const ClaimsTable := TableDef(
    ["ClaimID", "PatientID", "ProviderID", "ServiceDate", "ClaimAmount", "Status"], "ClaimID",
    [ForeignKey("PatientID", "Patients", "PatientID"), ForeignKey("ProviderID", "Providers", "ProviderID")])

  /** The tables `create_tables` declares, by name. */
  const Definitions: map<string, TableDef> :=
    map["Providers" := ProvidersTable, "Patients" := PatientsTable, "Claims" := ClaimsTable]

  datatype Stored = Stored(keyed: map<Value, Row>, unkeyed: seq<Row>)

  type Store = map<string, Stored>

  const EmptyTable := Stored(map[], [])

  /** `SELECT 1 FROM t WHERE key = ?` finds a row. */
  predicate Present(s: Stored, key: Cell) {
    key.Some? && key.value in s.keyed
  }

  /**
   * The row the upsert leaves under the key: on insert the frame's values,
   * NULL for columns the frame lacks; on conflict the frame's values for the
   * non-key columns it has, the stored ones for the rest.
   */
  function Written(def: TableDef, columns: seq<ColName>, row: Row, s: Stored): Row {
    var key := Get(row, def.key);
    if Present(s, key) then
      map c | c in def.columns :: if c != def.key && c in columns then Get(row, c) else Get(s.keyed[key.value], c)
    else
      map c | c in def.columns :: if c in columns then Get(row, c) else None
  }

  /** The statement cannot run: a column the table lacks, or an empty update clause. */
  predicate BadStatement(def: TableDef, columns: seq<ColName>) {
    (exists c :: c in columns && c !in def.columns) || (forall c :: c in columns ==> c == def.key)
  }

  /**
   * A foreign-key column the statement writes holds a non-null value that
   * names no row of its parent table. Only columns of the frame are written:
   * on insert the others are NULL, and on update they are not in the
   * `SET` list, which is what SQLite checks on an update.
   */
  predicate DanglingForeignKey(store: Store, def: TableDef, columns: seq<ColName>, written: Row) {
    exists fk :: fk in def.foreignKeys && fk.column in columns && Get(written, fk.column).Some? &&
      !(fk.parent in store && Get(written, fk.column).value in store[fk.parent].keyed)
  }

  /** The write raises: the model of the `except` branch. */
  predicate WriteFails(store: Store, def: TableDef, columns: seq<ColName>, foreignKeysOn: bool, written: Row) {
    BadStatement(def, columns) || (foreignKeysOn && DanglingForeignKey(store, def, columns, written))
  }

  /** Store `row` under `key`; a NULL key always adds a row. */
  function Put(s: Stored, key: Cell, row: Row): Stored {
    if key.Some? then Stored(s.keyed[key.value := row], s.unkeyed) else Stored(s.keyed, s.unkeyed + [row])
  }

  /** The database and the counters after some rows; `skipped` counts the logged failures. */
  datatype Tally = Tally(store: Store, inserted: nat, updated: nat, skipped: nat)

  /** One iteration of the loop of upsert_to_data, against the live store. */
  function Step(t: Tally, name: string, columns: seq<ColName>, foreignKeysOn: bool, row: Row): Tally
    requires name in t.store && name in Definitions
  {
    var def := Definitions[name];
    var s := t.store[name];
    var key := Get(row, def.key);
    var written := Written(def, columns, row, s);
    if WriteFails(t.store, def, columns, foreignKeysOn, written) then t.(skipped := t.skipped + 1)
    else if Present(s, key) then Tally(t.store[name := Put(s, key, written)], t.inserted, t.updated + 1, t.skipped)
    else Tally(t.store[name := Put(s, key, written)], t.inserted + 1, t.updated, t.skipped)
  }

  /** The whole loop: the rows processed in order, each against the store the previous ones left. */
  function Run(store: Store, name: string, columns: seq<ColName>, foreignKeysOn: bool, rows: seq<Row>): (t: Tally)
    requires name in store && name in Definitions
    ensures t.store.Keys == store.Keys
    decreases |rows|
  {
    if rows == [] then Tally(store, 0, 0, 0)
    else Step(Run(store, name, columns, foreignKeysOn, rows[..|rows| - 1]), name, columns, foreignKeysOn, rows[|rows| - 1])
  }

  /** Extending the batch by one row adds one step. */
  lemma RunExtend(store: Store, name: string, columns: seq<ColName>, foreignKeysOn: bool, rows: seq<Row>, k: int)
    requires name in store && name in Definitions && 0 <= k < |rows|
    ensures Run(store, name, columns, foreignKeysOn, rows[..k + 1])
         == Step(Run(store, name, columns, foreignKeysOn, rows[..k]), name, columns, foreignKeysOn, rows[k])
  {
    assert rows[..k + 1][..k] == rows[..k];
  }

  /** A connection to the database file. */
  class Database {
    var tables: Store
    var foreignKeysOn: bool

    /** `sqlite3.connect(path)`: the file's tables, foreign-key enforcement off (SQLite's default). */
    constructor Connect(persisted: Store)
      ensures tables == persisted && !foreignKeysOn
    {
      tables := persisted;
      foreignKeysOn := false;
    }

    /** `PRAGMA foreign_keys = ON`. */
    method EnableForeignKeys()
      modifies this
      ensures foreignKeysOn && tables == old(tables)
    {
      foreignKeysOn := true;
    }

    /** create_tables: `CREATE TABLE IF NOT EXISTS` for each definition; existing tables keep their rows. */
    method CreateTables()
      modifies this
      ensures foreignKeysOn == old(foreignKeysOn)
      ensures tables.Keys == old(tables).Keys + Definitions.Keys
      ensures forall n :: n in old(tables) ==> tables[n] == old(tables)[n]
      ensures forall n :: n in tables && n !in old(tables) ==> tables[n] == EmptyTable
    {
      var names := ["Providers", "Patients", "Claims"];
      for k := 0 to |names|
        invariant foreignKeysOn == old(foreignKeysOn)
        invariant tables.Keys == old(tables).Keys + (set j | 0 <= j < k :: names[j])
        invariant forall n :: n in old(tables) ==> tables[n] == old(tables)[n]
        invariant forall n :: n in tables && n !in old(tables) ==> tables[n] == EmptyTable
      {
        if names[k] !in tables {
          tables := tables[names[k] := EmptyTable];
        }
      }
      assert (set j | 0 <= j < |names| :: names[j]) == Definitions.Keys by {
        assert names[0] == "Providers" && names[1] == "Patients" && names[2] == "Claims";
      }
    }

    /**
     * One iteration of the loop of upsert_to_data: look the key up in the
     * live table, run the insert-or-update, and only when it succeeds count
     * an update (the key was there) or an insert (it was not); a failed
     * write is logged and skipped.
     */
    method UpsertRow(row: Row, tableName: string, columns: seq<ColName>, keyColumn: ColName,
                     inserted: nat, updated: nat, ghost skipped: nat)
      returns (inserted': nat, updated': nat, ghost skipped': nat)
      requires tableName in tables && tableName in Definitions && keyColumn == Definitions[tableName].key
      modifies this
      ensures foreignKeysOn == old(foreignKeysOn)
      ensures Tally(tables, inserted', updated', skipped')
           == Step(Tally(old(tables), inserted, updated, skipped), tableName, columns, foreignKeysOn, row)
    {
      var def := Definitions[tableName];
      var table := tables[tableName];
      var key := Get(row, keyColumn);
      var found := Present(table, key);
      var written := Written(def, columns, row, table);
      inserted', updated', skipped' := inserted, updated, skipped;
      if !WriteFails(tables, def, columns, foreignKeysOn, written) {
        tables := tables[tableName := Put(table, key, written)];
        if found {
          updated' := updated + 1;
        } else {
          inserted' := inserted + 1;
        }
      } else {
        // logged as a warning; the row is skipped
        skipped' := skipped + 1;
      }
    }

    /**
     * upsert_to_data: every row in order, each against the table the previous
     * ones left; returns both counters. An empty frame never enters the loop
     * and returns (0, 0) whatever the table and key. Otherwise the first row
     * raises outside the `try`, aborting the call, when the key column is
     * missing from the frame, the table does not exist, or a key is a
     * timestamp the driver cannot bind: those cases are excluded here.
     */
    method Upsert(df: Frame, tableName: string, keyColumn: ColName) returns (inserted: nat, updated: nat)
      requires WellFormed(df)
      requires |df.rows| > 0 ==>
        && tableName in tables && tableName in Definitions
        && keyColumn == Definitions[tableName].key && keyColumn in df.columns
      requires forall i :: 0 <= i < |df.rows| ==> !(Get(df.rows[i], keyColumn).Some? && Get(df.rows[i], keyColumn).value.Stamp?)
      modifies this
      ensures foreignKeysOn == old(foreignKeysOn)
      ensures |df.rows| == 0 ==> tables == old(tables) && inserted == 0 && updated == 0
      ensures |df.rows| > 0 ==>
        && tables == Run(old(tables), tableName, df.columns, foreignKeysOn, df.rows).store
        && inserted == Run(old(tables), tableName, df.columns, foreignKeysOn, df.rows).inserted
        && updated == Run(old(tables), tableName, df.columns, foreignKeysOn, df.rows).updated
    {
      inserted, updated := 0, 0;
      if |df.rows| == 0 {
        return;
      }
      ghost var skipped := 0;
      ghost var start := tables;
      for k := 0 to |df.rows|
        invariant foreignKeysOn == old(foreignKeysOn)
        invariant Run(start, tableName, df.columns, foreignKeysOn, df.rows[..k]) == Tally(tables, inserted, updated, skipped)
      {
        RunExtend(start, tableName, df.columns, foreignKeysOn, df.rows, k);
        inserted, updated, skipped := UpsertRow(df.rows[k], tableName, df.columns, keyColumn, inserted, updated, skipped);
      }
      assert df.rows[..|df.rows|] == df.rows;
    }
  }
}
