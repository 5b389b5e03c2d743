/**
 * What the upsert loop of src/load.py guarantees, stated about `Run`, the
 * function that `Database.Upsert` is proved to compute.
 */
module UpsertProperties {

  import opened Options
  import opened Frames
  import opened Load

  /** The non-null key values of a batch, read from the back (see `KeyValuesAreKeysOf`). */
  function KeyValues(rows: seq<Row>, key: ColName): set<Value>
    decreases |rows|
  {
    if rows == [] then {}
    else
      var k := Get(rows[|rows| - 1], key);
      KeyValues(rows[..|rows| - 1], key) + (if k.Some? then {k.value} else {})
  }

  /** The last row of the batch carrying key value `k`. */
  function LastWithKey(rows: seq<Row>, key: ColName, k: Value): Row
    requires k in KeyValues(rows, key)
    decreases |rows|
  {
    if Get(rows[|rows| - 1], key) == Some(k) then rows[|rows| - 1] else LastWithKey(rows[..|rows| - 1], key, k)
  }

  /** The frame supplies every column of the table. */
  predicate Covers(def: TableDef, columns: seq<ColName>) {
    forall c :: c in def.columns ==> c in columns
  }

  /** Each keyed row carries its own key in the key column. */
  ghost predicate KeyedConsistently(def: TableDef, s: Stored) {
    forall k :: k in s.keyed ==> Get(s.keyed[k], def.key) == Some(k)
  }

  /** A frame row restricted to the table's columns. */
  function Project(def: TableDef, row: Row): Row {
    map c | c in def.columns :: Get(row, c)
  }

  /** The key column of a declared table is one of its columns. */
  lemma KeyIsColumn(name: string)
    requires name in Definitions
    ensures Definitions[name].key in Definitions[name].columns
  {
  }

  /**
   * Every foreign key of a declared table is a non-key column of it that
   * references the key of another declared table.
   */
  lemma ForeignKeysWellFormed(name: string)
    requires name in Definitions
    ensures forall fk :: fk in Definitions[name].foreignKeys ==>
      && fk.column in Definitions[name].columns && fk.column != Definitions[name].key
      && fk.parent != name && fk.parent in Definitions && fk.parentColumn == Definitions[fk.parent].key
  {
  }

  /** Only Claims declares foreign keys: PatientID to Patients and ProviderID to Providers. */
  lemma DeclaredForeignKeys()
    ensures Definitions.Keys == {"Providers", "Patients", "Claims"}
    ensures Definitions["Providers"].foreignKeys == [] && Definitions["Patients"].foreignKeys == []
    ensures Definitions["Claims"].foreignKeys
         == [ForeignKey("PatientID", "Patients", "PatientID"), ForeignKey("ProviderID", "Providers", "ProviderID")]
  {
  }

  // --------------------------------------------------------------- one row

  /** When the frame has every table column, the row left behind is the frame row itself, whether inserted or updated. */
  lemma WrittenIsProject(def: TableDef, columns: seq<ColName>, row: Row, s: Stored)
    requires def.key in def.columns && Covers(def, columns) && KeyedConsistently(def, s)
    ensures Written(def, columns, row, s) == Project(def, row)
  {
  }

  /** Whether a foreign key dangles depends only on the parent tables. */
  lemma DanglingDependsOnParents(a: Store, b: Store, def: TableDef, columns: seq<ColName>, written: Row)
    requires forall fk :: fk in def.foreignKeys ==> (fk.parent in a <==> fk.parent in b)
    requires forall fk :: fk in def.foreignKeys && fk.parent in a ==> a[fk.parent] == b[fk.parent]
    ensures DanglingForeignKey(a, def, columns, written) <==> DanglingForeignKey(b, def, columns, written)
  {
  }

  /**
   * The foreign-key check on Claims: with enforcement on, a claim whose
   * PatientID or ProviderID names no stored patient or provider is skipped:
   * store and counters unchanged except the failure count.
   */
  lemma DanglingClaimFails(t: Tally, columns: seq<ColName>, row: Row)
    requires "Claims" in t.store && "PatientID" in columns && "ProviderID" in columns
    requires || (Get(row, "PatientID").Some? && ("Patients" !in t.store || Get(row, "PatientID").value !in t.store["Patients"].keyed))
             || (Get(row, "ProviderID").Some? && ("Providers" !in t.store || Get(row, "ProviderID").value !in t.store["Providers"].keyed))
    ensures Step(t, "Claims", columns, true, row) == t.(skipped := t.skipped + 1)
  {
    var w := Written(ClaimsTable, columns, row, t.store["Claims"]);
    assert Get(w, "PatientID") == Get(row, "PatientID");
    assert Get(w, "ProviderID") == Get(row, "ProviderID");
    var fk0 := ClaimsTable.foreignKeys[0];
    var fk1 := ClaimsTable.foreignKeys[1];
    assert fk0 in ClaimsTable.foreignKeys && fk1 in ClaimsTable.foreignKeys;
    assert DanglingForeignKey(t.store, ClaimsTable, columns, w);
  }

  /** The converse: a claim whose non-null foreign keys all have parents is written. */
  lemma ClaimWithParentsIsWritten(t: Tally, columns: seq<ColName>, row: Row)
    requires "Claims" in t.store && Covers(ClaimsTable, columns) && !BadStatement(ClaimsTable, columns)
    requires KeyedConsistently(ClaimsTable, t.store["Claims"])
    requires Get(row, "PatientID").Some? ==> "Patients" in t.store && Get(row, "PatientID").value in t.store["Patients"].keyed
    requires Get(row, "ProviderID").Some? ==> "Providers" in t.store && Get(row, "ProviderID").value in t.store["Providers"].keyed
    ensures Step(t, "Claims", columns, true, row).skipped == t.skipped
  {
    var w := Written(ClaimsTable, columns, row, t.store["Claims"]);
    WrittenIsProject(ClaimsTable, columns, row, t.store["Claims"]);
    assert ClaimsTable.foreignKeys == [ForeignKey("PatientID", "Patients", "PatientID"), ForeignKey("ProviderID", "Providers", "ProviderID")];
    assert !DanglingForeignKey(t.store, ClaimsTable, columns, w);
  }

  /**
   * The foreign-key check covers only the columns the statement writes: a
   * frame without PatientID and ProviderID never fails on them, and an update
   * keeps the stored ids, whether or not they name a parent row.
   */
  lemma ForeignKeysOutsideFrameNotChecked(t: Tally, columns: seq<ColName>, row: Row)
    requires "Claims" in t.store && !BadStatement(ClaimsTable, columns)
    requires "PatientID" !in columns && "ProviderID" !in columns
    ensures var t' := Step(t, "Claims", columns, true, row);
      var s := t.store["Claims"];
      var key := Get(row, "ClaimID");
      && t'.skipped == t.skipped
      && (Present(s, key) ==>
            && t'.updated == t.updated + 1
            && Get(t'.store["Claims"].keyed[key.value], "PatientID") == Get(s.keyed[key.value], "PatientID")
            && Get(t'.store["Claims"].keyed[key.value], "ProviderID") == Get(s.keyed[key.value], "ProviderID"))
  {
    var w := Written(ClaimsTable, columns, row, t.store["Claims"]);
    assert ClaimsTable.foreignKeys == [ForeignKey("PatientID", "Patients", "PatientID"), ForeignKey("ProviderID", "Providers", "ProviderID")];
    assert !DanglingForeignKey(t.store, ClaimsTable, columns, w);
  }

  // ------------------------------------------------------------ whole batch

  /** Processing row i: exactly one of a skip, an update of a key present at that moment, or an insert. */
  lemma RunRowByRow(store: Store, name: string, columns: seq<ColName>, foreignKeysOn: bool, rows: seq<Row>, i: int)
    requires name in store && name in Definitions && 0 <= i < |rows|
    ensures var before := Run(store, name, columns, foreignKeysOn, rows[..i]);
      var after := Run(store, name, columns, foreignKeysOn, rows[..i + 1]);
      var def := Definitions[name];
      var s := before.store[name];
      var key := Get(rows[i], def.key);
      var w := Written(def, columns, rows[i], s);
      if WriteFails(before.store, def, columns, foreignKeysOn, w) then
        after == before.(skipped := before.skipped + 1)
      else
        && after.store == before.store[name := Put(s, key, w)]
        && after.skipped == before.skipped
        && (Present(s, key) ==> after.updated == before.updated + 1 && after.inserted == before.inserted)
        && (!Present(s, key) ==> after.inserted == before.inserted + 1 && after.updated == before.updated)
  {
    assert rows[..i + 1][..i] == rows[..i];
  }

  /**
   * The existence check reads the live table: a new key that occurs twice in
   * one batch is counted once as an insert and then as an update.
   */
  lemma RepeatedKeyInsertsThenUpdates(store: Store, name: string, columns: seq<ColName>, foreignKeysOn: bool, row: Row)
    requires name in store && name in Definitions
    requires Get(row, Definitions[name].key).Some? && Get(row, Definitions[name].key).value !in store[name].keyed
    requires Run(store, name, columns, foreignKeysOn, [row, row]).skipped == 0
    ensures Run(store, name, columns, foreignKeysOn, [row, row]).inserted == 1
    ensures Run(store, name, columns, foreignKeysOn, [row, row]).updated == 1
  {
    assert [row, row][..1] == [row] && [row][..0] == [];
    RunPrefixSkipped(store, name, columns, foreignKeysOn, [row, row], 1);
  }

  /**
   * A row whose key is NULL never matches `key = ?` and never conflicts: each
   * successful write adds one more row and is counted as an insert.
   */
  lemma NullKeyAlwaysInserts(t: Tally, name: string, columns: seq<ColName>, foreignKeysOn: bool, row: Row)
    requires name in t.store && name in Definitions
    requires Get(row, Definitions[name].key).None?
    requires !WriteFails(t.store, Definitions[name], columns, foreignKeysOn, Written(Definitions[name], columns, row, t.store[name]))
    ensures var t' := Step(t, name, columns, foreignKeysOn, row);
      && t'.inserted == t.inserted + 1 && t'.updated == t.updated
      && t'.store[name].keyed == t.store[name].keyed
      && |t'.store[name].unkeyed| == |t.store[name].unkeyed| + 1
  {
  }

  /** Only the target table changes, and the store keeps its tables. */
  lemma {:induction false} RunOtherTables(store: Store, name: string, columns: seq<ColName>, foreignKeysOn: bool, rows: seq<Row>)
    requires name in store && name in Definitions
    ensures forall n :: n in store && n != name ==> Run(store, name, columns, foreignKeysOn, rows).store[n] == store[n]
    decreases |rows|
  {
    if rows != [] {
      RunOtherTables(store, name, columns, foreignKeysOn, rows[..|rows| - 1]);
    }
  }

  /** Every row is counted exactly once: inserted, updated or skipped. */
  lemma {:induction false} RunConservation(store: Store, name: string, columns: seq<ColName>, foreignKeysOn: bool, rows: seq<Row>)
    requires name in store && name in Definitions
    ensures var t := Run(store, name, columns, foreignKeysOn, rows);
      t.inserted + t.updated + t.skipped == |rows|
    decreases |rows|
  {
    if rows != [] {
      RunConservation(store, name, columns, foreignKeysOn, rows[..|rows| - 1]);
    }
  }

  /** The returned counters never exceed the batch, and reach it exactly when no write failed. */
  lemma RunCountBound(store: Store, name: string, columns: seq<ColName>, foreignKeysOn: bool, rows: seq<Row>)
    requires name in store && name in Definitions
    ensures var t := Run(store, name, columns, foreignKeysOn, rows);
      && t.inserted + t.updated <= |rows|
      && (t.inserted + t.updated == |rows| <==> t.skipped == 0)
  {
    RunConservation(store, name, columns, foreignKeysOn, rows);
  }

  /** A statement invalid for the frame's columns fails on every row: nothing is stored and every row is skipped. */
  lemma {:induction false} BadStatementSkipsBatch(store: Store, name: string, columns: seq<ColName>, foreignKeysOn: bool, rows: seq<Row>)
    requires name in store && name in Definitions && BadStatement(Definitions[name], columns)
    ensures var t := Run(store, name, columns, foreignKeysOn, rows);
      t.store == store && t.inserted == 0 && t.updated == 0 && t.skipped == |rows|
    decreases |rows|
  {
    if rows != [] {
      BadStatementSkipsBatch(store, name, columns, foreignKeysOn, rows[..|rows| - 1]);
    }
  }

  /**
   * No record is removed and records outside the batch keep their values;
   * the inserted count is exactly how many records the table gained.
   */
  lemma {:induction false} RunGrowth(store: Store, name: string, columns: seq<ColName>, foreignKeysOn: bool, rows: seq<Row>)
    requires name in store && name in Definitions
    ensures var s0 := store[name];
      var t := Run(store, name, columns, foreignKeysOn, rows);
      var s1 := t.store[name];
      && s0.keyed.Keys <= s1.keyed.Keys
      && s1.keyed.Keys <= s0.keyed.Keys + KeyValues(rows, Definitions[name].key)
      && s0.unkeyed <= s1.unkeyed
      && (forall k :: k in s0.keyed && k !in KeyValues(rows, Definitions[name].key) ==> s1.keyed[k] == s0.keyed[k])
      && t.inserted == (|s1.keyed| - |s0.keyed|) + (|s1.unkeyed| - |s0.unkeyed|)
    decreases |rows|
  {
    if rows != [] {
      RunGrowth(store, name, columns, foreignKeysOn, rows[..|rows| - 1]);
    }
  }

  /** A batch's failure count is at least that of any of its prefixes. */
  lemma {:induction false} RunPrefixSkipped(store: Store, name: string, columns: seq<ColName>, foreignKeysOn: bool, rows: seq<Row>, j: int)
    requires name in store && name in Definitions && 0 <= j <= |rows|
    ensures Run(store, name, columns, foreignKeysOn, rows[..j]).skipped <= Run(store, name, columns, foreignKeysOn, rows).skipped
    decreases |rows|
  {
    if j < |rows| {
      var front := rows[..|rows| - 1];
      assert front[..j] == rows[..j];
      RunPrefixSkipped(store, name, columns, foreignKeysOn, front, j);
    } else {
      assert rows[..j] == rows;
    }
  }

  /** Without failures, the table's keys become exactly the old keys plus the batch's keys. */
  lemma RunKeysWithoutFailures(store: Store, name: string, columns: seq<ColName>, foreignKeysOn: bool, rows: seq<Row>)
    requires name in store && name in Definitions
    requires Run(store, name, columns, foreignKeysOn, rows).skipped == 0
    ensures Run(store, name, columns, foreignKeysOn, rows).store[name].keyed.Keys
         == store[name].keyed.Keys + KeyValues(rows, Definitions[name].key)
  {
    SucceededWithoutFailures(store, name, columns, foreignKeysOn, rows);
    RunSucceeded(store, name, columns, foreignKeysOn, rows);
  }

  /** The rows of the batch whose write went through, in order: those after which the failure count did not move. */
  function Succeeded(store: Store, name: string, columns: seq<ColName>, foreignKeysOn: bool, rows: seq<Row>): seq<Row>
    requires name in store && name in Definitions
    decreases |rows|
  {
    if rows == [] then []
    else
      var front := rows[..|rows| - 1];
      var ok := Run(store, name, columns, foreignKeysOn, rows).skipped == Run(store, name, columns, foreignKeysOn, front).skipped;
      Succeeded(store, name, columns, foreignKeysOn, front) + (if ok then [rows[|rows| - 1]] else [])
  }

  lemma KeyValuesAppend(rows: seq<Row>, key: ColName, r: Row)
    ensures KeyValues(rows + [r], key) == KeyValues(rows, key) + (if Get(r, key).Some? then {Get(r, key).value} else {})
  {
    assert (rows + [r])[..|rows|] == rows;
  }

  /** Appending a row adds its key cell to the keys of the rows. */
  lemma {:induction false} KeysOfAppend(rows: seq<Row>, key: ColName, r: Row)
    ensures KeysOf(rows + [r], key) == KeysOf(rows, key) + {Get(r, key)}
    decreases |rows|
  {
    if rows != [] {
      assert (rows + [r])[0] == rows[0] && (rows + [r])[1..] == rows[1..] + [r];
      KeysOfAppend(rows[1..], key, r);
    }
  }

  /** The batch's key values are exactly the non-null key cells the cleaning stage reasons about. */
  lemma {:induction false} KeyValuesAreKeysOf(rows: seq<Row>, key: ColName)
    ensures forall v :: v in KeyValues(rows, key) <==> Some(v) in KeysOf(rows, key)
    decreases |rows|
  {
    if rows != [] {
      var front, last := rows[..|rows| - 1], rows[|rows| - 1];
      assert rows == front + [last];
      KeysOfAppend(front, key, last);
      KeyValuesAreKeysOf(front, key);
    }
  }

  lemma LastWithKeyAppend(rows: seq<Row>, key: ColName, r: Row, k: Value)
    requires k in KeyValues(rows + [r], key)
    ensures Get(r, key) != Some(k) ==> k in KeyValues(rows, key) && LastWithKey(rows + [r], key, k) == LastWithKey(rows, key, k)
  {
    KeyValuesAppend(rows, key, r);
    assert (rows + [r])[..|rows|] == rows;
  }

  /**
   * With failures allowed: the table's keys become exactly the old keys plus
   * the keys of the rows that went through, the other records keep their
   * values, and every row that went through is counted as inserted or updated.
   */
  lemma {:induction false} RunSucceeded(store: Store, name: string, columns: seq<ColName>, foreignKeysOn: bool, rows: seq<Row>)
    requires name in store && name in Definitions
    ensures var s0 := store[name];
      var t := Run(store, name, columns, foreignKeysOn, rows);
      var s1 := t.store[name];
      var done := KeyValues(Succeeded(store, name, columns, foreignKeysOn, rows), Definitions[name].key);
      && s1.keyed.Keys == s0.keyed.Keys + done
      && (forall k :: k in s0.keyed && k !in done ==> s1.keyed[k] == s0.keyed[k])
      && |Succeeded(store, name, columns, foreignKeysOn, rows)| == t.inserted + t.updated
    decreases |rows|
  {
    if rows != [] {
      var def := Definitions[name];
      var front := rows[..|rows| - 1];
      var r := rows[|rows| - 1];
      var before := Run(store, name, columns, foreignKeysOn, front);
      var after := Run(store, name, columns, foreignKeysOn, rows);
      assert after == Step(before, name, columns, foreignKeysOn, r);
      RunSucceeded(store, name, columns, foreignKeysOn, front);
      var doneFront := Succeeded(store, name, columns, foreignKeysOn, front);
      if after.skipped == before.skipped {
        assert Succeeded(store, name, columns, foreignKeysOn, rows) == doneFront + [r];
        KeyValuesAppend(doneFront, def.key, r);
      } else {
        assert Succeeded(store, name, columns, foreignKeysOn, rows) == doneFront;
        assert after.store == before.store;
      }
    }
  }

  lemma LastSplit<T>(s: seq<T>)
    requires s != []
    ensures s[..|s| - 1] + [s[|s| - 1]] == s
  {
  }

  /** Without failures every row went through. */
  lemma {:induction false} SucceededWithoutFailures(store: Store, name: string, columns: seq<ColName>, foreignKeysOn: bool, rows: seq<Row>)
    requires name in store && name in Definitions
    requires Run(store, name, columns, foreignKeysOn, rows).skipped == 0
    ensures Succeeded(store, name, columns, foreignKeysOn, rows) == rows
    decreases |rows|
  {
    if rows != [] {
      var front := rows[..|rows| - 1];
      var last := rows[|rows| - 1];
      RunPrefixSkipped(store, name, columns, foreignKeysOn, rows, |rows| - 1);
      var ok := Run(store, name, columns, foreignKeysOn, rows).skipped == Run(store, name, columns, foreignKeysOn, front).skipped;
      assert ok;
      assert Succeeded(store, name, columns, foreignKeysOn, rows) == Succeeded(store, name, columns, foreignKeysOn, front) + [last];
      SucceededWithoutFailures(store, name, columns, foreignKeysOn, front);
      LastSplit(rows);
    }
  }

  /** One write keeps every stored row carrying its own key. */
  lemma StepKeyedConsistently(t: Tally, name: string, columns: seq<ColName>, foreignKeysOn: bool, row: Row)
    requires name in t.store && name in Definitions
    requires Definitions[name].key in columns
    requires KeyedConsistently(Definitions[name], t.store[name])
    ensures KeyedConsistently(Definitions[name], Step(t, name, columns, foreignKeysOn, row).store[name])
  {
    var def := Definitions[name];
    var s := t.store[name];
    var key := Get(row, def.key);
    var w := Written(def, columns, row, s);
    KeyIsColumn(name);
    if key.Some? {
      assert Get(w, def.key) == key;
    }
  }

  /** Stored rows keep their own key: the update never touches the key column. */
  lemma {:induction false} RunKeyedConsistently(store: Store, name: string, columns: seq<ColName>, foreignKeysOn: bool, rows: seq<Row>)
    requires name in store && name in Definitions
    requires Definitions[name].key in columns
    requires KeyedConsistently(Definitions[name], store[name])
    ensures KeyedConsistently(Definitions[name], Run(store, name, columns, foreignKeysOn, rows).store[name])
    decreases |rows|
  {
    if rows != [] {
      var front := rows[..|rows| - 1];
      RunKeyedConsistently(store, name, columns, foreignKeysOn, front);
      StepKeyedConsistently(Run(store, name, columns, foreignKeysOn, front), name, columns, foreignKeysOn, rows[|rows| - 1]);
    }
  }

  /**
   * Without failures, and with a frame supplying every table column, each key
   * of the batch ends up holding the values of the last row with that key.
   */
  lemma RunLatestValues(store: Store, name: string, columns: seq<ColName>, foreignKeysOn: bool, rows: seq<Row>)
    requires name in store && name in Definitions
    requires Covers(Definitions[name], columns)
    requires KeyedConsistently(Definitions[name], store[name])
    requires Run(store, name, columns, foreignKeysOn, rows).skipped == 0
    ensures var s1 := Run(store, name, columns, foreignKeysOn, rows).store[name];
      forall k :: k in KeyValues(rows, Definitions[name].key) ==>
        k in s1.keyed && s1.keyed[k] == Project(Definitions[name], LastWithKey(rows, Definitions[name].key, k))
  {
    SucceededWithoutFailures(store, name, columns, foreignKeysOn, rows);
    RunLatestWritten(store, name, columns, foreignKeysOn, rows);
  }

  /** One write that goes through keeps "each key holds its last written row" true of the rows written so far. */
  lemma LatestWrittenStep(before: Tally, name: string, columns: seq<ColName>, foreignKeysOn: bool, doneFront: seq<Row>, r: Row)
    requires name in before.store && name in Definitions
    requires Covers(Definitions[name], columns)
    requires KeyedConsistently(Definitions[name], before.store[name])
    requires forall k :: k in KeyValues(doneFront, Definitions[name].key) ==>
      k in before.store[name].keyed && before.store[name].keyed[k] == Project(Definitions[name], LastWithKey(doneFront, Definitions[name].key, k))
    requires Step(before, name, columns, foreignKeysOn, r).skipped == before.skipped
    ensures var s1 := Step(before, name, columns, foreignKeysOn, r).store[name];
      forall k :: k in KeyValues(doneFront + [r], Definitions[name].key) ==>
        k in s1.keyed && s1.keyed[k] == Project(Definitions[name], LastWithKey(doneFront + [r], Definitions[name].key, k))
  {
    var def := Definitions[name];
    var s := before.store[name];
    var key := Get(r, def.key);
    var done := doneFront + [r];
    KeyIsColumn(name);
    WrittenIsProject(def, columns, r, s);
    var s1 := Step(before, name, columns, foreignKeysOn, r).store[name];
    assert s1 == Put(s, key, Project(def, r));
    forall k | k in KeyValues(done, def.key)
      ensures k in s1.keyed && s1.keyed[k] == Project(def, LastWithKey(done, def.key, k))
    {
      LastWithKeyAppend(doneFront, def.key, r, k);
      if key == Some(k) {
        assert LastWithKey(done, def.key, k) == r;
      } else {
        assert k in s.keyed && s1.keyed[k] == s.keyed[k];
      }
    }
  }

  /**
   * With failures allowed, and a frame supplying every table column: each key
   * of a row that went through ends up holding the values of the last such
   * row with that key.
   */
  lemma {:induction false} RunLatestWritten(store: Store, name: string, columns: seq<ColName>, foreignKeysOn: bool, rows: seq<Row>)
    requires name in store && name in Definitions
    requires Covers(Definitions[name], columns)
    requires KeyedConsistently(Definitions[name], store[name])
    ensures var s1 := Run(store, name, columns, foreignKeysOn, rows).store[name];
      var done := Succeeded(store, name, columns, foreignKeysOn, rows);
      forall k :: k in KeyValues(done, Definitions[name].key) ==>
        k in s1.keyed && s1.keyed[k] == Project(Definitions[name], LastWithKey(done, Definitions[name].key, k))
    decreases |rows|
  {
    if rows != [] {
      var def := Definitions[name];
      var front := rows[..|rows| - 1];
      var r := rows[|rows| - 1];
      var before := Run(store, name, columns, foreignKeysOn, front);
      var after := Run(store, name, columns, foreignKeysOn, rows);
      assert after == Step(before, name, columns, foreignKeysOn, r);
      RunLatestWritten(store, name, columns, foreignKeysOn, front);
      var doneFront := Succeeded(store, name, columns, foreignKeysOn, front);
      forall k | k in KeyValues(doneFront, def.key)
        ensures k in before.store[name].keyed && before.store[name].keyed[k] == Project(def, LastWithKey(doneFront, def.key, k))
      {
        assert k in KeyValues(Succeeded(store, name, columns, foreignKeysOn, front), Definitions[name].key);
      }
      if after.skipped == before.skipped {
        assert Succeeded(store, name, columns, foreignKeysOn, rows) == doneFront + [r];
        KeyIsColumn(name);
        RunKeyedConsistently(store, name, columns, foreignKeysOn, front);
        LatestWrittenStep(before, name, columns, foreignKeysOn, doneFront, r);
      } else {
        assert Succeeded(store, name, columns, foreignKeysOn, rows) == doneFront;
        assert after.store == before.store;
      }
    }
  }


  /** With distinct keys, the last row carrying a row's key is that row. */
  lemma {:induction false} LastWithKeyDistinct(rows: seq<Row>, key: ColName, i: int)
    requires DistinctKeys(rows, key) && 0 <= i < |rows| && Get(rows[i], key).Some?
    ensures Get(rows[i], key).value in KeyValues(rows, key)
    ensures LastWithKey(rows, key, Get(rows[i], key).value) == rows[i]
    decreases |rows|
  {
    var front := rows[..|rows| - 1];
    if i < |rows| - 1 {
      assert front[i] == rows[i];
      assert DistinctKeys(front, key) by {
        forall a, b | 0 <= a < b < |front|
          ensures Get(front[a], key) != Get(front[b], key)
        {
          assert front[a] == rows[a] && front[b] == rows[b];
        }
      }
      LastWithKeyDistinct(front, key, i);
    }
  }

  /** In a batch without failures, no single write failed. */
  lemma StepSucceeded(store: Store, name: string, columns: seq<ColName>, foreignKeysOn: bool, rows: seq<Row>, j: int)
    requires name in store && name in Definitions && 0 <= j < |rows|
    requires Run(store, name, columns, foreignKeysOn, rows).skipped == 0
    ensures var before := Run(store, name, columns, foreignKeysOn, rows[..j]);
      !WriteFails(before.store, Definitions[name], columns, foreignKeysOn,
                  Written(Definitions[name], columns, rows[j], before.store[name]))
  {
    var before := Run(store, name, columns, foreignKeysOn, rows[..j]);
    var after := Run(store, name, columns, foreignKeysOn, rows[..j + 1]);
    RunPrefixSkipped(store, name, columns, foreignKeysOn, rows, j + 1);
    assert rows[..j + 1][..j] == rows[..j];
    assert after == Step(before, name, columns, foreignKeysOn, rows[j]);
    assert after.skipped == 0;
  }

  /** The preconditions of a replay: a failure-free batch of distinct, non-null keys that supplies every table column. */
  ghost predicate Replayable(store: Store, name: string, columns: seq<ColName>, foreignKeysOn: bool, rows: seq<Row>)
  {
    && name in store && name in Definitions
    && Covers(Definitions[name], columns)
    && KeyedConsistently(Definitions[name], store[name])
    && DistinctKeys(rows, Definitions[name].key)
    && (forall i :: 0 <= i < |rows| ==> Get(rows[i], Definitions[name].key).Some?)
    && Run(store, name, columns, foreignKeysOn, rows).skipped == 0
  }

  /** Row i of a replay writes what the first run already stored under its key. */
  lemma ReplayedRowInPlace(store: Store, name: string, columns: seq<ColName>, foreignKeysOn: bool, rows: seq<Row>, i: int)
    requires Replayable(store, name, columns, foreignKeysOn, rows) && 0 <= i < |rows|
    ensures var t1 := Run(store, name, columns, foreignKeysOn, rows);
      var def := Definitions[name];
      var s := t1.store[name];
      var key := Get(rows[i], def.key);
      && Present(s, key)
      && Written(def, columns, rows[i], s) == Project(def, rows[i])
      && Put(s, key, Project(def, rows[i])) == s
  {
    var t1 := Run(store, name, columns, foreignKeysOn, rows);
    var def := Definitions[name];
    var s := t1.store[name];
    KeyIsColumn(name);
    LastWithKeyDistinct(rows, def.key, i);
    RunLatestValues(store, name, columns, foreignKeysOn, rows);
    RunKeyedConsistently(store, name, columns, foreignKeysOn, rows);
    WrittenIsProject(def, columns, rows[i], s);
  }

  /** Row i of a replay does not fail: the same write succeeded against the same parent tables the first time. */
  lemma ReplayedWriteSucceeds(store: Store, name: string, columns: seq<ColName>, foreignKeysOn: bool, rows: seq<Row>, i: int)
    requires Replayable(store, name, columns, foreignKeysOn, rows) && 0 <= i < |rows|
    ensures var t1 := Run(store, name, columns, foreignKeysOn, rows);
      !WriteFails(t1.store, Definitions[name], columns, foreignKeysOn, Project(Definitions[name], rows[i]))
  {
    var t1 := Run(store, name, columns, foreignKeysOn, rows);
    var def := Definitions[name];
    var before := Run(store, name, columns, foreignKeysOn, rows[..i]);
    KeyIsColumn(name);
    ForeignKeysWellFormed(name);
    StepSucceeded(store, name, columns, foreignKeysOn, rows, i);
    RunKeyedConsistently(store, name, columns, foreignKeysOn, rows[..i]);
    WrittenIsProject(def, columns, rows[i], before.store[name]);
    RunOtherTables(store, name, columns, foreignKeysOn, rows[..i]);
    RunOtherTables(store, name, columns, foreignKeysOn, rows);
    DanglingDependsOnParents(before.store, t1.store, def, columns, Project(def, rows[i]));
  }

  /** One row of the replay: counted as an update, database unchanged. */
  lemma ReplayedStep(store: Store, name: string, columns: seq<ColName>, foreignKeysOn: bool, rows: seq<Row>, i: int)
    requires Replayable(store, name, columns, foreignKeysOn, rows) && 0 <= i < |rows|
    ensures var t1 := Run(store, name, columns, foreignKeysOn, rows);
      Step(Tally(t1.store, 0, i, 0), name, columns, foreignKeysOn, rows[i]) == Tally(t1.store, 0, i + 1, 0)
  {
    var t1 := Run(store, name, columns, foreignKeysOn, rows);
    ReplayedRowInPlace(store, name, columns, foreignKeysOn, rows, i);
    ReplayedWriteSucceeds(store, name, columns, foreignKeysOn, rows, i);
    var def := Definitions[name];
    var s := t1.store[name];
    var key := Get(rows[i], def.key);
    var w := Written(def, columns, rows[i], s);
    assert !WriteFails(t1.store, def, columns, foreignKeysOn, w) && Present(s, key);
    assert t1.store[name := Put(s, key, w)] == t1.store;
  }

  /** Replaying the batch updates every row and changes nothing, prefix by prefix. */
  lemma {:induction false} ReplayPrefix(store: Store, name: string, columns: seq<ColName>, foreignKeysOn: bool, rows: seq<Row>, j: int)
    requires Replayable(store, name, columns, foreignKeysOn, rows) && 0 <= j <= |rows|
    ensures var t1 := Run(store, name, columns, foreignKeysOn, rows);
      Run(t1.store, name, columns, foreignKeysOn, rows[..j]) == Tally(t1.store, 0, j, 0)
    decreases j
  {
    var t1 := Run(store, name, columns, foreignKeysOn, rows);
    if j > 0 {
      var i := j - 1;
      ReplayPrefix(store, name, columns, foreignKeysOn, rows, i);
      assert rows[..j][..i] == rows[..i] && rows[..j][i] == rows[i];
      ReplayedStep(store, name, columns, foreignKeysOn, rows, i);
      assert Run(t1.store, name, columns, foreignKeysOn, rows[..j])
          == Step(Run(t1.store, name, columns, foreignKeysOn, rows[..i]), name, columns, foreignKeysOn, rows[i]);
    }
  }

  /**
   * Upserting the same cleaned batch twice: the second run leaves the
   * database as the first left it, reports no inserts and one update per
   * row, and nothing fails.
   */
  lemma RunTwiceIdempotent(store: Store, name: string, columns: seq<ColName>, foreignKeysOn: bool, rows: seq<Row>)
    requires Replayable(store, name, columns, foreignKeysOn, rows)
    ensures var t1 := Run(store, name, columns, foreignKeysOn, rows);
      Run(t1.store, name, columns, foreignKeysOn, rows) == Tally(t1.store, 0, |rows|, 0)
  {
    ReplayPrefix(store, name, columns, foreignKeysOn, rows, |rows|);
    assert rows[..|rows|] == rows;
  }

  // --------------------------------------------------- referential integrity

  /** A non-null foreign-key value of `row` names a row of the parent table. */
  predicate Resolves(store: Store, fk: ForeignKey, row: Row) {
    Get(row, fk.column).Some? ==> fk.parent in store && Get(row, fk.column).value in store[fk.parent].keyed
  }

  /** Every stored row of every declared table has its foreign keys resolved. */
  ghost predicate Integrity(store: Store) {
    && (forall n, k, fk :: n in store && n in Definitions && k in store[n].keyed && fk in Definitions[n].foreignKeys ==>
          Resolves(store, fk, store[n].keyed[k]))
    && (forall n, i, fk :: n in store && n in Definitions && 0 <= i < |store[n].unkeyed| && fk in Definitions[n].foreignKeys ==>
          Resolves(store, fk, store[n].unkeyed[i]))
  }

  /** Writing into one table never removes a key, so a resolved reference stays resolved. */
  lemma ResolvesAfterPut(store: Store, name: string, key: Cell, w: Row, fk: ForeignKey, row: Row)
    requires name in store && Resolves(store, fk, row)
    ensures Resolves(store[name := Put(store[name], key, w)], fk, row)
  {
  }

  /** With enforcement on, one write keeps every stored reference resolved: a parent key never goes away, and a new row must resolve. */
  lemma StepKeepsIntegrity(t: Tally, name: string, columns: seq<ColName>, row: Row)
    requires name in t.store && name in Definitions && Integrity(t.store)
    ensures Integrity(Step(t, name, columns, true, row).store)
  {
    var def := Definitions[name];
    var s := t.store[name];
    var key := Get(row, def.key);
    var w := Written(def, columns, row, s);
    if !WriteFails(t.store, def, columns, true, w) {
      var store' := t.store[name := Put(s, key, w)];
      assert Step(t, name, columns, true, row).store == store';
      ForeignKeysWellFormed(name);
      forall fk | fk in def.foreignKeys
        ensures Resolves(store', fk, w)
      {
        if fk.column !in columns && Present(s, key) {
          // an update leaves a foreign-key column outside the SET list as stored
          assert Get(w, fk.column) == Get(s.keyed[key.value], fk.column);
          assert Resolves(t.store, fk, s.keyed[key.value]);
        }
        assert Resolves(t.store, fk, w);
        ResolvesAfterPut(t.store, name, key, w, fk, w);
      }
      forall n, k, fk | n in store' && n in Definitions && k in store'[n].keyed && fk in Definitions[n].foreignKeys
        ensures Resolves(store', fk, store'[n].keyed[k])
      {
        if n == name && key == Some(k) {
          assert store'[n].keyed[k] == w;
        } else {
          assert k in t.store[n].keyed && store'[n].keyed[k] == t.store[n].keyed[k];
          ResolvesAfterPut(t.store, name, key, w, fk, t.store[n].keyed[k]);
        }
      }
      forall n, i, fk | n in store' && n in Definitions && 0 <= i < |store'[n].unkeyed| && fk in Definitions[n].foreignKeys
        ensures Resolves(store', fk, store'[n].unkeyed[i])
      {
        if n == name && key.None? && i == |s.unkeyed| {
          assert store'[n].unkeyed[i] == w;
        } else {
          assert i < |t.store[n].unkeyed| && store'[n].unkeyed[i] == t.store[n].unkeyed[i];
          ResolvesAfterPut(t.store, name, key, w, fk, t.store[n].unkeyed[i]);
        }
      }
    }
  }

  /** With enforcement on, a whole upsert keeps every stored reference resolved. */
  lemma {:induction false} RunKeepsIntegrity(store: Store, name: string, columns: seq<ColName>, rows: seq<Row>)
    requires name in store && name in Definitions && Integrity(store)
    ensures Integrity(Run(store, name, columns, true, rows).store)
    decreases |rows|
  {
    if rows != [] {
      RunKeepsIntegrity(store, name, columns, rows[..|rows| - 1]);
      StepKeepsIntegrity(Run(store, name, columns, true, rows[..|rows| - 1]), name, columns, rows[|rows| - 1]);
    }
  }

  // ------------------------------------------------------------- one write

  /**
   * What a write leaves under the row's key: the frame's value in every
   * table column the frame has (the key column included, since an update
   * never changes it); in the others NULL on insert and the stored value on
   * update.
   */
  lemma WrittenSpec(def: TableDef, columns: seq<ColName>, row: Row, s: Stored)
    requires def.key in def.columns && def.key in columns && KeyedConsistently(def, s)
    ensures var w := Written(def, columns, row, s);
      var key := Get(row, def.key);
      && w.Keys == (set c | c in def.columns)
      && (forall c :: c in def.columns && c in columns ==> w[c] == Get(row, c))
      && (Present(s, key) ==> forall c :: c in def.columns && c !in columns ==> w[c] == Get(s.keyed[key.value], c))
      && (!Present(s, key) ==> forall c :: c in def.columns && c !in columns ==> w[c] == None)
  {
  }

  /** The example of a provider loaded twice: first an insert, then an update that replaces the name. */
  lemma ProviderUpsertExample()
    ensures var first := map["ProviderID" := Some(Str("P1")), "Name" := Some(Str("A"))];
      var second := map["ProviderID" := Some(Str("P1")), "Name" := Some(Str("B"))];
      var cols := ["ProviderID", "Name"];
      var t1 := Run(map["Providers" := EmptyTable], "Providers", cols, true, [first]);
      var t2 := Run(t1.store, "Providers", cols, true, [second]);
      && t1.inserted == 1 && t1.updated == 0
      && t2.inserted == 0 && t2.updated == 1
      && Str("P1") in t2.store["Providers"].keyed
      && t2.store["Providers"].keyed[Str("P1")]["Name"] == Some(Str("B"))
  {
    var cols := ["ProviderID", "Name"];
    assert !BadStatement(ProvidersTable, cols) by {
      assert "Name" in cols && "Name" != ProvidersTable.key;
      assert forall c :: c in cols ==> c == "ProviderID" || c == "Name";
      assert "ProviderID" in ProvidersTable.columns && "Name" in ProvidersTable.columns;
    }
  }
}
