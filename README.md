# Healthcare ELT pipeline: cleaning stage and upsert engine

This project models the core of a small extract-transform-load pipeline. It reads provider, patient and claim sheets, cleans them, and loads them into a SQLite database with an insert-or-update loop.

The cleaning stage (`src/transform.py`) does four things:

- It aligns each table to the exact column list in `src/schema_definitions.py`.
- It rewrites date columns as ISO-8601 text, or as null when they do not parse.
- It drops rows whose required ids are null.
- It removes duplicate keys, keeping the first occurrence.

The claim cleaner also counts and logs each claim it drops for a missing PatientID or ProviderID.

The upsert engine (`upsert_to_data` in `src/load.py`) walks a cleaned batch row by row. For each row it:

1. checks whether the key is already in the target table;
2. issues an `INSERT ... ON CONFLICT(key) DO UPDATE`;
3. if the write succeeds, counts an update (the key was present) or an insert (it was not);
4. if the write raises, skips the row and goes on.

The Claims table declares foreign keys to Patients and Providers. These are enforced because the pipeline switches `PRAGMA foreign_keys` on.

Modules:

- **`Options`** (`options.dfy`): the option type.
- **`Dates`** (`dates.dfy`): calendar timestamps and their `YYYY-MM-DDTHH:MM:SS` text. This holds the formatter `Iso` and a strict parser `ParseIso`, proved inverse to each other.
- **`Frames`** (`frames.dfy`): a DataFrame as a column list plus a sequence of rows, where each row maps every column to a cell that is null or holds a value. It also holds the whole-table operations the cleaners use: null-column fill, selection, `dropna`, the `isna` mask and keep-first `drop_duplicates`.
- **`Schema`** (`schema.dfy`): the three column lists.
- **`Transform`** (`transform.dfy`): the cleaning stage.
  - `AlignColumns`, `ConvertTimestamps` and `CleanClaims` are methods with the loops of the source. They are proved against the specification functions `Aligned`, `Converted` and `StagedClaims`.
  - `CleanProviders` and `CleanPatients` are methods built from those.
  - pandas' date parser is foreign code. It is a parameter `parse` of type `Value -> Option<Timestamp>`.
- **`Load`** (`load.dfy`): the three table definitions of `create_tables` and the database as a class `Database`.
  - The database's field `tables` maps each table name to its stored rows. Rows with a non-null key are held in a map by key. Rows with a NULL key are held in a list, because SQLite accepts a NULL in a TEXT primary key, and such a row never matches `key = ?` and never conflicts.
  - `Database.Upsert` is the loop of `upsert_to_data`, and `Database.UpsertRow` is its body. The loop is proved to compute `Run`, the row-by-row fold of `Step` over the batch.
  - A write fails (`WriteFails`) in two cases. The first is when the statement is invalid for the frame's columns: a column the table lacks, or an empty `DO UPDATE SET` clause. The second is when enforcement is on and a foreign-key column the statement writes holds a non-null value that names no parent row. Only the frame's columns are written: on insert the others are NULL, and on update they are not in the `SET` list, which is all SQLite checks on an update.
- **`UpsertProperties`** (`upsert_properties.dfy`): what the loop guarantees, proved about `Run`. This covers counting, growth, latest values, idempotence, foreign-key failure and referential integrity.
- **`Pipeline`** (`pipeline.dfy`): how the cleaned column lists meet the table definitions, and why Providers and Patients are loaded before Claims.

Deduplication keeps the **first** row of each key, which is the default of pandas' `drop_duplicates(subset=[key])`; null keys count as one key.

## Model

| member | source | states |
|---|---|---|
| Dates.Iso | src/transform.py:49 | `isoformat()` of a whole-second timestamp is 19 characters with `-`, `-`, `T`, `:`, `:` at positions 4, 7, 10, 13, 16 |
| Dates.ParseIsoOfIso | src/transform.py:48-49 | parsing the ISO text of any timestamp gives back that timestamp |
| Dates.IsoOfParseIso | src/transform.py:48-49 | any string the strict parser accepts is exactly the ISO text of what it parses to |
| Dates.IsoExample | tests/test_elt_modules.py:41 | the timestamp 1985-05-05 00:00:00 formats as "1985-05-05T00:00:00" |
| Frames.WithNullColumn | src/transform.py:12-13 | adding a missing column keeps the row count and every other cell and sets the new cell of each row to null |
| Frames.Select | src/transform.py:14 | `df[expected_cols]` has exactly the selected columns in order, the same row count, and the original values |
| Frames.DropNa | src/transform.py:59 | `dropna(subset)`: the rows with every subset cell non-null, in order; specified by `DropNaSpec` and `DropNaPartition` |
| Frames.WithMissing | src/transform.py:85 | the rows selected by the `isna()` mask on a subset, in order; specified by `WithMissingSpec` and `DropNaPartition` |
| Frames.DropNaSpec | src/transform.py:100 | `dropna(subset)` keeps exactly the rows complete on the subset, in order: every kept row is complete, the result is a subsequence, and a table of complete rows is returned unchanged |
| Frames.WithMissingSpec | src/transform.py:85 | the `isna()` mask selects only rows with a null in the subset, in order |
| Frames.DropNaPartition | src/transform.py:85-100 | the rows kept by `dropna` and the rows selected by the `isna` mask together are the input rows (as a multiset), so their counts add up to the input count |
| Frames.DropDuplicatesSpec | src/transform.py:101 | `drop_duplicates(subset=[key])` has pairwise-distinct keys, the same key set as its input (null counted as one key), and is a subsequence of it |
| Frames.DropDuplicates | src/transform.py:101 | keep-first `drop_duplicates(subset=[key])`, with null counted as one key; specified by `DropDuplicatesSpec`, `DedupFromKeepsFirst` and `DedupFromDistinctInput` |
| Frames.DedupFrom | src/transform.py:101 | the scan behind `DropDuplicates`: a row is kept when its key is not among the keys already kept; its properties are those of the three lemmas above |
| Frames.DedupFromKeepsFirst | src/transform.py:101 | each row `drop_duplicates` keeps is the first row of the input with that key |
| Frames.DedupFromDistinctInput | src/transform.py:101 | a table whose keys are already distinct passes through `drop_duplicates` unchanged |
| Schema.ColumnListsHaveNoDuplicates | src/schema_definitions.py:1-11 | no column list names a column twice |
| Schema.KeyColumnsComeFirst | src/schema_definitions.py:1-11 | each list starts with the key column the pipeline passes to the upsert (ProviderID, PatientID, ClaimID) |
| Schema.ClaimColumnsHoldRequiredColumns | src/schema_definitions.py:9-11 | the claim columns contain PatientID and ProviderID, the columns the claim cleaner requires non-null |
| Transform.AlignColumns | src/transform.py:6-14 | the result has exactly the expected columns in order, the same number of rows, each kept column's values, and null in every column it added |
| Transform.Aligned | src/transform.py:6-14 | `align_columns` as a value: null columns added for the missing expected columns, then the expected columns selected; `AlignColumns` is proved to compute it |
| Transform.ConvertCell | src/transform.py:48-49 | a converted cell is null or the ISO text of a timestamp, never a sentinel; it is null exactly when the input is null or does not parse |
| Transform.StrictParseReparses | src/transform.py:48 | a parser that accepts timestamps and canonical ISO text reads back the ISO text of every timestamp it yields, so the assumption the idempotence lemmas make can be met |
| Transform.NsParseReparses | src/transform.py:48 | a parser that, like pandas' `datetime64[ns]`, coerces timestamps outside 1677-09-21 to 2262-04-11 to NaT (a year-1500 timestamp gives null) still reads back the ISO text of every timestamp it yields |
| Transform.ConvertCellIdempotent | src/transform.py:48-49 | converting an already converted cell changes nothing, for any parser that reads back the ISO text of the timestamps it yields |
| Transform.ConvertCellExample | tests/test_elt_modules.py:37-41 | a 1985-05-05 timestamp cell becomes "1985-05-05T00:00:00", for any parser that maps that timestamp to itself |
| Transform.ConvertColumn | src/transform.py:47-50 | one pass of the loop, `df[col] = ...`: each row's cell in that column is replaced by `ConvertCell` and the rest of the row is kept; specified by `ConvertedShape`, `ConvertedCells` and `ConvertedUntouched` |
| Transform.Converted | src/transform.py:46-51 | `convert_timestamps` as a value: `ConvertColumn` for each listed column in order, skipping a column the frame lacks; `ConvertTimestamps` is proved to compute it |
| Transform.ConvertedShape | src/transform.py:46-51 | conversion keeps the column list, the row count and the row shape |
| Transform.ConvertedCells | src/transform.py:46-50 | each listed column's cell becomes its converted value; every other cell is unchanged |
| Transform.ConvertedIdempotent | src/transform.py:46-50 | converting a converted table again changes nothing |
| Transform.ConvertedUntouched | src/transform.py:46-47 | a column not in the list keeps every value |
| Transform.ConvertTimestamps | src/transform.py:40-51 | the loop computes `Converted`: same columns and rows, unlisted columns untouched, listed columns converted cell by cell |
| Transform.DropNaKeys | src/transform.py:59 | after `dropna(subset=[key])` the key set is the input's minus null |
| Transform.KeyedCleanSpec | src/transform.py:59-60 | `dropna` then `drop_duplicates` on the key leaves no null key, distinct keys, every non-null input key, and a subsequence of the input |
| Transform.CleanProviders | src/transform.py:53-61 | provider columns exactly; rows are the keep-first dedup of the non-null-id aligned rows; no null ProviderID; distinct ProviderIDs; every non-null input ProviderID kept |
| Transform.CleanPatients | src/transform.py:63-72 | as for providers with PatientID, and every DateOfBirth is null or ISO text |
| Transform.ClaimRowsSpec | src/transform.py:100-101 | the claims kept have non-null PatientID and ProviderID, distinct ClaimIDs, and normalised ServiceDate; kept plus dropped equals the input count |
| Transform.CleanClaims | src/transform.py:74-102 | claim columns exactly; rows are the keep-first ClaimID dedup of the complete staged rows; no null PatientID/ProviderID; distinct ClaimIDs; ServiceDate null or ISO text; `dropped` is the number of input rows missing either id, counted before dedup; one "claim_dropped" record per dropped row, in order |
| Transform.ProvidersCleanExample | tests/test_elt_modules.py:24-31 | `clean_providers` on providers P001, null, P001 (aligned from a frame of ProviderID and Name) leaves one row, and its ProviderID is P001 |
| Transform.ClaimsDropExample | tests/test_elt_modules.py:43-56 | `clean_claims` on the three test claims, for any date parser: `dropped` is 2, the log holds the "claim_dropped" / "Missing PatientID or ProviderID" records of C002 and then C003 with their ids, converted ServiceDate and Status, and the one kept row is C001 |
| Transform.PatientsCleanExample | tests/test_elt_modules.py:33-41 | `clean_patients` on PT001 with a 1985-05-05 timestamp and a patient with no id, aligned and converted as the cleaner does: one row is left, PT001, with DateOfBirth "1985-05-05T00:00:00" |
| Transform.StagedClaims | src/transform.py:81-82 | the claims frame after `align_columns` and `convert_timestamps(["ServiceDate"])`; specified by `StagedCell` and `StagedClaimsSpec` |
| Transform.AlignedConvertedCell | src/transform.py:68-69 | after aligning to a column list and converting one of its columns, every listed cell of a row is the input row's, that column's converted, and the row count is unchanged |
| Transform.StagedCell | src/transform.py:81-82 | each staged claim keeps the input row's value in every claim column, with ServiceDate converted |
| Transform.StagedClaimsSpec | src/transform.py:81-86 | after alignment and conversion every ServiceDate is null or ISO text, and the `isna()` mask counts as many rows as it would on the input |
| Transform.DroppedClaimRecord | src/transform.py:88-97 | the logged record of a staged claim carries the input's ClaimID, PatientID, ProviderID and Status and its converted ServiceDate |
| Transform.DropRecordOf | src/transform.py:89-97 | the "claim_dropped" warning of one row: reason "Missing PatientID or ProviderID" and the row's ClaimID, PatientID, ProviderID, ServiceDate and Status; `DroppedClaimRecord` states it for staged claims |
| Load.Run | src/load.py:207-230 | the loop never creates or removes a table |
| Load.Step | src/load.py:208-230 | one iteration of the loop against the live store: a failing write only counts a failure; otherwise the written row is stored under its key and counted as an update when the key was present, else as an insert; specified by `Database.UpsertRow` and `RunRowByRow` |
| Load.Present | src/load.py:215-216 | `SELECT 1 ... WHERE key = ?` finds a row: the key is non-null and stored; a NULL key never matches |
| Load.Written | src/load.py:218-222 | the row the upsert leaves under its key; specified by `WrittenSpec` and `WrittenIsProject` |
| Load.BadStatement | src/load.py:211-221 | the statement cannot run: the frame has a column the table lacks, or no non-key column so that `DO UPDATE SET` is empty; `BadStatementSkipsBatch` states its effect |
| Load.DanglingForeignKey | src/load.py:30-31 | a foreign-key column the frame writes holds a non-null value that names no parent row; specified by `DanglingDependsOnParents`, `DanglingClaimFails`, `ClaimWithParentsIsWritten` and `ForeignKeysOutsideFrameNotChecked` |
| Load.WriteFails | src/load.py:223-230 | the `except` branch is taken: a bad statement, or a dangling foreign key while enforcement is on |
| Load.Put | src/load.py:218-222 | storing the written row: under its key, replacing any stored row, or appended when the key is NULL; `RunGrowth` and `NullKeyAlwaysInserts` state its effect |
| Load.Database.Connect | elt_pipeline.py:18 | a new connection sees the file's tables, with foreign-key enforcement off |
| Load.Database.EnableForeignKeys | elt_pipeline.py:19 | the pragma turns enforcement on and leaves the tables alone |
| Load.Database.CreateTables | src/load.py:4-34 | each of the three tables exists afterwards; an existing table keeps its rows; a new one is empty |
| Load.Database.UpsertRow | src/load.py:208-230 | one row: the table and counters afterwards are exactly one `Step`, i.e. an update counted when the key was present, an insert when it was not, nothing but the failure count when the write fails |
| Load.Database.Upsert | src/load.py:201-234 | an empty frame returns (0, 0) and changes nothing; otherwise the loop leaves the database and returns the insert and update counts that `Run` gives for the batch against the table as it was |
| UpsertProperties.KeyIsColumn | src/load.py:6-33 | every table lists its key among its columns |
| UpsertProperties.ForeignKeysWellFormed | src/load.py:22-33 | each foreign key is a non-key column of its table and points at the key column of another declared table |
| UpsertProperties.DeclaredForeignKeys | src/load.py:4-33 | `create_tables` declares Providers, Patients and Claims; only Claims has foreign keys, PatientID to Patients(PatientID) and ProviderID to Providers(ProviderID) |
| UpsertProperties.WrittenSpec | src/load.py:218-222 | after a write, the row under the key has the frame's value in every table column the frame has, the key unchanged; any other column is null on insert and keeps its stored value on update |
| UpsertProperties.WrittenIsProject | src/load.py:218-222 | when the frame supplies every table column, insert and update both leave exactly the frame row |
| UpsertProperties.DanglingDependsOnParents | src/load.py:30-31 | the foreign-key failure depends only on the parent tables |
| UpsertProperties.DanglingClaimFails | src/load.py:30-31 | with enforcement on, a claim whose PatientID or ProviderID names no stored patient or provider is skipped, leaving the database and both counters unchanged |
| UpsertProperties.ClaimWithParentsIsWritten | src/load.py:30-31 | a claim whose non-null PatientID and ProviderID both have parents is not skipped |
| UpsertProperties.ForeignKeysOutsideFrameNotChecked | src/load.py:212-221 | a Claims frame without PatientID and ProviderID never fails on a foreign key, and an update keeps the stored ids, as SQLite checks only the columns in the `SET` list |
| UpsertProperties.RunRowByRow | src/load.py:215-230 | row i either fails and only the failure count moves, or it is stored and counted as an update exactly when its key was in the live table after rows 0..i-1, otherwise as an insert |
| UpsertProperties.RepeatedKeyInsertsThenUpdates | src/load.py:215-216 | a new key occurring twice in one batch is counted as one insert and one update |
| UpsertProperties.NullKeyAlwaysInserts | src/load.py:215-228 | a successful write of a NULL-key row is counted as an insert and adds a row without touching keyed rows |
| UpsertProperties.RunOtherTables | src/load.py:218-222 | tables other than the target keep their rows |
| UpsertProperties.RunConservation | src/load.py:223-230 | every row is counted exactly once: inserted + updated + skipped = batch size |
| UpsertProperties.RunCountBound | src/load.py:223-234 | the returned inserted + updated is at most the batch size, and equals it exactly when no write failed |
| UpsertProperties.BadStatementSkipsBatch | src/load.py:218-230 | when the statement is invalid for the frame's columns, every row raises: the database is unchanged, (0, 0) is returned and every row is counted as skipped |
| UpsertProperties.RunGrowth | src/load.py:218-228 | no key is removed; new keys come from the batch; keys outside the batch keep their rows; NULL-key rows only accumulate; the insert count is exactly how many rows the table gained |
| UpsertProperties.RunSucceeded | src/load.py:218-230 | with failures allowed, the key set becomes exactly the old keys plus the non-null keys of the rows whose write went through; other stored keys keep their rows; the number of rows that went through is inserted + updated |
| UpsertProperties.SucceededWithoutFailures | src/load.py:223-230 | when nothing fails, every row of the batch goes through |
| UpsertProperties.RunKeysWithoutFailures | src/load.py:218-222 | without failures the key set becomes the old keys plus the batch's non-null keys |
| UpsertProperties.RunKeyedConsistently | src/load.py:212 | since the update clause never sets the key column, every stored row keeps carrying its own key |
| UpsertProperties.RunLatestWritten | src/load.py:218-230 | with failures allowed, each key of a row that went through holds the values of the last such row with that key |
| UpsertProperties.RunLatestValues | src/load.py:218-222 | without failures, every batch key holds the values of the last batch row with that key |
| UpsertProperties.RunTwiceIdempotent | src/load.py:215-228 | upserting the same failure-free batch of distinct non-null keys again leaves the database unchanged and returns (0, batch size) |
| UpsertProperties.StepKeepsIntegrity | src/load.py:30-31 | with enforcement on, one write keeps every stored foreign key resolved |
| UpsertProperties.RunKeepsIntegrity | tests/test_pipeline_validation.py:18-27 | with enforcement on, an upsert into any table keeps every stored claim's PatientID and ProviderID pointing at stored parents |
| UpsertProperties.ProviderUpsertExample | src/load.py:224-228 | upserting provider P1 named A into an empty table returns (1, 0); upserting P1 named B then returns (0, 1) and the stored name is B |
| Pipeline.TablesMatchSchema | src/schema_definitions.py:1-11 | each column list is exactly the column list of its CREATE TABLE, and starts with the table's key |
| Pipeline.ClaimColumnsFitClaimsTable | src/load.py:22-33 | a frame aligned to the claim columns makes a valid upsert statement for Claims and supplies all its columns |
| Pipeline.LoadOrderLetsClaimsResolve | elt_pipeline.py:38-40 | after failure-free loads of Providers then Patients, a claim whose ids occur among the loaded providers and patients is written, not skipped |

## Left out

- SQLite itself is modelled by its effect on table contents only. This leaves out the SQL text built at src/load.py:209-212, the placeholders, column type affinity and `commit`.
- A write can also fail because the driver cannot bind a value. One example is a pandas `Timestamp` left in a non-date column. Only the two failure causes in `WriteFails` are modelled.
- Foreign keys are checked on the child side only, when a claim is written. Upserts never change or delete a parent key, so the parent-side check cannot fire here.
- `ClaimAmount` and other numbers are opaque values. Floating-point and NaN arithmetic are not modelled. pandas' NaN is the null cell.
- Transform.ConvertCell: pandas' `to_datetime(..., errors="coerce")` is a parameter `parse`, not a model of pandas' format inference or of its supported date range. Idempotence assumes only `ReparsesOwnOutput(parse)`: the parser reads back the ISO text of any timestamp it yields. A parser limited to the nanosecond range meets this (`NsParseReparses`).
- Dates.Iso: only whole-second timestamps with years 1 to 9999 are modelled. Sub-second digits and time zones, which `isoformat()` would also print, are left out.
- Transform.ConvertedCells: the per-cell result is stated only when the listed columns are distinct or the parser reads back its own ISO text. `Converted` itself converts a column listed twice twice, as the loop does.
- Transform.ConvertTimestamps: pandas assigns each converted column into the caller's DataFrame (src/transform.py:48) and returns that same object. The model returns a new frame and does not capture that effect on the caller's object.
- Transform.AlignColumns: pandas adds the missing columns to the caller's DataFrame in place before selecting. The model returns a new frame and does not capture that effect on the caller's object.
- Load.Database.Upsert: when the frame has at least one row, three cases raise before the `try` (src/load.py:208, 215) and abort the whole call: a key column the frame lacks, a table that does not exist, and a key cell holding a timestamp, which the driver cannot bind in the `SELECT`. The model also requires the key column to be the table's declared key, which every call in elt_pipeline.py passes. These cases are preconditions, not modelled outcomes. An empty frame is modelled: it returns (0, 0) and changes nothing.
- Load.Database.Upsert: the failure count and the warning log of the `except` branch are ghost; the message text is not modelled.
- Logging in general is left out: the `logging.info` summaries and the formatting of the `claim_dropped` warnings. The warnings are returned as a sequence of `DropRecord` values.
- src/extract.py (reading Excel files), src/config_loader.py and src/utils.py are not part of this model.
- The orchestration in elt_pipeline.py is represented only by the pipeline lemmas.
- The commented-out alternative implementations in src/load.py and src/transform.py are dead code and are not part of this model.
- tests/test_pipeline_validation.py inspects a live database file. Only its integrity property is stated, as `UpsertProperties.RunKeepsIntegrity`.
