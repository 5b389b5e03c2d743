/**
 * The cleaning stage of src/transform.py: column alignment, timestamp
 * normalisation and the three per-entity cleaners.
 *
 * The date parser (`pd.to_datetime(..., errors="coerce")`) is foreign code;
 * it is a parameter `parse` of the operations that use it. A failed parse is
 * `None`. Where a property needs the parser to read back the ISO text the
 * stage itself produced, the lemma asks for `ReparsesOwnOutput(parse)`.
 */
module Transform {

  import opened Options
  import opened Dates
  import opened Frames
  import opened Schema

  // ------------------------------------------------------------ align_columns

  /** The frame `align_columns` returns: exactly `expected`, missing columns null. */
  function Aligned(f: Frame, expected: seq<ColName>): Frame {
    Frame(expected, seq(|f.rows|, i requires 0 <= i < |f.rows| => map c | c in expected :: Get(f.rows[i], c)))
  }

  /**
   * align_columns: adds every expected column the frame lacks, filled with
   * null, then selects the expected columns in order; other columns are dropped.
   */
  method AlignColumns(df: Frame, expected: seq<ColName>) returns (r: Frame)
    requires WellFormed(df)
    ensures r == Aligned(df, expected)
    ensures WellFormed(r) && r.columns == expected && |r.rows| == |df.rows|
    ensures forall i, c :: 0 <= i < |r.rows| && c in expected && c in df.columns ==> r.rows[i][c] == df.rows[i][c]
    ensures forall i, c :: 0 <= i < |r.rows| && c in expected && c !in df.columns ==> r.rows[i][c] == None
  {
    var t := df;
    for k := 0 to |expected|
      invariant WellFormed(t) && |t.rows| == |df.rows|
      invariant forall c :: c in df.columns ==> c in t.columns
      invariant forall c :: c in expected[..k] ==> c in t.columns
      invariant forall i, c :: 0 <= i < |t.rows| && c in t.columns ==> t.rows[i][c] == Get(df.rows[i], c)
    {
      if expected[k] !in t.columns {
        t := WithNullColumn(t, expected[k]);
      }
    }
    assert expected[..|expected|] == expected;
    r := Select(t, expected);
    forall i | 0 <= i < |r.rows| ensures r.rows[i] == Aligned(df, expected).rows[i] {
      assert r.rows[i].Keys == Aligned(df, expected).rows[i].Keys;
    }
  }

  // ------------------------------------------------------- convert_timestamps

  /** A cell that is null or the ISO-8601 text of some timestamp: never a sentinel. */
  ghost predicate IsoOrNull(c: Cell) {
    c.None? || exists d: Timestamp :: c.value == Str(Iso(d))
  }

  /** One cell of `pd.to_datetime(col, errors="coerce").apply(isoformat if notnull else None)`. */
  function ConvertCell(parse: Value -> Option<Timestamp>, cell: Cell): (r: Cell)
    ensures IsoOrNull(r)
    ensures r.None? <==> cell.None? || parse(cell.value).None?
  {
    match cell
    case None => None
    case Some(v) =>
      match parse(v)
      case None => None
      case Some(d) => Some(Str(Iso(d)))
  }

  /** `df[c] = <converted df[c]>`. */
  function ConvertColumn(f: Frame, c: ColName, parse: Value -> Option<Timestamp>): Frame {
    Frame(f.columns, seq(|f.rows|, i requires 0 <= i < |f.rows| => f.rows[i][c := ConvertCell(parse, Get(f.rows[i], c))]))
  }

  /** The frame after the loop of convert_timestamps has handled `cols`, in order; absent columns are skipped. */
  function Converted(f: Frame, cols: seq<ColName>, parse: Value -> Option<Timestamp>): Frame
    decreases |cols|
  {
    if cols == [] then f
    else
      var p := Converted(f, cols[..|cols| - 1], parse);
      var c := cols[|cols| - 1];
      if c in p.columns then ConvertColumn(p, c, parse) else p
  }

  /**
   * What idempotence needs of pandas' parser: whatever timestamp it yields,
   * it reads that timestamp's own ISO text back as the same timestamp.
   * Values it rejects (NaT) are unconstrained, so a parser with a narrower
   * range, such as pandas' nanosecond one, qualifies.
   */
  ghost predicate ReparsesOwnOutput(parse: Value -> Option<Timestamp>) {
    forall v :: parse(v).Some? ==> parse(Str(Iso(parse(v).value))) == parse(v)
  }

  /** A parser that accepts only timestamps and canonical strings. */
  function StrictParse(v: Value): Option<Timestamp> {
    match v
    case Stamp(d) => Some(d)
    case Str(s) => ParseIso(s)
    case Num(_) => None
  }

  lemma StrictParseReparses()
    ensures ReparsesOwnOutput(StrictParse)
  {
    forall v | StrictParse(v).Some? ensures StrictParse(Str(Iso(StrictParse(v).value))) == StrictParse(v) {
      ParseIsoOfIso(StrictParse(v).value);
    }
  }

  /** Chronological order on timestamps. */
  predicate NotAfter(a: Timestamp, b: Timestamp) {
    if a.year != b.year then a.year < b.year
    else if a.month != b.month then a.month < b.month
    else if a.day != b.day then a.day < b.day
    else if a.hour != b.hour then a.hour < b.hour
    else if a.minute != b.minute then a.minute < b.minute
    else a.second <= b.second
  }

  /** The first and last whole seconds a nanosecond `datetime64` can hold. */
  const NsEarliest: Timestamp := DateTime(1677, 9, 21, 0, 12, 44)
  const NsLatest: Timestamp := DateTime(2262, 4, 11, 23, 47, 16)

  /** Like `StrictParse`, but out-of-range timestamps coerce to NaT, as with `datetime64[ns]`. */
  function NsParse(v: Value): Option<Timestamp> {
    match StrictParse(v)
    case None => None
    case Some(d) => if NotAfter(NsEarliest, d) && NotAfter(d, NsLatest) then Some(d) else None
  }

  /** The nanosecond-range parser rejects a year-1500 timestamp and still meets the assumption. */
  lemma NsParseReparses()
    ensures ReparsesOwnOutput(NsParse)
    ensures NsParse(Stamp(DateTime(1500, 1, 1, 0, 0, 0))) == None
    ensures NsParse(Stamp(DateTime(1985, 5, 5, 0, 0, 0))) == Some(DateTime(1985, 5, 5, 0, 0, 0))
  {
    forall v | NsParse(v).Some? ensures NsParse(Str(Iso(NsParse(v).value))) == NsParse(v) {
      var d := NsParse(v).value;
      assert StrictParse(v) == Some(d);
      ParseIsoOfIso(d);
    }
  }

  /** Normalising a normalised cell changes nothing. */
  lemma ConvertCellIdempotent(parse: Value -> Option<Timestamp>, cell: Cell)
    requires ReparsesOwnOutput(parse)
    ensures ConvertCell(parse, ConvertCell(parse, cell)) == ConvertCell(parse, cell)
  {
    if ConvertCell(parse, cell).Some? {
      ParseIsoOfIso(parse(cell.value).value);
    }
  }

  /** The test case: a 1985-05-05 timestamp becomes "1985-05-05T00:00:00". */
  lemma ConvertCellExample(parse: Value -> Option<Timestamp>)
    requires parse(Stamp(DateTime(1985, 5, 5, 0, 0, 0))) == Some(DateTime(1985, 5, 5, 0, 0, 0))
    ensures ConvertCell(parse, Some(Stamp(DateTime(1985, 5, 5, 0, 0, 0)))) == Some(Str("1985-05-05T00:00:00"))
  {
    IsoExample();
  }

  /** Conversion keeps the column list, the row count and well-formedness. */
  lemma {:induction false} ConvertedShape(f: Frame, cols: seq<ColName>, parse: Value -> Option<Timestamp>)
    requires WellFormed(f)
    ensures WellFormed(Converted(f, cols, parse))
    ensures Converted(f, cols, parse).columns == f.columns
    ensures |Converted(f, cols, parse).rows| == |f.rows|
    decreases |cols|
  {
    if cols != [] {
      ConvertedShape(f, cols[..|cols| - 1], parse);
    }
  }

  /**
   * Cell by cell: a listed column that exists is normalised, every other
   * column is untouched. Holds when no column is listed twice, or when the
   * parser makes normalisation idempotent.
   */
  lemma {:induction false} ConvertedCells(f: Frame, cols: seq<ColName>, parse: Value -> Option<Timestamp>)
    requires WellFormed(f)
    requires NoDuplicates(cols) || ReparsesOwnOutput(parse)
    ensures |Converted(f, cols, parse).rows| == |f.rows|
    ensures forall i, c :: 0 <= i < |f.rows| && c in f.columns ==>
      Get(Converted(f, cols, parse).rows[i], c) == if c in cols then ConvertCell(parse, Get(f.rows[i], c)) else Get(f.rows[i], c)
    decreases |cols|
  {
    ConvertedShape(f, cols, parse);
    if cols != [] {
      var front := cols[..|cols| - 1];
      var last := cols[|cols| - 1];
      assert NoDuplicates(cols) ==> NoDuplicates(front) && last !in front;
      ConvertedCells(f, front, parse);
      ConvertedShape(f, front, parse);
      var p := Converted(f, front, parse);
      var r := Converted(f, cols, parse);
      forall i, c | 0 <= i < |f.rows| && c in f.columns
        ensures Get(r.rows[i], c) == if c in cols then ConvertCell(parse, Get(f.rows[i], c)) else Get(f.rows[i], c)
      {
        var x := Get(f.rows[i], c);
        assert c in cols <==> c in front || c == last;
        if c == last {
          assert r == ConvertColumn(p, last, parse);
          assert Get(r.rows[i], c) == ConvertCell(parse, Get(p.rows[i], c));
          if c in front {
            ConvertCellIdempotent(parse, x);
          }
        } else {
          assert Get(r.rows[i], c) == Get(p.rows[i], c);
        }
      }
    }
  }

  /** Normalising twice is normalising once. */
  lemma ConvertedIdempotent(f: Frame, cols: seq<ColName>, parse: Value -> Option<Timestamp>)
    requires WellFormed(f)
    requires ReparsesOwnOutput(parse)
    ensures Converted(Converted(f, cols, parse), cols, parse) == Converted(f, cols, parse)
  {
    var once := Converted(f, cols, parse);
    var twice := Converted(once, cols, parse);
    ConvertedShape(f, cols, parse);
    ConvertedShape(once, cols, parse);
    ConvertedCells(f, cols, parse);
    ConvertedCells(once, cols, parse);
    forall i | 0 <= i < |once.rows| ensures twice.rows[i] == once.rows[i] {
      forall c | c in f.columns ensures twice.rows[i][c] == once.rows[i][c] {
        if c in cols {
          ConvertCellIdempotent(parse, Get(f.rows[i], c));
        }
      }
    }
  }

  /**
   * convert_timestamps: for each listed column the frame has, every value is
   * replaced by its ISO-8601 text, or null when missing or unparseable.
   */
  method ConvertTimestamps(df: Frame, dateColumns: seq<ColName>, parse: Value -> Option<Timestamp>) returns (r: Frame)
    requires WellFormed(df)
    ensures r == Converted(df, dateColumns, parse)
    ensures WellFormed(r) && r.columns == df.columns && |r.rows| == |df.rows|
    ensures forall i, c :: 0 <= i < |r.rows| && c in df.columns && c !in dateColumns ==> r.rows[i][c] == df.rows[i][c]
    ensures NoDuplicates(dateColumns) || ReparsesOwnOutput(parse) ==>
      forall i, c :: 0 <= i < |r.rows| && c in df.columns && c in dateColumns ==> r.rows[i][c] == ConvertCell(parse, df.rows[i][c])
  {
    r := df;
    for k := 0 to |dateColumns|
      invariant r == Converted(df, dateColumns[..k], parse)
    {
      assert dateColumns[..k + 1][..k] == dateColumns[..k];
      if dateColumns[k] in r.columns {
        r := ConvertColumn(r, dateColumns[k], parse);
      }
    }
    assert dateColumns[..|dateColumns|] == dateColumns;
    ConvertedShape(df, dateColumns, parse);
    if NoDuplicates(dateColumns) || ReparsesOwnOutput(parse) {
      ConvertedCells(df, dateColumns, parse);
    } else {
      // Untouched columns do not depend on the parser's behaviour.
      forall i, c | 0 <= i < |r.rows| && c in df.columns && c !in dateColumns
        ensures Get(r.rows[i], c) == Get(df.rows[i], c)
      {
        ConvertedUntouched(df, dateColumns, parse, i, c);
      }
    }
  }

  lemma {:induction false} ConvertedUntouched(f: Frame, cols: seq<ColName>, parse: Value -> Option<Timestamp>, i: int, c: ColName)
    requires WellFormed(f) && 0 <= i < |f.rows| && c in f.columns && c !in cols
    ensures |Converted(f, cols, parse).rows| == |f.rows|
    ensures Get(Converted(f, cols, parse).rows[i], c) == Get(f.rows[i], c)
    decreases |cols|
  {
    ConvertedShape(f, cols, parse);
    if cols != [] {
      ConvertedShape(f, cols[..|cols| - 1], parse);
      ConvertedUntouched(f, cols[..|cols| - 1], parse, i, c);
    }
  }

  // ----------------------------------------------------------------- cleaners

  /** Rows kept from `rows` are rows of `rows`: they keep its shape. */
  lemma SubsequenceWellFormed(columns: seq<ColName>, sub: seq<Row>, rows: seq<Row>)
    requires WellFormed(Frame(columns, rows)) && Subsequence(sub, rows)
    ensures WellFormed(Frame(columns, sub))
  {
    SubsequenceMembers(sub, rows);
    forall i | 0 <= i < |sub| ensures sub[i].Keys == set c | c in columns {
      assert sub[i] in rows;
    }
  }

  /** dropna on the key column removes exactly the null key. */
  lemma {:induction false} DropNaKeys(rows: seq<Row>, key: ColName)
    ensures KeysOf(DropNa(rows, [key]), key) == KeysOf(rows, key) - {None}
  {
    if rows != [] {
      DropNaKeys(rows[1..], key);
      if Complete(rows[0], [key]) {
        assert DropNa(rows, [key])[1..] == DropNa(rows[1..], [key]);
      } else {
        assert key in [key];
      }
    }
  }

  /** Keep the non-null keys, then the first row per key; shared by the provider and patient cleaners. */
  lemma KeyedCleanSpec(f: Frame, key: ColName)
    requires WellFormed(f)
    ensures var out := DropDuplicates(DropNa(f.rows, [key]), key);
      && WellFormed(Frame(f.columns, out))
      && (forall i :: 0 <= i < |out| ==> Get(out[i], key).Some?)
      && DistinctKeys(out, key)
      && KeysOf(out, key) == KeysOf(f.rows, key) - {None}
      && Subsequence(out, f.rows)
      && (forall row :: row in out ==> row in f.rows)
  {
    var kept := DropNa(f.rows, [key]);
    var out := DropDuplicates(kept, key);
    DropNaSpec(f.rows, [key]);
    DropDuplicatesSpec(kept, key);
    SubsequenceTrans(out, kept, f.rows);
    DropNaKeys(f.rows, key);
    SubsequenceMembers(kept, f.rows);
    SubsequenceMembers(out, kept);
    SubsequenceWellFormed(f.columns, kept, f.rows);
    SubsequenceWellFormed(f.columns, out, kept);
    forall i | 0 <= i < |out| ensures Get(out[i], key).Some? {
      assert out[i] in kept;
      var j :| 0 <= j < |kept| && kept[j] == out[i];
      assert Complete(kept[j], [key]) && key in [key];
    }
  }

  /**
   * clean_providers: aligned to the provider columns, rows without a
   * ProviderID dropped, then one row per ProviderID, the first one.
   */
  method CleanProviders(df: Frame) returns (r: Frame)
    requires WellFormed(df)
    ensures r.columns == ProviderColumns && WellFormed(r)
    ensures r.rows == DropDuplicates(DropNa(Aligned(df, ProviderColumns).rows, ["ProviderID"]), "ProviderID")
    ensures forall i :: 0 <= i < |r.rows| ==> Get(r.rows[i], "ProviderID").Some?
    ensures DistinctKeys(r.rows, "ProviderID")
    ensures KeysOf(r.rows, "ProviderID") == KeysOf(Aligned(df, ProviderColumns).rows, "ProviderID") - {None}
    ensures Subsequence(r.rows, Aligned(df, ProviderColumns).rows)
  {
    var t := AlignColumns(df, ProviderColumns);
    t := Frame(t.columns, DropNa(t.rows, ["ProviderID"]));
    t := Frame(t.columns, DropDuplicates(t.rows, "ProviderID"));
    r := t;
    KeyedCleanSpec(Aligned(df, ProviderColumns), "ProviderID");
  }

  /**
   * clean_patients: aligned to the patient columns, DateOfBirth normalised,
   * rows without a PatientID dropped, then one row per PatientID, the first one.
   */
  method CleanPatients(df: Frame, parse: Value -> Option<Timestamp>) returns (r: Frame)
    requires WellFormed(df)
    ensures r.columns == PatientColumns && WellFormed(r)
    ensures r.rows == DropDuplicates(DropNa(Converted(Aligned(df, PatientColumns), ["DateOfBirth"], parse).rows, ["PatientID"]), "PatientID")
    ensures forall i :: 0 <= i < |r.rows| ==> Get(r.rows[i], "PatientID").Some?
    ensures DistinctKeys(r.rows, "PatientID")
    ensures KeysOf(r.rows, "PatientID") == KeysOf(Aligned(df, PatientColumns).rows, "PatientID") - {None}
    ensures Subsequence(r.rows, Converted(Aligned(df, PatientColumns), ["DateOfBirth"], parse).rows)
    ensures forall i :: 0 <= i < |r.rows| ==> IsoOrNull(Get(r.rows[i], "DateOfBirth"))
  {
    var t := AlignColumns(df, PatientColumns);
    var aligned := t;
    t := ConvertTimestamps(t, ["DateOfBirth"], parse);
    var converted := t;
    t := Frame(t.columns, DropNa(t.rows, ["PatientID"]));
    t := Frame(t.columns, DropDuplicates(t.rows, "PatientID"));
    r := t;
    KeyedCleanSpec(converted, "PatientID");
    SameKeys(aligned.rows, converted.rows, "PatientID");
    forall i | 0 <= i < |r.rows| ensures IsoOrNull(Get(r.rows[i], "DateOfBirth")) {
      assert r.rows[i] in converted.rows;
      var j :| 0 <= j < |converted.rows| && converted.rows[j] == r.rows[i];
      assert "DateOfBirth" in converted.columns;
    }
  }

  /** Two row lists that agree on a column have the same key set for it. */
  lemma {:induction false} SameKeys(a: seq<Row>, b: seq<Row>, key: ColName)
    requires |a| == |b| && forall i :: 0 <= i < |a| ==> Get(a[i], key) == Get(b[i], key)
    ensures KeysOf(a, key) == KeysOf(b, key)
  {
    if a != [] {
      SameKeys(a[1..], b[1..], key);
    }
  }

  /** Two row lists that agree on the required columns have the same `isna()` mask size. */
  lemma {:induction false} SameMask(a: seq<Row>, b: seq<Row>, subset: seq<ColName>)
    requires |a| == |b| && forall i, c :: 0 <= i < |a| && c in subset ==> Get(a[i], c) == Get(b[i], c)
    ensures |WithMissing(a, subset)| == |WithMissing(b, subset)|
  {
    if a != [] {
      SameMask(a[1..], b[1..], subset);
      assert Complete(a[0], subset) <==> Complete(b[0], subset);
    }
  }

  /** What filtering and deduplication guarantee of the claims they keep. */
  lemma ClaimRowsSpec(staged: Frame)
    requires WellFormed(staged) && "ServiceDate" in staged.columns
    requires forall i :: 0 <= i < |staged.rows| ==> IsoOrNull(Get(staged.rows[i], "ServiceDate"))
    ensures var kept := DropNa(staged.rows, ClaimRequiredColumns);
      var out := DropDuplicates(kept, "ClaimID");
      && WellFormed(Frame(staged.columns, out))
      && DistinctKeys(out, "ClaimID")
      && |kept| + |WithMissing(staged.rows, ClaimRequiredColumns)| == |staged.rows|
      && (forall i :: 0 <= i < |out| ==> Get(out[i], "PatientID").Some? && Get(out[i], "ProviderID").Some?)
      && (forall i :: 0 <= i < |out| ==> IsoOrNull(Get(out[i], "ServiceDate")))
  {
    var kept := DropNa(staged.rows, ClaimRequiredColumns);
    var out := DropDuplicates(kept, "ClaimID");
    DropNaSpec(staged.rows, ClaimRequiredColumns);
    DropDuplicatesSpec(kept, "ClaimID");
    DropNaPartition(staged.rows, ClaimRequiredColumns);
    SubsequenceMembers(kept, staged.rows);
    SubsequenceMembers(out, kept);
    SubsequenceWellFormed(staged.columns, kept, staged.rows);
    SubsequenceWellFormed(staged.columns, out, kept);
    forall i | 0 <= i < |out|
      ensures Get(out[i], "PatientID").Some? && Get(out[i], "ProviderID").Some?
      ensures IsoOrNull(Get(out[i], "ServiceDate"))
    {
      assert out[i] in kept;
      var j :| 0 <= j < |kept| && kept[j] == out[i];
      assert Complete(kept[j], ClaimRequiredColumns);
      assert "PatientID" in ClaimRequiredColumns && "ProviderID" in ClaimRequiredColumns;
      assert out[i] in staged.rows;
      var m :| 0 <= m < |staged.rows| && staged.rows[m] == out[i];
    }
  }

  /** The structured warning clean_claims logs for each dropped claim. */
  datatype DropRecord = DropRecord(
    event: string, reason: string,
    claimId: Cell, patientId: Cell, providerId: Cell, serviceDate: Cell, status: Cell)

  function DropRecordOf(row: Row): DropRecord {
    DropRecord("claim_dropped", "Missing PatientID or ProviderID",
               Get(row, "ClaimID"), Get(row, "PatientID"), Get(row, "ProviderID"),
               Get(row, "ServiceDate"), Get(row, "Status"))
  }

  /** The frame clean_claims filters: aligned to the claim columns, ServiceDate normalised. */
  function StagedClaims(df: Frame, parse: Value -> Option<Timestamp>): Frame {
    Converted(Aligned(df, ClaimColumns), ["ServiceDate"], parse)
  }

  /**
   * clean_claims: aligned, ServiceDate normalised; every row lacking a
   * PatientID or a ProviderID is counted and logged, in order; the rest are
   * deduplicated by ClaimID, first row kept (null ClaimIDs count as one key).
   */
  method CleanClaims(df: Frame, parse: Value -> Option<Timestamp>) returns (r: Frame, dropped: nat, log: seq<DropRecord>)
    requires WellFormed(df)
    ensures r.columns == ClaimColumns && WellFormed(r)
    ensures r.rows == DropDuplicates(DropNa(StagedClaims(df, parse).rows, ClaimRequiredColumns), "ClaimID")
    ensures forall i :: 0 <= i < |r.rows| ==> Get(r.rows[i], "PatientID").Some? && Get(r.rows[i], "ProviderID").Some?
    ensures DistinctKeys(r.rows, "ClaimID")
    ensures forall i :: 0 <= i < |r.rows| ==> IsoOrNull(Get(r.rows[i], "ServiceDate"))
    ensures dropped == |WithMissing(df.rows, ClaimRequiredColumns)|
    ensures dropped + |DropNa(StagedClaims(df, parse).rows, ClaimRequiredColumns)| == |df.rows|
    ensures dropped == |WithMissing(StagedClaims(df, parse).rows, ClaimRequiredColumns)| == |log|
    ensures forall i :: 0 <= i < |log| ==> log[i] == DropRecordOf(WithMissing(StagedClaims(df, parse).rows, ClaimRequiredColumns)[i])
  {
    var t := AlignColumns(df, ClaimColumns);
    t := ConvertTimestamps(t, ["ServiceDate"], parse);
    var invalid := WithMissing(t.rows, ClaimRequiredColumns);
    dropped := |invalid|;
    log := [];
    for k := 0 to |invalid|
      invariant |log| == k
      invariant forall i :: 0 <= i < k ==> log[i] == DropRecordOf(invalid[i])
    {
      log := log + [DropRecordOf(invalid[k])];
    }
    var staged := t;
    t := Frame(t.columns, DropNa(t.rows, ClaimRequiredColumns));
    t := Frame(t.columns, DropDuplicates(t.rows, "ClaimID"));
    r := t;

    StagedClaimsSpec(df, parse);
    ClaimRowsSpec(staged);
  }

  /**
   * Staging keeps the row count and the required ids of every row, so the
   * `isna()` mask is as large before staging as after, and leaves every
   * ServiceDate null or ISO text.
   */
  lemma StagedClaimsSpec(df: Frame, parse: Value -> Option<Timestamp>)
    requires WellFormed(df)
    ensures var staged := StagedClaims(df, parse);
      && WellFormed(staged) && "ServiceDate" in staged.columns
      && (forall i :: 0 <= i < |staged.rows| ==> IsoOrNull(Get(staged.rows[i], "ServiceDate")))
      && |WithMissing(staged.rows, ClaimRequiredColumns)| == |WithMissing(df.rows, ClaimRequiredColumns)|
  {
    var staged := StagedClaims(df, parse);
    var aligned := Aligned(df, ClaimColumns);
    assert Converted(aligned, [], parse) == aligned;
    assert "ServiceDate" in aligned.columns;
    assert staged == ConvertColumn(aligned, "ServiceDate", parse);
    forall i | 0 <= i < |staged.rows| ensures IsoOrNull(Get(staged.rows[i], "ServiceDate")) {
      StagedCell(df, parse, i, "ServiceDate");
    }
    ClaimColumnsHoldRequiredColumns();
    forall i, c | 0 <= i < |df.rows| && c in ClaimRequiredColumns ensures Get(df.rows[i], c) == Get(staged.rows[i], c) {
      StagedCell(df, parse, i, c);
    }
    SameMask(df.rows, staged.rows, ClaimRequiredColumns);
  }

  /**
   * clean_providers on providers P001, a null id, and P001 again (the frame
   * lacks Specialty and City): one row is left, and it is P001.
   */
  lemma ProvidersCleanExample()
    ensures var a := map["ProviderID" := Some(Str("P001")), "Name" := Some(Str("Dr. A"))];
      var b := map["ProviderID" := None, "Name" := Some(Str("Dr. B"))];
      var out := DropDuplicates(DropNa(Aligned(Frame(["ProviderID", "Name"], [a, b, a]), ProviderColumns).rows, ["ProviderID"]), "ProviderID");
      |out| == 1 && Get(out[0], "ProviderID") == Some(Str("P001"))
  {
    var a := map["ProviderID" := Some(Str("P001")), "Name" := Some(Str("Dr. A"))];
    var b := map["ProviderID" := None, "Name" := Some(Str("Dr. B"))];
    var rows := Aligned(Frame(["ProviderID", "Name"], [a, b, a]), ProviderColumns).rows;
    var ra, rb := rows[0], rows[1];
    assert rows == [ra, rb, ra];
    assert Get(ra, "ProviderID") == Some(Str("P001"));
    assert Get(rb, "ProviderID") == None;
    var subset := ["ProviderID"];
    assert Complete(ra, subset) by {
      forall c | c in subset ensures Get(ra, c).Some? { assert c == "ProviderID"; }
    }
    assert !Complete(rb, subset) by {
      assert "ProviderID" in subset;
    }
    assert [ra, rb, ra][1..] == [rb, ra] && [rb, ra][1..] == [ra] && [ra][1..] == [] && [ra, ra][1..] == [ra];
    assert DropNa([ra], subset) == [ra];
    assert DropNa([rb, ra], subset) == [ra];
    assert DropNa([ra, rb, ra], subset) == [ra, ra];
    assert DedupFrom([ra], "ProviderID", {Get(ra, "ProviderID")}) == [];
    assert {} + {Get(ra, "ProviderID")} == {Get(ra, "ProviderID")};
    assert DedupFrom([ra, ra], "ProviderID", {}) == [ra] + DedupFrom([ra], "ProviderID", {Get(ra, "ProviderID")});
  }

  /**
   * clean_claims on three claims, the second without a PatientID and the
   * third without a ProviderID, whatever the date parser: two are counted,
   * both are logged in order, and only C001 is kept.
   */
  lemma ClaimsDropExample(parse: Value -> Option<Timestamp>)
    ensures var c1 := map["ClaimID" := Some(Str("C001")), "PatientID" := Some(Str("PT001")), "ProviderID" := Some(Str("PR001")),
                          "ServiceDate" := Some(Stamp(DateTime(2025, 1, 1, 0, 0, 0))), "ClaimAmount" := Some(Num(100.0)), "Status" := Some(Str("Approved"))];
      var c2 := map["ClaimID" := Some(Str("C002")), "PatientID" := None, "ProviderID" := Some(Str("PR002")),
                    "ServiceDate" := Some(Str("2025-02-02")), "ClaimAmount" := Some(Num(200.0)), "Status" := Some(Str("Denied"))];
      var c3 := map["ClaimID" := Some(Str("C003")), "PatientID" := Some(Str("PT003")), "ProviderID" := None,
                    "ServiceDate" := Some(Str("2025-03-03")), "ClaimAmount" := Some(Num(300.0)), "Status" := Some(Str("Pending"))];
      var df := Frame(ClaimColumns, [c1, c2, c3]);
      var staged := StagedClaims(df, parse).rows;
      var missing := WithMissing(staged, ClaimRequiredColumns);
      var out := DropDuplicates(DropNa(staged, ClaimRequiredColumns), "ClaimID");
      && |WithMissing(df.rows, ClaimRequiredColumns)| == 2
      && |missing| == 2
      && DropRecordOf(missing[0]) == DropRecord("claim_dropped", "Missing PatientID or ProviderID",
           Some(Str("C002")), None, Some(Str("PR002")), ConvertCell(parse, Some(Str("2025-02-02"))), Some(Str("Denied")))
      && DropRecordOf(missing[1]) == DropRecord("claim_dropped", "Missing PatientID or ProviderID",
           Some(Str("C003")), Some(Str("PT003")), None, ConvertCell(parse, Some(Str("2025-03-03"))), Some(Str("Pending")))
      && |out| == 1 && Get(out[0], "ClaimID") == Some(Str("C001"))
  {
    var c1 := map["ClaimID" := Some(Str("C001")), "PatientID" := Some(Str("PT001")), "ProviderID" := Some(Str("PR001")),
                  "ServiceDate" := Some(Stamp(DateTime(2025, 1, 1, 0, 0, 0))), "ClaimAmount" := Some(Num(100.0)), "Status" := Some(Str("Approved"))];
    var c2 := map["ClaimID" := Some(Str("C002")), "PatientID" := None, "ProviderID" := Some(Str("PR002")),
                  "ServiceDate" := Some(Str("2025-02-02")), "ClaimAmount" := Some(Num(200.0)), "Status" := Some(Str("Denied"))];
    var c3 := map["ClaimID" := Some(Str("C003")), "PatientID" := Some(Str("PT003")), "ProviderID" := None,
                  "ServiceDate" := Some(Str("2025-03-03")), "ClaimAmount" := Some(Num(300.0)), "Status" := Some(Str("Pending"))];
    ThreeClaims(Frame(ClaimColumns, [c1, c2, c3]), parse);
  }

  /** The claims example for any three rows with those ids, dates and statuses. */
  lemma ThreeClaims(df: Frame, parse: Value -> Option<Timestamp>)
    requires |df.rows| == 3
    requires Get(df.rows[0], "ClaimID") == Some(Str("C001")) && Get(df.rows[0], "PatientID").Some? && Get(df.rows[0], "ProviderID").Some?
    requires Get(df.rows[1], "ClaimID") == Some(Str("C002")) && Get(df.rows[1], "PatientID") == None && Get(df.rows[1], "ProviderID") == Some(Str("PR002"))
    requires Get(df.rows[1], "ServiceDate") == Some(Str("2025-02-02")) && Get(df.rows[1], "Status") == Some(Str("Denied"))
    requires Get(df.rows[2], "ClaimID") == Some(Str("C003")) && Get(df.rows[2], "PatientID") == Some(Str("PT003")) && Get(df.rows[2], "ProviderID") == None
    requires Get(df.rows[2], "ServiceDate") == Some(Str("2025-03-03")) && Get(df.rows[2], "Status") == Some(Str("Pending"))
    ensures var staged := StagedClaims(df, parse).rows;
      var missing := WithMissing(staged, ClaimRequiredColumns);
      var out := DropDuplicates(DropNa(staged, ClaimRequiredColumns), "ClaimID");
      && |WithMissing(df.rows, ClaimRequiredColumns)| == 2
      && |missing| == 2
      && DropRecordOf(missing[0]) == DropRecord("claim_dropped", "Missing PatientID or ProviderID",
           Some(Str("C002")), None, Some(Str("PR002")), ConvertCell(parse, Some(Str("2025-02-02"))), Some(Str("Denied")))
      && DropRecordOf(missing[1]) == DropRecord("claim_dropped", "Missing PatientID or ProviderID",
           Some(Str("C003")), Some(Str("PT003")), None, ConvertCell(parse, Some(Str("2025-03-03"))), Some(Str("Pending")))
      && |out| == 1 && Get(out[0], "ClaimID") == Some(Str("C001"))
  {
    MissingIdsSplit(df.rows);
    var staged := StagedClaims(df, parse).rows;
    StagedCell(df, parse, 0, "ClaimID");
    StagedCell(df, parse, 0, "PatientID");
    StagedCell(df, parse, 0, "ProviderID");
    StagedCell(df, parse, 1, "PatientID");
    StagedCell(df, parse, 2, "ProviderID");
    MissingIdsSplit(staged);
    DroppedClaimRecord(df, parse, 1);
    DroppedClaimRecord(df, parse, 2);
  }

  /** The log record of a staged claim: the input's ids and status, and its converted ServiceDate. */
  lemma DroppedClaimRecord(df: Frame, parse: Value -> Option<Timestamp>, i: int)
    requires 0 <= i < |df.rows|
    ensures |StagedClaims(df, parse).rows| == |df.rows|
    ensures DropRecordOf(StagedClaims(df, parse).rows[i]) == DropRecord("claim_dropped", "Missing PatientID or ProviderID",
      Get(df.rows[i], "ClaimID"), Get(df.rows[i], "PatientID"), Get(df.rows[i], "ProviderID"),
      ConvertCell(parse, Get(df.rows[i], "ServiceDate")), Get(df.rows[i], "Status"))
  {
    StagedCell(df, parse, i, "ClaimID");
    StagedCell(df, parse, i, "PatientID");
    StagedCell(df, parse, i, "ProviderID");
    StagedCell(df, parse, i, "ServiceDate");
    StagedCell(df, parse, i, "Status");
  }

  /** A staged claim keeps each claim column of the input row, with ServiceDate converted. */
  lemma StagedCell(df: Frame, parse: Value -> Option<Timestamp>, i: int, c: ColName)
    requires 0 <= i < |df.rows| && c in ClaimColumns
    ensures |StagedClaims(df, parse).rows| == |df.rows|
    ensures Get(StagedClaims(df, parse).rows[i], c) == if c == "ServiceDate" then ConvertCell(parse, Get(df.rows[i], c)) else Get(df.rows[i], c)
  {
    AlignedConvertedCell(df, ClaimColumns, "ServiceDate", parse, i, c);
  }

  /** Aligning, then converting one expected column: each expected cell is the input's, that column's converted. */
  lemma AlignedConvertedCell(df: Frame, expected: seq<ColName>, date: ColName, parse: Value -> Option<Timestamp>, i: int, c: ColName)
    requires 0 <= i < |df.rows| && date in expected && c in expected
    ensures |Converted(Aligned(df, expected), [date], parse).rows| == |df.rows|
    ensures Get(Converted(Aligned(df, expected), [date], parse).rows[i], c)
         == if c == date then ConvertCell(parse, Get(df.rows[i], c)) else Get(df.rows[i], c)
  {
    var aligned := Aligned(df, expected);
    assert Converted(aligned, [], parse) == aligned;
    assert Converted(aligned, [date], parse) == ConvertColumn(aligned, date, parse);
  }

  /** Of three claims where only the first has both ids, the mask picks the other two and dropna and dedup keep the first. */
  lemma MissingIdsSplit(rows: seq<Row>)
    requires |rows| == 3
    requires Get(rows[0], "PatientID").Some? && Get(rows[0], "ProviderID").Some?
    requires Get(rows[1], "PatientID").None? && Get(rows[2], "ProviderID").None?
    ensures WithMissing(rows, ClaimRequiredColumns) == [rows[1], rows[2]]
    ensures DropNa(rows, ClaimRequiredColumns) == [rows[0]]
    ensures DropDuplicates(DropNa(rows, ClaimRequiredColumns), "ClaimID") == [rows[0]]
  {
    var c1, c2, c3 := rows[0], rows[1], rows[2];
    assert rows == [c1, c2, c3];
    var subset := ClaimRequiredColumns;
    assert Complete(c1, subset) by {
      forall c | c in subset ensures Get(c1, c).Some? { assert c == "PatientID" || c == "ProviderID"; }
    }
    assert !Complete(c2, subset) by {
      assert "PatientID" in subset;
    }
    assert !Complete(c3, subset) by {
      assert "ProviderID" in subset;
    }
    assert [c1, c2, c3][1..] == [c2, c3] && [c2, c3][1..] == [c3] && [c3][1..] == [];
    assert WithMissing([c3], subset) == [c3];
    assert WithMissing([c2, c3], subset) == [c2, c3];
    assert DropNa([c3], subset) == [];
    assert DropNa([c2, c3], subset) == [];
    assert DedupFrom([c1], "ClaimID", {}) == [c1];
  }

  /**
   * clean_patients on PT001 born 1985-05-05 (a timestamp) and a patient with
   * no id: one row is left, PT001, with its DateOfBirth as ISO text. Only
   * the parser's answer on that timestamp matters.
   */
  lemma PatientsCleanExample(parse: Value -> Option<Timestamp>)
    requires parse(Stamp(DateTime(1985, 5, 5, 0, 0, 0))) == Some(DateTime(1985, 5, 5, 0, 0, 0))
    ensures var p1 := map["PatientID" := Some(Str("PT001")), "Name" := Some(Str("Alice")),
                          "DateOfBirth" := Some(Stamp(DateTime(1985, 5, 5, 0, 0, 0)))];
      var p2 := map["PatientID" := None, "Name" := Some(Str("Bob")), "DateOfBirth" := Some(Str("1990-06-06"))];
      var staged := Converted(Aligned(Frame(["PatientID", "Name", "DateOfBirth"], [p1, p2]), PatientColumns), ["DateOfBirth"], parse);
      var out := DropDuplicates(DropNa(staged.rows, ["PatientID"]), "PatientID");
      |out| == 1 && Get(out[0], "PatientID") == Some(Str("PT001")) && Get(out[0], "DateOfBirth") == Some(Str("1985-05-05T00:00:00"))
  {
    var p1 := map["PatientID" := Some(Str("PT001")), "Name" := Some(Str("Alice")),
                  "DateOfBirth" := Some(Stamp(DateTime(1985, 5, 5, 0, 0, 0)))];
    var p2 := map["PatientID" := None, "Name" := Some(Str("Bob")), "DateOfBirth" := Some(Str("1990-06-06"))];
    TwoPatients(Frame(["PatientID", "Name", "DateOfBirth"], [p1, p2]), parse, DateTime(1985, 5, 5, 0, 0, 0));
    IsoExample();
  }

  /** The patients example for any two rows: an identified one born on `d`, then one without an id. */
  lemma TwoPatients(df: Frame, parse: Value -> Option<Timestamp>, d: Timestamp)
    requires |df.rows| == 2 && parse(Stamp(d)) == Some(d)
    requires Get(df.rows[0], "PatientID") == Some(Str("PT001")) && Get(df.rows[0], "DateOfBirth") == Some(Stamp(d))
    requires Get(df.rows[1], "PatientID") == None
    ensures var staged := Converted(Aligned(df, PatientColumns), ["DateOfBirth"], parse);
      var out := DropDuplicates(DropNa(staged.rows, ["PatientID"]), "PatientID");
      |out| == 1 && Get(out[0], "PatientID") == Some(Str("PT001")) && Get(out[0], "DateOfBirth") == Some(Str(Iso(d)))
  {
    var rows := Converted(Aligned(df, PatientColumns), ["DateOfBirth"], parse).rows;
    AlignedConvertedCell(df, PatientColumns, "DateOfBirth", parse, 0, "PatientID");
    AlignedConvertedCell(df, PatientColumns, "DateOfBirth", parse, 0, "DateOfBirth");
    AlignedConvertedCell(df, PatientColumns, "DateOfBirth", parse, 1, "PatientID");
    SecondIdMissing(rows, "PatientID");
  }

  /** Of two rows where only the first has a key, dropna and dedup on the key keep the first. */
  lemma SecondIdMissing(rows: seq<Row>, key: ColName)
    requires |rows| == 2 && Get(rows[0], key).Some? && Get(rows[1], key).None?
    ensures DropDuplicates(DropNa(rows, [key]), key) == [rows[0]]
  {
    var r1, r2 := rows[0], rows[1];
    assert rows == [r1, r2];
    assert Complete(r1, [key]) by {
      forall c | c in [key] ensures Get(r1, c).Some? { assert c == key; }
    }
    assert !Complete(r2, [key]) by {
      assert key in [key];
    }
    assert [r1, r2][1..] == [r2] && [r2][1..] == [] && [r1][1..] == [];
    assert DropNa([r2], [key]) == [];
    assert DropNa(rows, [key]) == [r1];
    assert DedupFrom([r1], key, {}) == [r1];
  }
}
