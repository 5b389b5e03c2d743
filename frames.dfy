/**
 * The part of a pandas DataFrame that the cleaning stage relies on: an
 * ordered list of column names and a sequence of rows, each row mapping every
 * column to a cell that is either null or a value. The whole-table
 * operations used by src/transform.py are defined here as functions:
 * adding a null column, selecting columns, `dropna(subset=...)`, the
 * `isna()` mask, and `drop_duplicates(subset=[key])` with pandas' default
 * `keep='first'`.
 */
module Frames {

  import opened Options
  import opened Dates

  /** A cell value. Numbers are opaque; a timestamp is what the spreadsheet reader yields for a date cell. */
  datatype Value = Str(s: string) | Num(x: real) | Stamp(t: Timestamp)

  type ColName = string

  /** `None` is pandas' null (None / NaN / NaT). */
  type Cell = Option<Value>

  type Row = map<ColName, Cell>

  datatype Frame = Frame(columns: seq<ColName>, rows: seq<Row>)

  /** Every row has a cell for exactly the frame's columns. */
  predicate WellFormed(f: Frame) {
    forall i :: 0 <= i < |f.rows| ==> f.rows[i].Keys == set c | c in f.columns
  }

  /** `row.get(c)`: the cell, or null when the row has no such column. */
  function Get(row: Row, c: ColName): Cell {
    if c in row then row[c] else None
  }

  /** `df[c] = None` for a column the frame does not have: appended, null in every row. */
  function WithNullColumn(f: Frame, c: ColName): (r: Frame)
    requires WellFormed(f) && c !in f.columns
    ensures WellFormed(r) && r.columns == f.columns + [c] && |r.rows| == |f.rows|
    ensures forall i :: 0 <= i < |r.rows| ==> r.rows[i] == f.rows[i][c := None]
  {
    var r := Frame(f.columns + [c], seq(|f.rows|, i requires 0 <= i < |f.rows| => f.rows[i][c := None]));
    assert (set x | x in r.columns) == (set x | x in f.columns) + {c};
    r
  }

  /** `df[cols]`: the listed columns, in the listed order; every one must exist. */
  function Select(f: Frame, cols: seq<ColName>): (r: Frame)
    requires WellFormed(f) && forall c :: c in cols ==> c in f.columns
    ensures WellFormed(r) && r.columns == cols && |r.rows| == |f.rows|
    ensures forall i, c :: 0 <= i < |r.rows| && c in cols ==> r.rows[i][c] == f.rows[i][c]
  {
    Frame(cols, seq(|f.rows|, i requires 0 <= i < |f.rows| => map c | c in cols :: f.rows[i][c]))
  }

  /** No cell of `subset` is null in `row`. */
  predicate Complete(row: Row, subset: seq<ColName>) {
    forall c :: c in subset ==> Get(row, c).Some?
  }

  /** `df.dropna(subset=subset)`: the rows with no null in `subset`, in order. */
  function DropNa(rows: seq<Row>, subset: seq<ColName>): seq<Row> {
    if rows == [] then []
    else if Complete(rows[0], subset) then [rows[0]] + DropNa(rows[1..], subset)
    else DropNa(rows[1..], subset)
  }

  /** `df[df[c1].isna() | df[c2].isna() | ...]`: the rows with a null in `subset`, in order. */
  function WithMissing(rows: seq<Row>, subset: seq<ColName>): seq<Row> {
    if rows == [] then []
    else if !Complete(rows[0], subset) then [rows[0]] + WithMissing(rows[1..], subset)
    else WithMissing(rows[1..], subset)
  }

  /** The key cells occurring in `rows` (null counts as one key, as in pandas). */
  function KeysOf(rows: seq<Row>, key: ColName): set<Cell> {
    if rows == [] then {} else {Get(rows[0], key)} + KeysOf(rows[1..], key)
  }

  /** The first row carrying key cell `k`. */
  function FirstWithKey(rows: seq<Row>, key: ColName, k: Cell): Row
    requires k in KeysOf(rows, key)
  {
    if Get(rows[0], key) == k then rows[0] else FirstWithKey(rows[1..], key, k)
  }

  /** No two rows share a key cell. */
  predicate DistinctKeys(rows: seq<Row>, key: ColName) {
    forall i, j :: 0 <= i < j < |rows| ==> Get(rows[i], key) != Get(rows[j], key)
  }

  /** `a` is `b` with some elements left out, order kept. */
  predicate Subsequence<T(==)>(a: seq<T>, b: seq<T>)
    decreases |b|
  {
    if a == [] then true
    else if b == [] then false
    else (a[0] == b[0] && Subsequence(a[1..], b[1..])) || Subsequence(a, b[1..])
  }

  /** Keep-first deduplication, scanning left to right with the keys already kept in `seen`. */
  function DedupFrom(rows: seq<Row>, key: ColName, seen: set<Cell>): seq<Row> {
    if rows == [] then []
    else if Get(rows[0], key) in seen then DedupFrom(rows[1..], key, seen)
    else [rows[0]] + DedupFrom(rows[1..], key, seen + {Get(rows[0], key)})
  }

  /** `df.drop_duplicates(subset=[key])` with the default `keep='first'`. */
  function DropDuplicates(rows: seq<Row>, key: ColName): seq<Row> {
    DedupFrom(rows, key, {})
  }

  // ---------------------------------------------------------------- lemmas

  lemma {:induction false} SubsequenceMembers<T>(a: seq<T>, b: seq<T>)
    requires Subsequence(a, b)
    ensures forall x :: x in a ==> x in b
    decreases |b|
  {
    if a != [] {
      if a[0] == b[0] && Subsequence(a[1..], b[1..]) {
        SubsequenceMembers(a[1..], b[1..]);
        assert a == [a[0]] + a[1..] && b == [b[0]] + b[1..];
      } else {
        SubsequenceMembers(a, b[1..]);
      }
    }
  }

  /** A subsequence of a subsequence is a subsequence. */
  lemma {:induction false} SubsequenceTrans<T>(a: seq<T>, b: seq<T>, c: seq<T>)
    requires Subsequence(a, b) && Subsequence(b, c)
    ensures Subsequence(a, c)
    decreases |c|
  {
    if a != [] {
      if b[0] == c[0] && Subsequence(b[1..], c[1..]) {
        if a[0] == b[0] && Subsequence(a[1..], b[1..]) {
          SubsequenceTrans(a[1..], b[1..], c[1..]);
        } else {
          SubsequenceTrans(a, b[1..], c[1..]);
        }
      } else {
        SubsequenceTrans(a, b, c[1..]);
      }
    }
  }

  /** `dropna` keeps exactly the complete rows, in order. */
  lemma {:induction false} DropNaSpec(rows: seq<Row>, subset: seq<ColName>)
    ensures forall i :: 0 <= i < |DropNa(rows, subset)| ==> Complete(DropNa(rows, subset)[i], subset)
    ensures Subsequence(DropNa(rows, subset), rows)
    ensures (forall i :: 0 <= i < |rows| ==> Complete(rows[i], subset)) ==> DropNa(rows, subset) == rows
  {
    if rows != [] {
      DropNaSpec(rows[1..], subset);
      var tail := DropNa(rows[1..], subset);
      if Complete(rows[0], subset) {
        assert DropNa(rows, subset)[1..] == tail;
      } else {
        assert Subsequence(tail, rows[1..]);
        if tail != [] {
          assert Subsequence(tail, rows);
        }
      }
    }
  }

  /** The `isna()` mask picks exactly the incomplete rows, in order. */
  lemma {:induction false} WithMissingSpec(rows: seq<Row>, subset: seq<ColName>)
    ensures forall i :: 0 <= i < |WithMissing(rows, subset)| ==> !Complete(WithMissing(rows, subset)[i], subset)
    ensures Subsequence(WithMissing(rows, subset), rows)
  {
    if rows != [] {
      WithMissingSpec(rows[1..], subset);
      var tail := WithMissing(rows[1..], subset);
      if !Complete(rows[0], subset) {
        assert WithMissing(rows, subset)[1..] == tail;
      } else if tail != [] {
        assert Subsequence(tail, rows);
      }
    }
  }

  /** Dropped and kept rows partition the input: nothing is lost or invented. */
  lemma {:induction false} DropNaPartition(rows: seq<Row>, subset: seq<ColName>)
    ensures multiset(DropNa(rows, subset)) + multiset(WithMissing(rows, subset)) == multiset(rows)
    ensures |DropNa(rows, subset)| + |WithMissing(rows, subset)| == |rows|
  {
    if rows != [] {
      DropNaPartition(rows[1..], subset);
      assert rows == [rows[0]] + rows[1..];
    }
  }

  /** Deduplication never yields a key seen before, and never the same key twice. */
  lemma {:induction false} DedupFromDistinct(rows: seq<Row>, key: ColName, seen: set<Cell>)
    ensures DistinctKeys(DedupFrom(rows, key, seen), key)
    ensures forall i :: 0 <= i < |DedupFrom(rows, key, seen)| ==> Get(DedupFrom(rows, key, seen)[i], key) !in seen
  {
    if rows != [] {
      var k := Get(rows[0], key);
      if k in seen {
        DedupFromDistinct(rows[1..], key, seen);
      } else {
        DedupFromDistinct(rows[1..], key, seen + {k});
        var out := DedupFrom(rows, key, seen);
        assert out[1..] == DedupFrom(rows[1..], key, seen + {k});
        forall i, j | 0 <= i < j < |out| ensures Get(out[i], key) != Get(out[j], key) {
          assert out[j] == out[1..][j - 1];
          if i > 0 {
            assert out[i] == out[1..][i - 1];
          }
        }
        forall i | 0 <= i < |out| ensures Get(out[i], key) !in seen {
          if i > 0 {
            assert out[i] == out[1..][i - 1];
          }
        }
      }
    }
  }

  /** Every key of the input not already seen survives deduplication. */
  lemma {:induction false} DedupFromKeys(rows: seq<Row>, key: ColName, seen: set<Cell>)
    ensures KeysOf(DedupFrom(rows, key, seen), key) == KeysOf(rows, key) - seen
  {
    if rows != [] {
      var k := Get(rows[0], key);
      if k in seen {
        DedupFromKeys(rows[1..], key, seen);
      } else {
        DedupFromKeys(rows[1..], key, seen + {k});
        assert ([rows[0]] + DedupFrom(rows[1..], key, seen + {k}))[1..] == DedupFrom(rows[1..], key, seen + {k});
      }
    }
  }

  /** The row kept for a key is the first input row with that key. */
  lemma {:induction false} DedupFromKeepsFirst(rows: seq<Row>, key: ColName, seen: set<Cell>)
    ensures forall j :: 0 <= j < |DedupFrom(rows, key, seen)| ==>
      Get(DedupFrom(rows, key, seen)[j], key) in KeysOf(rows, key) &&
      DedupFrom(rows, key, seen)[j] == FirstWithKey(rows, key, Get(DedupFrom(rows, key, seen)[j], key))
  {
    if rows != [] {
      var k := Get(rows[0], key);
      var out := DedupFrom(rows, key, seen);
      var seen' := if k in seen then seen else seen + {k};
      var rest := DedupFrom(rows[1..], key, seen');
      DedupFromKeepsFirst(rows[1..], key, seen');
      DedupFromDistinct(rows[1..], key, seen');
      forall j | 0 <= j < |out|
        ensures Get(out[j], key) in KeysOf(rows, key) && out[j] == FirstWithKey(rows, key, Get(out[j], key))
      {
        if k !in seen && j == 0 {
        } else {
          var jr := if k in seen then j else j - 1;
          assert out[j] == rest[jr];
          assert Get(rest[jr], key) !in seen';
        }
      }
    }
  }

  lemma {:induction false} DedupFromSubsequence(rows: seq<Row>, key: ColName, seen: set<Cell>)
    ensures Subsequence(DedupFrom(rows, key, seen), rows)
  {
    if rows != [] {
      var k := Get(rows[0], key);
      if k in seen {
        DedupFromSubsequence(rows[1..], key, seen);
        var tail := DedupFrom(rows[1..], key, seen);
        if tail != [] {
          assert Subsequence(tail, rows);
        }
      } else {
        DedupFromSubsequence(rows[1..], key, seen + {k});
        assert DedupFrom(rows, key, seen)[1..] == DedupFrom(rows[1..], key, seen + {k});
      }
    }
  }

  /**
   * `drop_duplicates(subset=[key])` keeps, in input order, exactly one row per
   * distinct key cell, and that row is the first one carrying the key.
   */
  lemma DropDuplicatesSpec(rows: seq<Row>, key: ColName)
    ensures DistinctKeys(DropDuplicates(rows, key), key)
    ensures KeysOf(DropDuplicates(rows, key), key) == KeysOf(rows, key)
    ensures Subsequence(DropDuplicates(rows, key), rows)
    ensures forall j :: 0 <= j < |DropDuplicates(rows, key)| ==>
      Get(DropDuplicates(rows, key)[j], key) in KeysOf(rows, key) &&
      DropDuplicates(rows, key)[j] == FirstWithKey(rows, key, Get(DropDuplicates(rows, key)[j], key))
  {
    DedupFromDistinct(rows, key, {});
    DedupFromKeys(rows, key, {});
    DedupFromSubsequence(rows, key, {});
    DedupFromKeepsFirst(rows, key, {});
  }

  /** A batch whose keys are already distinct passes through deduplication unchanged. */
  lemma {:induction false} DedupFromDistinctInput(rows: seq<Row>, key: ColName, seen: set<Cell>)
    requires DistinctKeys(rows, key)
    requires forall i :: 0 <= i < |rows| ==> Get(rows[i], key) !in seen
    ensures DedupFrom(rows, key, seen) == rows
  {
    if rows != [] {
      var k := Get(rows[0], key);
      forall i | 0 <= i < |rows[1..]| ensures Get(rows[1..][i], key) !in seen + {k} {
        assert rows[1..][i] == rows[i + 1];
      }
      DedupFromDistinctInput(rows[1..], key, seen + {k});
    }
  }
}
