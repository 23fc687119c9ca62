/** The two cleaning helpers of myweather.py: `fill_nans` and
    `drop_columns_with_more_than_80_nan`. */
module Cleaning {
  import opened Wrappers
  import opened Frames

  // ---------------------------------------------------------------------
  // fill_nans

  /** The fill values of `nan_dict`. `DataFrame.fillna` with a dict fills
      VALUES, so the three "ffill" entries write the string "ffill" into the
      missing cells of those columns; they do not forward-fill. */
  const NanDict: map<string, Value> := map[
    "prcp" := Num(0),
    "snow" := Num(0),
    "tmin" := Text("ffill"),
    "wspd" := Text("ffill"),
    "pres" := Text("ffill")
  ]

  function FillCell(c: string, v: Cell): Cell {
    if v.None? && c in NanDict then Some(NanDict[c]) else v
  }

  function FillRow(r: Row): Row {
    Row(r.date, map c | c in r.cells :: FillCell(c, r.cells[c]))
  }

  /** `fill_nans`: fill the missing cells of the columns named in NanDict.
      The shape of the table does not change. */
  function FillNans(f: Frame): (g: Frame)
    ensures g.columns == f.columns && |g.rows| == |f.rows|
    ensures forall i :: 0 <= i < |f.rows| ==>
      g.rows[i].date == f.rows[i].date && g.rows[i].cells.Keys == f.rows[i].cells.Keys
    ensures WellFormed(f) ==> WellFormed(g)
  {
    Frame(f.columns, seq(|f.rows|, i requires 0 <= i < |f.rows| => FillRow(f.rows[i])))
  }

  /** A missing `prcp` or `snow` cell becomes 0; a missing `tmin`, `wspd` or
      `pres` cell becomes the string "ffill". */
  lemma FillNansMissingCells(f: Frame, i: int, c: string)
    requires 0 <= i < |f.rows| && c in f.rows[i].cells && f.rows[i].cells[c].None?
    ensures c == "prcp" || c == "snow" ==> FillNans(f).rows[i].cells[c] == Some(Num(0))
    ensures c == "tmin" || c == "wspd" || c == "pres" ==>
      FillNans(f).rows[i].cells[c] == Some(Text("ffill"))
    ensures c !in NanDict ==> FillNans(f).rows[i].cells[c] == None
  {
  }

  /** Present cells, and every cell of a column outside NanDict, are left alone. */
  lemma FillNansKeepsOthers(f: Frame, i: int, c: string)
    requires 0 <= i < |f.rows| && c in f.rows[i].cells
    requires f.rows[i].cells[c].Some? || c !in NanDict
    ensures FillNans(f).rows[i].cells[c] == f.rows[i].cells[c]
  {
  }

  /** After `fill_nans` no column named in NanDict has a missing cell. */
  lemma FillNansNoMissing(f: Frame)
    ensures forall i, c :: 0 <= i < |f.rows| && c in NanDict && c in f.rows[i].cells ==>
      FillNans(f).rows[i].cells[c].Some?
  {
  }

  /** Filling twice is filling once. */
  lemma FillNansIdempotent(f: Frame)
    ensures FillNans(FillNans(f)) == FillNans(f)
  {
    var g := FillNans(f);
    forall i | 0 <= i < |g.rows|
      ensures FillRow(g.rows[i]) == g.rows[i]
    {
      assert FillRow(g.rows[i]).cells == g.rows[i].cells;
    }
    assert FillNans(g).rows == g.rows;
  }

  // ---------------------------------------------------------------------
  // drop_columns_with_more_than_80_nan

  /** The number of rows whose cell in column c is missing (`isnull().sum()`). */
  function MissingCount(rows: seq<Row>, c: string): (n: nat)
    ensures n <= |rows|
  {
    if rows == [] then 0
    else (if IsMissing(rows[0], c) then 1 else 0) + MissingCount(rows[1..], c)
  }

  /** Column c goes when its missing fraction is at least 0.8. With no rows the
      fraction is 0/0, which is NaN, and NaN >= 0.8 is false. */
  predicate Dropped(rows: seq<Row>, c: string) {
    |rows| > 0 && 5 * MissingCount(rows, c) >= 4 * |rows|
  }

  /** The integer test is the source's test: for a non-empty table,
      5 * missing >= 4 * rows exactly when missing / rows >= 0.8. */
  lemma DroppedIsFractionTest(rows: seq<Row>, c: string)
    requires |rows| > 0
    ensures Dropped(rows, c) <==> (MissingCount(rows, c) as real) / (|rows| as real) >= 0.8
  {
    FractionTest(MissingCount(rows, c) as real, |rows| as real);
  }

  lemma FractionTest(m: real, n: real)
    requires n > 0.0
    ensures 5.0 * m >= 4.0 * n <==> m / n >= 0.8
  {
    var q := m / n;
    assert q * n == m;
    if q < 0.8 {
      ScaleStrict(q, 0.8, n);
    } else {
      ScaleWeak(0.8, q, n);
    }
  }

  lemma ScaleStrict(a: real, b: real, n: real)
    requires a < b && n > 0.0
    ensures a * n < b * n
  {
  }

  lemma ScaleWeak(a: real, b: real, n: real)
    requires a <= b && n > 0.0
    ensures a * n <= b * n
  {
  }

  /** The columns that are kept, in their original order. */
  function KeptColumns(columns: seq<string>, rows: seq<Row>): (kept: seq<string>)
    ensures forall c :: c in kept <==> c in columns && !Dropped(rows, c)
    ensures |kept| <= |columns|
  {
    if columns == [] then []
    else (if Dropped(rows, columns[0]) then [] else [columns[0]]) + KeptColumns(columns[1..], rows)
  }

  /** `drop_columns_with_more_than_80_nan`: remove the columns at or over 80% missing. */
  function DropColumns(f: Frame): (g: Frame)
    ensures g.columns == KeptColumns(f.columns, f.rows)
    ensures forall c :: c in g.columns <==> c in f.columns && !Dropped(f.rows, c)
    ensures |g.rows| == |f.rows|
    ensures forall i :: 0 <= i < |f.rows| ==> g.rows[i].date == f.rows[i].date
    ensures forall i, c :: 0 <= i < |f.rows| && c in g.rows[i].cells ==>
      c in f.rows[i].cells && g.rows[i].cells[c] == f.rows[i].cells[c]
    ensures WellFormed(f) ==> forall i :: 0 <= i < |f.rows| ==> g.rows[i].cells.Keys == ColumnSet(g.columns)
  {
    var kept := KeptColumns(f.columns, f.rows);
    Frame(kept, seq(|f.rows|, i requires 0 <= i < |f.rows| =>
      Row(f.rows[i].date, map c | c in f.rows[i].cells && c in kept :: f.rows[i].cells[c])))
  }

  /** Column selection distributes over the column list, so the kept columns
      keep their relative order. */
  lemma {:induction false} KeptColumnsAppend(a: seq<string>, b: seq<string>, rows: seq<Row>)
    ensures KeptColumns(a + b, rows) == KeptColumns(a, rows) + KeptColumns(b, rows)
  {
    if a == [] {
      assert a + b == b;
    } else {
      assert (a + b)[1..] == a[1..] + b;
      KeptColumnsAppend(a[1..], b, rows);
    }
  }

  /** Distinct column names stay distinct. */
  lemma {:induction false} KeptColumnsDistinct(columns: seq<string>, rows: seq<Row>)
    requires Distinct(columns)
    ensures Distinct(KeptColumns(columns, rows))
  {
    if columns != [] {
      KeptColumnsDistinct(columns[1..], rows);
      var rest := KeptColumns(columns[1..], rows);
      assert columns[0] !in columns[1..] by {
        forall j | 0 <= j < |columns[1..]| ensures columns[1..][j] != columns[0] {
          assert columns[1..][j] == columns[j + 1];
        }
      }
      assert columns[0] !in rest;
      var kept := KeptColumns(columns, rows);
      if !Dropped(rows, columns[0]) {
        assert kept == [columns[0]] + rest;
        forall i, j | 0 <= i < j < |kept| ensures kept[i] != kept[j] {
          assert kept[j] == rest[j - 1];
          if i > 0 {
            assert kept[i] == rest[i - 1];
            assert 0 <= i - 1 < j - 1 < |rest|;
            assert rest[i - 1] != rest[j - 1];
          } else {
            assert kept[i] == columns[0];
            assert rest[j - 1] in rest;
          }
        }
      }
    }
  }

  /** Dropping columns keeps the table well formed. */
  lemma DropColumnsWellFormed(f: Frame)
    requires WellFormed(f)
    ensures WellFormed(DropColumns(f))
  {
    KeptColumnsDistinct(f.columns, f.rows);
  }

  /** A column exactly 80% missing is dropped; one below 80% is kept. */
  lemma DropBoundary(f: Frame, c: string)
    requires c in f.columns && |f.rows| > 0
    ensures 5 * MissingCount(f.rows, c) == 4 * |f.rows| ==> c !in DropColumns(f).columns
    ensures 5 * MissingCount(f.rows, c) < 4 * |f.rows| ==> c in DropColumns(f).columns
  {
  }

  /** With no rows nothing is dropped (the 0/0 fraction is NaN). */
  lemma {:induction false} KeptColumnsNoRows(columns: seq<string>)
    ensures KeptColumns(columns, []) == columns
  {
    if columns != [] {
      KeptColumnsNoRows(columns[1..]);
    }
  }

  lemma DropColumnsNoRows(f: Frame)
    requires f.rows == []
    ensures DropColumns(f) == f
  {
    KeptColumnsNoRows(f.columns);
  }

  /** A column missing in every row of a non-empty table is dropped. */
  lemma {:induction false} AllMissingCount(rows: seq<Row>, c: string)
    requires forall i :: 0 <= i < |rows| ==> IsMissing(rows[i], c)
    ensures MissingCount(rows, c) == |rows|
  {
    if rows != [] {
      AllMissingCount(rows[1..], c);
    }
  }

  lemma DropAllMissing(f: Frame, c: string)
    requires |f.rows| > 0
    requires forall i :: 0 <= i < |f.rows| ==> IsMissing(f.rows[i], c)
    ensures c !in DropColumns(f).columns
  {
    AllMissingCount(f.rows, c);
  }

  /** A column with no missing cell is never dropped. */
  lemma {:induction false} NoneMissingCount(rows: seq<Row>, c: string)
    requires forall i :: 0 <= i < |rows| ==> !IsMissing(rows[i], c)
    ensures MissingCount(rows, c) == 0
  {
    if rows != [] {
      NoneMissingCount(rows[1..], c);
    }
  }

  lemma DropKeepsComplete(f: Frame, c: string)
    requires c in f.columns
    requires forall i :: 0 <= i < |f.rows| ==> !IsMissing(f.rows[i], c)
    ensures c in DropColumns(f).columns
  {
    NoneMissingCount(f.rows, c);
  }
}
