/** `filter_for_date(df, start_date, end_date)`: the rows whose index date
    lies between the two dates, both ends included (`Series.between`). */
module DateFilter {
  import opened Calendar
  import opened Frames

  predicate InRange(d: Date, start: Date, end: Date) {
    LessEq(start, d) && LessEq(d, end)
  }

  function FilterRows(rows: seq<Row>, start: Date, end: Date): (r: seq<Row>)
    ensures |r| <= |rows|
  {
    if rows == [] then []
    else (if InRange(rows[0].date, start, end) then [rows[0]] else []) + FilterRows(rows[1..], start, end)
  }

  /** `filter_for_date`: the columns stay, the rows are filtered. */
  function FilterForDate(f: Frame, start: Date, end: Date): (g: Frame)
    ensures g.columns == f.columns
    ensures WellFormed(f) ==> WellFormed(g)
  {
    FilterRowsMembers(f.rows, start, end);
    Frame(f.columns, FilterRows(f.rows, start, end))
  }

  /** Exactly the rows with start <= date <= end are kept. */
  lemma {:induction false} FilterRowsMembers(rows: seq<Row>, start: Date, end: Date)
    ensures forall x :: x in FilterRows(rows, start, end) <==> x in rows && InRange(x.date, start, end)
  {
    if rows != [] {
      FilterRowsMembers(rows[1..], start, end);
      assert forall x :: x in rows <==> x == rows[0] || x in rows[1..];
    }
  }

  /** Filtering distributes over concatenation, so the kept rows keep their order. */
  lemma {:induction false} FilterRowsAppend(a: seq<Row>, b: seq<Row>, start: Date, end: Date)
    ensures FilterRows(a + b, start, end) == FilterRows(a, start, end) + FilterRows(b, start, end)
  {
    if a == [] {
      assert a + b == b;
    } else {
      var ab := a + b;
      assert ab[0] == a[0];
      assert ab[1..] == a[1..] + b;
      FilterRowsAppend(a[1..], b, start, end);
      var head := if InRange(a[0].date, start, end) then [a[0]] else [];
      assert FilterRows(ab, start, end) == head + FilterRows(a[1..] + b, start, end);
      assert FilterRows(a, start, end) == head + FilterRows(a[1..], start, end);
    }
  }

  /** The range test is the order of day numbers: start <= date <= end as ordinals. */
  lemma InRangeByOrdinal(d: Date, start: Date, end: Date)
    ensures InRange(d, start, end) <==> Ordinal(start) <= Ordinal(d) <= Ordinal(end)
  {
    OrdinalOrder(start, d);
    OrdinalOrder(d, end);
  }

  /** What `filter_for_date` promises: the rows in range, in their original
      order; a table wholly inside the range comes back unchanged, and
      filtering again changes nothing. */
  lemma FilterForDateKeepsExactly(f: Frame, start: Date, end: Date)
    ensures forall x :: x in FilterForDate(f, start, end).rows <==> x in f.rows && InRange(x.date, start, end)
  {
    FilterRowsMembers(f.rows, start, end);
  }

  lemma {:induction false} FilterRowsAllInRange(rows: seq<Row>, start: Date, end: Date)
    requires forall i :: 0 <= i < |rows| ==> InRange(rows[i].date, start, end)
    ensures FilterRows(rows, start, end) == rows
  {
    if rows != [] {
      FilterRowsAllInRange(rows[1..], start, end);
    }
  }

  lemma FilterForDateIdempotent(f: Frame, start: Date, end: Date)
    ensures FilterForDate(FilterForDate(f, start, end), start, end) == FilterForDate(f, start, end)
  {
    var kept := FilterRows(f.rows, start, end);
    FilterRowsMembers(f.rows, start, end);
    assert forall i :: 0 <= i < |kept| ==> kept[i] in kept;
    FilterRowsAllInRange(kept, start, end);
  }

  /** An empty range (start after end) keeps no row. */
  lemma {:induction false} FilterRowsEmptyRange(rows: seq<Row>, start: Date, end: Date)
    requires !LessEq(start, end)
    ensures FilterRows(rows, start, end) == []
  {
    if rows != [] {
      OrdinalOrder(start, rows[0].date);
      OrdinalOrder(rows[0].date, end);
      OrdinalOrder(start, end);
      FilterRowsEmptyRange(rows[1..], start, end);
    }
  }
}
