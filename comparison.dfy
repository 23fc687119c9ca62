/** The comparison plots `plot_period` and `plot_period_choose_date`: the
    period-indexed frame is split into one series per bucket, visited in the
    order of `df.index.levels[0]`, each holding that bucket's `period_xaxis`
    values and one chosen column. Only the grouping is modelled; the Plotly
    traces become plain series. */
module Comparison {
  import opened Wrappers
  import opened Frames
  import opened PeriodIndexing

  predicate StrictlyIncreasing(s: seq<int>) {
    forall i, j :: 0 <= i < j < |s| ==> s[i] < s[j]
  }

  /** The buckets that occur in the rows. */
  function Buckets(rows: seq<IndexedRow>): set<int> {
    set i | 0 <= i < |rows| :: rows[i].period
  }

  /** Insert x into a strictly increasing sequence, keeping it so. */
  function InsertSorted(s: seq<int>, x: int): (r: seq<int>)
    requires StrictlyIncreasing(s)
    ensures StrictlyIncreasing(r)
    ensures forall b :: b in r <==> b in s || b == x
  {
    if s == [] then [x]
    else if x < s[0] then [x] + s
    else if x == s[0] then s
    else
      var t := InsertSorted(s[1..], x);
      assert forall j :: 0 <= j < |t| ==> s[0] < t[j] by {
        forall j | 0 <= j < |t| ensures s[0] < t[j] {
          assert t[j] in t;
          if t[j] != x {
            var m :| 0 <= m < |s[1..]| && s[1..][m] == t[j];
            assert s[1..][m] == s[m + 1];
          }
        }
      }
      [s[0]] + t
  }

  /** `df.index.levels[0]`: the distinct buckets of the rows, ascending, as
      pandas keeps the levels of a MultiIndex sorted. */
  function Levels(rows: seq<IndexedRow>): (levels: seq<int>)
    ensures StrictlyIncreasing(levels)
    ensures forall b :: b in levels <==> b in Buckets(rows)
  {
    if rows == [] then []
    else
      var init := rows[..|rows| - 1];
      assert forall i :: 0 <= i < |init| ==> init[i] == rows[i];
      InsertSorted(Levels(init), rows[|rows| - 1].period)
  }

  /** `df.loc[b]`: the rows of bucket b, in their original order. */
  function Select(rows: seq<IndexedRow>, b: int): (r: seq<IndexedRow>)
    ensures |r| <= |rows|
  {
    if rows == [] then []
    else (if rows[0].period == b then [rows[0]] else []) + Select(rows[1..], b)
  }

  /** One point of a trace: the `period_xaxis` value and the chosen column's cell. */
  datatype Point = Point(x: Axis, y: Cell)

  /** One trace: its name (`str(index)`, kept as the bucket number) and its points. */
  datatype Series = Series(bucket: int, points: seq<Point>)

  /** `period_data['period_xaxis']` paired with `period_data[t_param]`. */
  function PointsOf(rows: seq<IndexedRow>, tParam: string): (pts: seq<Point>)
    ensures |pts| == |rows|
  {
    seq(|rows|, i requires 0 <= i < |rows| => Point(rows[i].axis, CellAt(rows[i].cells, tParam)))
  }

  function SeriesOf(ix: IndexedFrame, b: int, tParam: string): Series {
    Series(b, PointsOf(Select(ix.rows, b), tParam))
  }

  /** The series the loop of `plot_period_choose_date` adds to the figure, one
      per level. The first `period_data[t_param]` raises `KeyError` if the
      column does not exist; with no rows the loop never runs and nothing is raised. */
  function GroupSeries(ix: IndexedFrame, tParam: string): Result<seq<Series>, Error> {
    var levels := Levels(ix.rows);
    if |levels| > 0 && tParam !in ix.columns then Failure(KeyError(tParam))
    else Success(seq(|levels|, k requires 0 <= k < |levels| => SeriesOf(ix, levels[k], tParam)))
  }

  /** What `plot_period_choose_date(df, period, t_param)` draws. */
  function ComparisonSeries(f: Frame, period: string, tParam: string): Result<seq<Series>, Error> {
    match PeriodIndex(f, period)
    case Failure(e) => Failure(e)
    case Success(ix) => GroupSeries(ix, tParam)
  }

  /** `plot_period_choose_date`: index the frame by period, then add one trace
      per level of the bucket index. */
  method PlotPeriodChooseDate(f: Frame, period: string := "week", tParam: string := "tavg")
    returns (r: Result<seq<Series>, Error>)
    ensures r == ComparisonSeries(f, period, tParam)
  {
    var indexed := PeriodIndex(f, period);
    if indexed.Failure? {
      return Failure(indexed.error);
    }
    var ix := indexed.value;
    var levels := Levels(ix.rows);
    var traces: seq<Series> := [];
    var k := 0;
    while k < |levels|
      invariant 0 <= k <= |levels|
      invariant k > 0 ==> tParam in ix.columns
      invariant |traces| == k
      invariant forall j :: 0 <= j < k ==> traces[j] == SeriesOf(ix, levels[j], tParam)
    {
      var periodData := Select(ix.rows, levels[k]);
      if tParam !in ix.columns {
        return Failure(KeyError(tParam));
      }
      traces := traces + [Series(levels[k], PointsOf(periodData, tParam))];
      k := k + 1;
    }
    assert traces == seq(|levels|, j requires 0 <= j < |levels| => SeriesOf(ix, levels[j], tParam));
    return Success(traces);
  }

  /** `plot_period`: the same grouping with the mean temperature `tavg`. */
  method PlotPeriod(f: Frame, period: string := "week") returns (r: Result<seq<Series>, Error>)
    ensures r == ComparisonSeries(f, period, "tavg")
  {
    r := PlotPeriodChooseDate(f, period, "tavg");
  }

  // ---------------------------------------------------------------------
  // Lemmas about Select and Levels

  /** A row is selected for bucket b exactly when it is a row of bucket b. */
  lemma {:induction false} SelectMembers(rows: seq<IndexedRow>, b: int)
    ensures forall x :: x in Select(rows, b) <==> x in rows && x.period == b
  {
    if rows != [] {
      SelectMembers(rows[1..], b);
      assert forall x :: x in rows <==> x == rows[0] || x in rows[1..];
    }
  }

  /** Selection distributes over concatenation, so each bucket keeps the input order. */
  lemma {:induction false} SelectAppend(a: seq<IndexedRow>, c: seq<IndexedRow>, b: int)
    ensures Select(a + c, b) == Select(a, b) + Select(c, b)
  {
    if a == [] {
      assert a + c == c;
    } else {
      var ac := a + c;
      assert ac[0] == a[0];
      assert ac[1..] == a[1..] + c;
      SelectAppend(a[1..], c, b);
      var head := if a[0].period == b then [a[0]] else [];
      assert Select(ac, b) == head + Select(a[1..] + c, b);
      assert Select(a, b) == head + Select(a[1..], b);
    }
  }

  /** The rows of the buckets in `levels`, one bucket after the other. */
  function Concat(rows: seq<IndexedRow>, levels: seq<int>): seq<IndexedRow> {
    if levels == [] then [] else Select(rows, levels[0]) + Concat(rows, levels[1..])
  }

  lemma {:induction false} ConcatNoRows(levels: seq<int>)
    ensures Concat([], levels) == []
  {
    if levels != [] {
      ConcatNoRows(levels[1..]);
    }
  }

  /** How many times x occurs among the singleton selections of one row. */
  lemma {:induction false} ConcatOfOne(x: IndexedRow, levels: seq<int>)
    requires StrictlyIncreasing(levels)
    ensures multiset(Concat([x], levels)) == if x.period in levels then multiset{x} else multiset{}
  {
    if levels != [] {
      ConcatOfOne(x, levels[1..]);
      assert Select([x], levels[0]) == (if x.period == levels[0] then [x] else []);
      if x.period == levels[0] {
        assert x.period !in levels[1..];
      }
    }
  }

  lemma {:induction false} ConcatCons(x: IndexedRow, rest: seq<IndexedRow>, levels: seq<int>)
    ensures multiset(Concat([x] + rest, levels)) == multiset(Concat([x], levels)) + multiset(Concat(rest, levels))
  {
    if levels != [] {
      ConcatCons(x, rest, levels[1..]);
      SelectAppend([x], rest, levels[0]);
    }
  }

  /** The buckets in `levels` partition the rows when they cover every row's bucket. */
  lemma {:induction false} ConcatPartition(rows: seq<IndexedRow>, levels: seq<int>)
    requires StrictlyIncreasing(levels)
    requires forall i :: 0 <= i < |rows| ==> rows[i].period in levels
    ensures multiset(Concat(rows, levels)) == multiset(rows)
  {
    if rows != [] {
      var x, rest := rows[0], rows[1..];
      assert rows == [x] + rest;
      assert x.period in levels;
      ConcatPartition(rest, levels);
      ConcatCons(x, rest, levels);
      ConcatOfOne(x, levels);
      assert multiset(Concat(rows, levels)) == multiset{x} + multiset(rest);
      assert multiset(rows) == multiset{x} + multiset(rest);
    } else {
      ConcatNoRows(levels);
    }
  }

  /** A strictly increasing sequence has as many elements as distinct values. */
  lemma {:induction false} StrictlyIncreasingCard(s: seq<int>)
    requires StrictlyIncreasing(s)
    ensures |set b | b in s| == |s|
  {
    if s != [] {
      StrictlyIncreasingCard(s[1..]);
      assert (set b | b in s) == {s[0]} + (set b | b in s[1..]);
      assert s[0] !in s[1..];
    }
  }

  // ---------------------------------------------------------------------
  // What the comparison grouping promises

  /** One series per distinct bucket, in ascending bucket order, and exactly
      the buckets that occur. */
  lemma GroupSeriesBuckets(ix: IndexedFrame, tParam: string)
    requires GroupSeries(ix, tParam).Success?
    ensures var s := GroupSeries(ix, tParam).value;
      && |s| == |Buckets(ix.rows)|
      && (forall i, j :: 0 <= i < j < |s| ==> s[i].bucket < s[j].bucket)
      && (forall b :: b in Buckets(ix.rows) <==> exists k :: 0 <= k < |s| && s[k].bucket == b)
  {
    var levels := Levels(ix.rows);
    var s := GroupSeries(ix, tParam).value;
    StrictlyIncreasingCard(levels);
    assert (set b | b in levels) == Buckets(ix.rows);
    forall b | b in Buckets(ix.rows) ensures exists k :: 0 <= k < |s| && s[k].bucket == b {
      var k :| 0 <= k < |levels| && levels[k] == b;
      assert s[k].bucket == b;
    }
  }

  /** Each series holds exactly its bucket's rows, in input order, paired as
      (`period_xaxis`, `t_param` cell). */
  lemma GroupSeriesContents(ix: IndexedFrame, tParam: string, k: int)
    requires GroupSeries(ix, tParam).Success?
    requires 0 <= k < |GroupSeries(ix, tParam).value|
    ensures var s := GroupSeries(ix, tParam).value[k];
      && s.points == PointsOf(Select(ix.rows, s.bucket), tParam)
      && (forall x :: x in Select(ix.rows, s.bucket) <==> x in ix.rows && x.period == s.bucket)
  {
    SelectMembers(ix.rows, GroupSeries(ix, tParam).value[k].bucket);
  }

  /** Together the series partition the rows: every row is in exactly one of
      them, and the series hold as many points as the frame has rows. */
  lemma GroupSeriesPartition(ix: IndexedFrame, tParam: string)
    requires GroupSeries(ix, tParam).Success?
    ensures var levels := Levels(ix.rows);
      && multiset(Concat(ix.rows, levels)) == multiset(ix.rows)
      && |Concat(ix.rows, levels)| == |ix.rows|
  {
    var levels := Levels(ix.rows);
    assert forall i :: 0 <= i < |ix.rows| ==> ix.rows[i].period in Buckets(ix.rows);
    ConcatPartition(ix.rows, levels);
    assert |multiset(Concat(ix.rows, levels))| == |Concat(ix.rows, levels)|;
  }

  /** The row at index i lies in the series of its own bucket and in no other. */
  lemma RowInExactlyOneSeries(ix: IndexedFrame, tParam: string, i: int)
    requires GroupSeries(ix, tParam).Success?
    requires 0 <= i < |ix.rows|
    ensures var s := GroupSeries(ix, tParam).value;
      forall k :: 0 <= k < |s| ==>
        (ix.rows[i] in Select(ix.rows, s[k].bucket) <==> s[k].bucket == ix.rows[i].period)
    ensures var s := GroupSeries(ix, tParam).value;
      exists k :: 0 <= k < |s| && s[k].bucket == ix.rows[i].period
  {
    var s := GroupSeries(ix, tParam).value;
    forall k | 0 <= k < |s| ensures
      ix.rows[i] in Select(ix.rows, s[k].bucket) <==> s[k].bucket == ix.rows[i].period
    {
      SelectMembers(ix.rows, s[k].bucket);
    }
    GroupSeriesBuckets(ix, tParam);
    assert ix.rows[i].period in Buckets(ix.rows);
  }

  /** The only failure of the grouping is the KeyError of a missing column on a
      non-empty frame. */
  lemma GroupSeriesKeyError(ix: IndexedFrame, tParam: string)
    ensures GroupSeries(ix, tParam).Failure? <==> |ix.rows| > 0 && tParam !in ix.columns
    ensures GroupSeries(ix, tParam).Failure? ==> GroupSeries(ix, tParam).error == KeyError(tParam)
  {
    if |ix.rows| > 0 {
      assert ix.rows[0].period in Buckets(ix.rows);
    }
  }

  /** The errors of `plot_period_choose_date`: the ValueError of an unknown
      period, else the KeyError of a missing column on a non-empty frame. */
  lemma ComparisonSeriesErrors(f: Frame, period: string, tParam: string)
    ensures ComparisonSeries(f, period, tParam) == Failure(ValueError("Wrong period format"))
      <==> period != "year" && period != "month" && period != "week"
    ensures ComparisonSeries(f, period, tParam) == Failure(KeyError(tParam))
      <==> (period == "year" || period == "month" || period == "week") && |f.rows| > 0 && tParam !in f.columns
  {
    if PeriodIndex(f, period).Success? {
      GroupSeriesKeyError(PeriodIndex(f, period).value, tParam);
    }
  }

  /** A strictly increasing sequence inside [lo, hi] has at most hi - lo + 1 elements. */
  lemma {:induction false} StrictlyIncreasingSpan(s: seq<int>, lo: int, hi: int)
    requires StrictlyIncreasing(s)
    requires lo <= hi + 1
    requires forall i :: 0 <= i < |s| ==> lo <= s[i] <= hi
    ensures |s| <= hi - lo + 1
  {
    if s != [] {
      assert forall i :: 0 <= i < |s[1..]| ==> s[1..][i] == s[i + 1] && s[0] < s[i + 1];
      StrictlyIncreasingSpan(s[1..], s[0] + 1, hi);
    }
  }

  /** A month comparison draws at most 12 series, a week comparison at most 53. */
  lemma ComparisonSeriesCount(f: Frame, period: string, tParam: string)
    requires ComparisonSeries(f, period, tParam).Success?
    ensures period == "month" ==> |ComparisonSeries(f, period, tParam).value| <= 12
    ensures period == "week" ==> |ComparisonSeries(f, period, tParam).value| <= 53
  {
    var ix := PeriodIndex(f, period).value;
    var levels := Levels(ix.rows);
    var p := ParsePeriod(period).value;
    forall i | 0 <= i < |levels| ensures (p == Month ==> 1 <= levels[i] <= 12) && (p == Week ==> 1 <= levels[i] <= 53) {
      assert levels[i] in Buckets(ix.rows);
      var j :| 0 <= j < |ix.rows| && ix.rows[j].period == levels[i];
      assert ix.rows[j] == IndexRow(p, f.rows[j]);
    }
    if p == Month {
      StrictlyIncreasingSpan(levels, 1, 12);
    } else if p == Week {
      StrictlyIncreasingSpan(levels, 1, 53);
    }
  }
}
