/** The option dispatch of the dashboard (wetter.py): the pair of radio
    selections (period, temperature) chooses the arguments of
    `plot_period_choose_date`. */
module Dispatch {
  import opened Wrappers
  import opened Frames
  import PeriodIndexing

  /** The options of the two radio buttons. */
  const PeriodLabels: seq<string> := ["Week", "Month", "Year"]
  const TemperatureLabels: seq<string> := ["avg temp", "min temp", "max temp"]

  /** The arguments passed on: the period string and the column `t_param`. */
  datatype Choice = Choice(period: string, tParam: string)

  /** The if/elif chain. A pair no branch matches leaves `fig2` unbound, so the
      dashboard has nothing to draw; that is None here. */
  function ChooseComparison(status: string, statusT: string): (r: Option<Choice>)
    ensures r.Some? ==> r.value.period in ["week", "month", "year"]
    ensures r.Some? ==> r.value.tParam in ["tavg", "tmin", "tmax"]
  {
    if status == "Week" && statusT == "avg temp" then Some(Choice("week", "tavg"))
    else if status == "Week" && statusT == "min temp" then Some(Choice("week", "tmin"))
    else if status == "Week" && statusT == "max temp" then Some(Choice("week", "tmax"))
    else if status == "Month" && statusT == "avg temp" then Some(Choice("month", "tavg"))
    else if status == "Month" && statusT == "min temp" then Some(Choice("month", "tmin"))
    else if status == "Month" && statusT == "max temp" then Some(Choice("month", "tmax"))
    else if status == "Year" && statusT == "avg temp" then Some(Choice("year", "tavg"))
    else if status == "Year" && statusT == "min temp" then Some(Choice("year", "tmin"))
    else if status == "Year" && statusT == "max temp" then Some(Choice("year", "tmax"))
    else None
  }

  /** ASCII lower case of one character, what the period labels need. */
  function LowerChar(c: char): (l: char)
    ensures !('A' <= l <= 'Z')
  {
    if 'A' <= c <= 'Z' then (c as int + 32) as char else c
  }

  /** ASCII lower case, character by character (`str.lower` on the labels). */
  function Lower(s: string): (r: string)
    ensures |r| == |s|
  {
    seq(|s|, i requires 0 <= i < |s| => LowerChar(s[i]))
  }

  /** The meteostat column of a temperature label: "t" followed by the label's
      first word ("avg" -> "tavg", "min" -> "tmin", "max" -> "tmax"). */
  function ColumnOf(option: string): string
    requires |option| >= 3
  {
    "t" + option[..3]
  }

  /** The lower-cased period labels are the period strings `period_index` accepts. */
  lemma LowerPeriodLabels()
    ensures Lower("Week") == "week" && Lower("Month") == "month" && Lower("Year") == "year"
  {
  }

  /** Exactly the nine radio combinations choose a comparison. */
  lemma ChooseComparisonDefined(status: string, statusT: string)
    ensures ChooseComparison(status, statusT).Some? <==> status in PeriodLabels && statusT in TemperatureLabels
  {
  }

  /** For each of them the period is the lower-cased period label ... */
  lemma ChooseComparisonPeriod(status: string, statusT: string)
    requires ChooseComparison(status, statusT).Some?
    ensures ChooseComparison(status, statusT).value.period == Lower(status)
  {
    LowerPeriodLabels();
  }

  /** ... and `t_param` the temperature label's column. */
  lemma ChooseComparisonColumn(status: string, statusT: string)
    requires ChooseComparison(status, statusT).Some?
    ensures ChooseComparison(status, statusT).value.tParam == ColumnOf(statusT)
  {
    assert ColumnOf("avg temp") == "tavg";
    assert ColumnOf("min temp") == "tmin";
    assert ColumnOf("max temp") == "tmax";
  }

  /** Every period the dispatch chooses is one `period_index` accepts, so the
      ValueError is never raised from the dashboard. */
  lemma ChooseComparisonPeriodAccepted(status: string, statusT: string, f: Frame)
    requires ChooseComparison(status, statusT).Some?
    ensures PeriodIndexing.PeriodIndex(f, ChooseComparison(status, statusT).value.period).Success?
  {
  }
}
