/**
 * The marksheet risk analyzer (frontend/src/pages/RiskPredictor.jsx): the table of
 * manually entered rows, the rules that turn them into subjects, the performance
 * metrics, the performance label ladder and the JSON array slice of an AI reply.
 *
 * Marks are exact reals. `parseFloat` is the parameter `parse` (None for NaN).
 */
module RiskPredictor {
  import opened Wrappers
  import Text

  // ---------------------------------------------------------------------------
  // Manual entry rows

  /** One row of the manual-entry form; every field is the text typed in. */
  datatype ManualRow = ManualRow(subject: string, obtained: string, total: string, passing: string)

  const BlankRow := ManualRow("", "", "", "")

  datatype RowField = SubjectField | ObtainedField | TotalField | PassingField

  function Get(row: ManualRow, field: RowField): string {
    match field
    case SubjectField => row.subject
    case ObtainedField => row.obtained
    case TotalField => row.total
    case PassingField => row.passing
  }

  /** `{ ...row, [field]: value }` */
  function WithField(row: ManualRow, field: RowField, value: string): (r: ManualRow)
    ensures Get(r, field) == value
    ensures forall f :: f != field ==> Get(r, f) == Get(row, f)
  {
    match field
    case SubjectField => row.(subject := value)
    case ObtainedField => row.(obtained := value)
    case TotalField => row.(total := value)
    case PassingField => row.(passing := value)
  }

  /** A subject with numeric marks. */
  datatype Subject = Subject(subject: string, obtained: real, total: real, passing: real)

  /** `parseFloat(x) || d`: NaN and 0 are falsy and give way to the default. */
  function OrElse(p: Option<real>, d: real): real {
    if p.Some? && p.value != 0.0 then p.value else d
  }

  /** The filter: a non-empty subject name and a numeric obtained mark. */
  predicate Kept(row: ManualRow, parse: string -> Option<real>) {
    row.subject != "" && parse(row.obtained).Some?
  }

  /**
   * The map: a missing or zero total becomes 100; a missing or zero passing mark becomes
   * 40% of the entered total, or 40 when that total is missing or zero too.
   */
  function ToSubject(row: ManualRow, parse: string -> Option<real>): (s: Subject)
    requires Kept(row, parse)
    ensures s.subject == row.subject && s.obtained == parse(row.obtained).value
    ensures s.total != 0.0
    ensures var t := parse(row.total);
      s.total == (if t.Some? && t.value != 0.0 then t.value else 100.0)
    ensures var t, p := parse(row.total), parse(row.passing);
      s.passing == (if p.Some? && p.value != 0.0 then p.value
                    else if t.Some? && t.value != 0.0 then t.value * 0.4
                    else 40.0)
  {
    var total := parse(row.total);
    var passingDefault := if total.Some? && total.value * 0.4 != 0.0 then total.value * 0.4 else 40.0;
    Subject(row.subject, parse(row.obtained).value, OrElse(total, 100.0), OrElse(parse(row.passing), passingDefault))
  }

  /** `subjects.filter(...).map(...)` in `analyzeManualData`. */
  function ManualData(rows: seq<ManualRow>, parse: string -> Option<real>): (data: seq<Subject>)
    ensures |data| <= |rows|
    ensures forall i :: 0 <= i < |data| ==> data[i].subject != "" && data[i].total != 0.0
    ensures forall row :: row in rows && Kept(row, parse) ==> ToSubject(row, parse) in data
  {
    if rows == [] then []
    else
      var rest := ManualData(rows[1..], parse);
      assert forall row :: row in rows ==> row == rows[0] || row in rows[1..];
      if Kept(rows[0], parse) then [ToSubject(rows[0], parse)] + rest else rest
  }

  /** Every subject comes from a row that passed the filter. */
  lemma {:induction false} ManualDataSound(rows: seq<ManualRow>, parse: string -> Option<real>, i: nat)
    requires i < |ManualData(rows, parse)|
    ensures exists row :: row in rows && Kept(row, parse) && ManualData(rows, parse)[i] == ToSubject(row, parse)
  {
    var rest := ManualData(rows[1..], parse);
    if Kept(rows[0], parse) && i == 0 {
      assert ManualData(rows, parse)[0] == ToSubject(rows[0], parse);
    } else {
      var k := if Kept(rows[0], parse) then i - 1 else i;
      assert ManualData(rows, parse)[i] == rest[k];
      ManualDataSound(rows[1..], parse, k);
      var row :| row in rows[1..] && Kept(row, parse) && rest[k] == ToSubject(row, parse);
      assert row in rows;
    }
  }

  /** The kept rows stay in their order: the data of two tables one after the other is the two data one after the other. */
  lemma {:induction false} ManualDataAppend(a: seq<ManualRow>, b: seq<ManualRow>, parse: string -> Option<real>)
    ensures ManualData(a + b, parse) == ManualData(a, parse) + ManualData(b, parse)
  {
    if a == [] {
      assert a + b == b;
    } else {
      assert (a + b)[0] == a[0];
      assert (a + b)[1..] == a[1..] + b;
      ManualDataAppend(a[1..], b, parse);
    }
  }

  /** No analysis runs exactly when no row passes the filter. */
  lemma ManualDataEmpty(rows: seq<ManualRow>, parse: string -> Option<real>)
    ensures ManualData(rows, parse) == [] <==> forall i :: 0 <= i < |rows| ==> !Kept(rows[i], parse)
  {
    var data := ManualData(rows, parse);
    if data != [] {
      ManualDataSound(rows, parse, 0);
      var row :| row in rows && Kept(row, parse) && data[0] == ToSubject(row, parse);
      var i :| 0 <= i < |rows| && rows[i] == row;
    } else {
      forall i | 0 <= i < |rows| ensures !Kept(rows[i], parse) {
        assert rows[i] in rows;
      }
    }
  }

  // ---------------------------------------------------------------------------
  // Performance metrics

  datatype Risk = High | Medium | Low

  predicate NonZeroTotals(subjects: seq<Subject>) {
    forall i :: 0 <= i < |subjects| ==> subjects[i].total != 0.0
  }

  function Percentage(s: Subject): real
    requires s.total != 0.0
  {
    s.obtained / s.total * 100.0
  }

  /** Below 50 is high risk, below 75 medium, anything else low. */
  function RiskOf(percentage: real): Risk {
    if percentage < 50.0 then High else if percentage < 75.0 then Medium else Low
  }

  predicate Passed(s: Subject) {
    s.obtained >= s.passing
  }

  function CountPassed(subjects: seq<Subject>): nat {
    if subjects == [] then 0
    else CountPassed(subjects[..|subjects| - 1]) + (if Passed(subjects[|subjects| - 1]) then 1 else 0)
  }

  function CountRisk(subjects: seq<Subject>, level: Risk): nat
    requires NonZeroTotals(subjects)
  {
    if subjects == [] then 0
    else
      var last := subjects[|subjects| - 1];
      CountRisk(subjects[..|subjects| - 1], level) + (if RiskOf(Percentage(last)) == level then 1 else 0)
  }

  function SumPercentages(subjects: seq<Subject>): real
    requires NonZeroTotals(subjects)
  {
    if subjects == [] then 0.0
    else SumPercentages(subjects[..|subjects| - 1]) + Percentage(subjects[|subjects| - 1])
  }

  /**
   * The result of `calculatePerformanceMetrics`. The overall percentage is None where the
   * page computes NaN (no subjects); it is kept unrounded.
   */
  datatype Metrics = Metrics(
    totalSubjects: nat, passedSubjects: nat, failedSubjects: int,
    highRiskSubjects: nat, mediumRiskSubjects: nat, lowRiskSubjects: nat,
    overallPercentage: Option<real>, overallRisk: Risk)

  function MetricsOf(subjects: seq<Subject>): Metrics
    requires NonZeroTotals(subjects)
  {
    var n := |subjects|;
    var passed := CountPassed(subjects);
    var mean: Option<real> := if n == 0 then None else Some(SumPercentages(subjects) / n as real);
    Metrics(n, passed, n - passed,
            CountRisk(subjects, High), CountRisk(subjects, Medium), CountRisk(subjects, Low),
            mean, if mean.Some? then RiskOf(mean.value) else Low)
  }

  /** `calculatePerformanceMetrics`: one pass over the subjects with running counters. */
  method CalculatePerformanceMetrics(subjects: seq<Subject>) returns (m: Metrics)
    requires NonZeroTotals(subjects)
    ensures m == MetricsOf(subjects)
  {
    var passed, high, medium, low := 0, 0, 0, 0;
    var totalPercentage := 0.0;
    var i := 0;
    while i < |subjects|
      invariant 0 <= i <= |subjects|
      invariant NonZeroTotals(subjects[..i])
      invariant passed == CountPassed(subjects[..i])
      invariant high == CountRisk(subjects[..i], High)
      invariant medium == CountRisk(subjects[..i], Medium)
      invariant low == CountRisk(subjects[..i], Low)
      invariant totalPercentage == SumPercentages(subjects[..i])
    {
      var s := subjects[i];
      assert subjects[..i + 1][..i] == subjects[..i];
      var percentage := s.obtained / s.total * 100.0;
      totalPercentage := totalPercentage + percentage;
      if s.obtained >= s.passing {
        passed := passed + 1;
      }
      if percentage < 50.0 {
        high := high + 1;
      } else if percentage < 75.0 {
        medium := medium + 1;
      } else {
        low := low + 1;
      }
      i := i + 1;
    }
    assert subjects[..i] == subjects;
    var n := |subjects|;
    var overall: Option<real> := if n == 0 then None else Some(totalPercentage / n as real);
    var overallRisk := Low;
    if overall.Some? && overall.value < 50.0 {
      overallRisk := High;
    } else if overall.Some? && overall.value < 75.0 {
      overallRisk := Medium;
    }
    m := Metrics(n, passed, n - passed, high, medium, low, overall, overallRisk);
  }

  /** Every subject is in exactly one risk band, and passes or fails. */
  lemma {:induction false} MetricsPartition(subjects: seq<Subject>)
    requires NonZeroTotals(subjects)
    ensures var m := MetricsOf(subjects);
      && m.highRiskSubjects + m.mediumRiskSubjects + m.lowRiskSubjects == m.totalSubjects
      && m.passedSubjects <= m.totalSubjects
      && m.passedSubjects + m.failedSubjects == m.totalSubjects && m.failedSubjects >= 0
  {
    if subjects != [] {
      var init := subjects[..|subjects| - 1];
      assert NonZeroTotals(init) by {
        forall i | 0 <= i < |init| ensures init[i].total != 0.0 { assert init[i] == subjects[i]; }
      }
      MetricsPartition(init);
    }
  }

  /** With a positive total, the bands are the exact ratio tests obtained * 100 < 50 * total and < 75 * total. */
  lemma RiskIsRatioTest(s: Subject)
    requires s.total > 0.0
    ensures RiskOf(Percentage(s)) == High <==> s.obtained * 100.0 < 50.0 * s.total
    ensures RiskOf(Percentage(s)) == Medium <==> 50.0 * s.total <= s.obtained * 100.0 < 75.0 * s.total
    ensures RiskOf(Percentage(s)) == Low <==> 75.0 * s.total <= s.obtained * 100.0
  {
    var p := Percentage(s);
    assert p * s.total == s.obtained * 100.0;
    ScaleBelow(p, 50.0, s.total);
    ScaleBelow(p, 75.0, s.total);
    assert p < 50.0 <==> s.obtained * 100.0 < 50.0 * s.total;
    assert p < 75.0 <==> s.obtained * 100.0 < 75.0 * s.total;
  }

  lemma ScaleBelow(p: real, c: real, t: real)
    requires t > 0.0
    ensures p < c <==> p * t < c * t
  {
    if p < c {
      assert (c - p) * t > 0.0;
    } else {
      assert (p - c) * t >= 0.0;
    }
  }

  // ---------------------------------------------------------------------------
  // Performance label

  datatype PerformanceLabel = Poor | BelowAverage | Average | Good | VeryGood | Excellent

  function Rank(l: PerformanceLabel): nat {
    match l
    case Poor => 0
    case BelowAverage => 1
    case Average => 2
    case Good => 3
    case VeryGood => 4
    case Excellent => 5
  }

  /** `getPerformanceLabel`: the ladder 85 / 75 / 60 / 50 / 33. */
  function LabelOf(percentage: real): PerformanceLabel {
    if percentage >= 85.0 then Excellent
    else if percentage >= 75.0 then VeryGood
    else if percentage >= 60.0 then Good
    else if percentage >= 50.0 then Average
    else if percentage >= 33.0 then BelowAverage
    else Poor
  }

  /** A higher percentage never gets a lower label. */
  lemma LabelMonotone(p: real, q: real)
    requires p <= q
    ensures Rank(LabelOf(p)) <= Rank(LabelOf(q))
  {
  }

  /** The ladder agrees with the risk bands: Average or better is not high risk, Very Good or better is low risk. */
  lemma LabelAgreesWithRisk(p: real)
    ensures Rank(LabelOf(p)) >= Rank(Average) <==> RiskOf(p) != High
    ensures Rank(LabelOf(p)) >= Rank(VeryGood) <==> RiskOf(p) == Low
  {
  }

  // ---------------------------------------------------------------------------
  // The JSON array in an AI reply

  /** The first position at or after `k` holding `c`, or -1. */
  function IndexFrom(s: string, c: char, k: nat): (r: int)
    requires k <= |s|
    ensures -1 <= r < |s|
    ensures r == -1 <==> forall m :: k <= m < |s| ==> s[m] != c
    ensures r >= 0 ==> k <= r && s[r] == c && forall m :: k <= m < r ==> s[m] != c
    decreases |s| - k
  {
    if k == |s| then -1
    else if s[k] == c then k
    else IndexFrom(s, c, k + 1)
  }

  /** The last position before `k` holding `c`, or -1. */
  function LastBefore(s: string, c: char, k: nat): (r: int)
    requires k <= |s|
    ensures -1 <= r < k
    ensures r == -1 <==> forall m :: 0 <= m < k ==> s[m] != c
    ensures r >= 0 ==> s[r] == c && forall m :: r < m < k ==> s[m] != c
  {
    if k == 0 then -1
    else if s[k - 1] == c then k - 1
    else LastBefore(s, c, k - 1)
  }

  /** `s.indexOf(c)` */
  function IndexOf(s: string, c: char): (r: int)
    ensures -1 <= r < |s|
    ensures r == -1 <==> c !in s
    ensures r >= 0 ==> s[r] == c && c !in s[..r]
  {
    IndexFrom(s, c, 0)
  }

  /** `s.lastIndexOf(c)` */
  function LastIndexOf(s: string, c: char): (r: int)
    ensures -1 <= r < |s|
    ensures r == -1 <==> c !in s
    ensures r >= 0 ==> s[r] == c && c !in s[r + 1..]
  {
    LastBefore(s, c, |s|)
  }

  /** `s.slice(start, end)`: negative positions count from the end; an empty range gives "". */
  function JsSlice(s: string, start: int, end: int): string {
    var n := |s|;
    var from := if start < 0 then (if n + start < 0 then 0 else n + start) else (if start > n then n else start);
    var to := if end < 0 then (if n + end < 0 then 0 else n + end) else (if end > n then n else end);
    if from < to then s[from..to] else ""
  }

  /** Within bounds, the slice is the plain subsequence. */
  lemma JsSliceInRange(s: string, start: int, end: int)
    requires 0 <= start <= end <= |s|
    ensures JsSlice(s, start, end) == s[start..end]
  {
  }

  /** `responseText.slice(responseText.indexOf('['), responseText.lastIndexOf(']') + 1)` */
  function ExtractJsonArray(text: string): string {
    JsSlice(text, IndexOf(text, '['), LastIndexOf(text, ']') + 1)
  }

  /**
   * When a `[` comes before the last `]`, the slice runs from the first `[` to the last
   * `]`, both included (IndexOf and LastIndexOf say that no `[` precedes it and no `]`
   * follows it).
   */
  lemma ExtractFirstToLast(text: string)
    requires IndexOf(text, '[') >= 0 && LastIndexOf(text, ']') > IndexOf(text, '[')
    ensures var i, j := IndexOf(text, '['), LastIndexOf(text, ']');
      ExtractJsonArray(text) == text[i..j + 1]
    ensures var r := ExtractJsonArray(text); |r| >= 2 && r[0] == '[' && r[|r| - 1] == ']'
  {
    var i, j := IndexOf(text, '['), LastIndexOf(text, ']');
    SliceBetween(text, i, j);
  }

  /** The slice from a `[` to a later `]`, both included, starts and ends with them. */
  lemma SliceBetween(text: string, i: nat, j: nat)
    requires i < j < |text| && text[i] == '[' && text[j] == ']'
    ensures JsSlice(text, i, j + 1) == text[i..j + 1]
    ensures var r := JsSlice(text, i, j + 1); |r| >= 2 && r[0] == '[' && r[|r| - 1] == ']'
  {
    JsSliceInRange(text, i, j + 1);
  }

  /** Without any `]` the slice is empty, whatever else the reply holds. */
  lemma ExtractWithoutClose(text: string)
    requires ']' !in text
    ensures ExtractJsonArray(text) == ""
  {
  }

  // ---------------------------------------------------------------------------
  // The page

  datatype View = InputView | ManualView | ResultsView

  const AdviceHead: string := "<h4>Performance Analysis</h4><p>Based on your scores, here are some general recommendations:</p><ul>"
  const HighRiskTip: string := "<li>Focus on high-risk subjects (below 50%)</li>"
  const MediumRiskTip: string := "<li>Practice regularly for medium-risk subjects (50-75%)</li>"
  const AdviceTail: string := "<li>Create a study schedule allocating more time to weaker subjects</li>"
    + "<li>Seek help from teachers or tutors for difficult concepts</li>"
    + "<li>Practice with past papers and sample questions</li></ul>"

  /** The fixed advice shown when the recommendation request fails. */
  function FallbackRecommendations(m: Metrics): string {
    AdviceHead + (if m.highRiskSubjects > 0 then HighRiskTip else "")
    + (if m.mediumRiskSubjects > 0 then MediumRiskTip else "") + AdviceTail
  }

  /** Some subject falls in the risk band `level`. */
  predicate HasRisk(subjects: seq<Subject>, level: Risk)
    requires NonZeroTotals(subjects)
  {
    exists i :: 0 <= i < |subjects| && RiskOf(Percentage(subjects[i])) == level
  }

  /** A band's count is positive exactly when some subject falls in it. */
  lemma {:induction false} CountRiskPositive(subjects: seq<Subject>, level: Risk)
    requires NonZeroTotals(subjects)
    ensures CountRisk(subjects, level) > 0 <==> HasRisk(subjects, level)
  {
    if subjects != [] {
      var n := |subjects|;
      var init := subjects[..n - 1];
      assert NonZeroTotals(init) by {
        forall i | 0 <= i < |init| ensures init[i].total != 0.0 { assert init[i] == subjects[i]; }
      }
      CountRiskPositive(init, level);
      if HasRisk(init, level) {
        var i :| 0 <= i < |init| && RiskOf(Percentage(init[i])) == level;
        assert init[i] == subjects[i];
      }
      if HasRisk(subjects, level) && RiskOf(Percentage(subjects[n - 1])) != level {
        var i :| 0 <= i < n && RiskOf(Percentage(subjects[i])) == level;
        assert subjects[i] == init[i];
      }
    }
  }

  /**
   * The advice shown when no recommendations could be generated: the heading and the three
   * general tips always, the high-risk tip exactly when some subject is below 50%, and the
   * medium-risk tip exactly when some subject is from 50% up to 75%, in that order.
   */
  lemma FallbackAdvice(subjects: seq<Subject>)
    requires NonZeroTotals(subjects)
    ensures FallbackRecommendations(MetricsOf(subjects)) ==
      AdviceHead + (if HasRisk(subjects, High) then HighRiskTip else "")
      + (if HasRisk(subjects, Medium) then MediumRiskTip else "") + AdviceTail
  {
    CountRiskPositive(subjects, High);
    CountRiskPositive(subjects, Medium);
  }

  class RiskPredictorPage {
    var view: View
    var studentData: seq<Subject>
    var fileName: string
    var subjects: seq<ManualRow>
    var recommendations: string
    var isLoading: bool

    constructor ()
      ensures view == InputView && studentData == [] && fileName == "No file selected"
      ensures subjects == [BlankRow] && recommendations == "" && !isLoading
    {
      view, studentData, fileName := InputView, [], "No file selected";
      subjects, recommendations, isLoading := [BlankRow], "", false;
    }

    /** `handleManualInputChange`: one field of one row; the table keeps its length and every other cell. */
    method HandleManualInputChange(index: nat, field: RowField, value: string)
      requires index < |subjects|
      modifies this
      ensures |subjects| == |old(subjects)|
      ensures Get(subjects[index], field) == value
      ensures forall f :: f != field ==> Get(subjects[index], f) == Get(old(subjects)[index], f)
      ensures forall i :: 0 <= i < |subjects| && i != index ==> subjects[i] == old(subjects)[i]
      ensures view == old(view) && studentData == old(studentData) && fileName == old(fileName)
      ensures recommendations == old(recommendations) && isLoading == old(isLoading)
    {
      var row := WithField(subjects[index], field, value);
      subjects := subjects[index := row];
    }

    /** `addSubject`: one blank row at the end. */
    method AddSubject()
      modifies this
      ensures subjects == old(subjects) + [BlankRow]
      ensures view == old(view) && studentData == old(studentData) && fileName == old(fileName)
      ensures recommendations == old(recommendations) && isLoading == old(isLoading)
    {
      subjects := subjects + [BlankRow];
    }

    /**
     * `analyzeManualData` with `analyzeData`. When no row passes the filter nothing is
     * analyzed and nothing changes. Otherwise the filtered subjects become the student
     * data, the recommendations are the generated text (`generated`) or, when that
     * request failed, the fallback advice for their metrics, and the results are shown.
     */
    method AnalyzeManualData(parse: string -> Option<real>, generated: Option<string>) returns (analyzed: bool)
      modifies this
      ensures analyzed <==> ManualData(old(subjects), parse) != []
      ensures subjects == old(subjects) && fileName == old(fileName)
      ensures !analyzed ==>
        && view == old(view) && studentData == old(studentData) && recommendations == old(recommendations)
        && isLoading == old(isLoading)
      ensures analyzed ==>
        && studentData == ManualData(old(subjects), parse) && view == ResultsView && !isLoading
        && recommendations == (if generated.Some? then generated.value else FallbackRecommendations(MetricsOf(studentData)))
    {
      var data := ManualData(subjects, parse);
      if |data| == 0 {
        return false;
      }
      studentData := data;
      isLoading := true;
      var metrics := CalculatePerformanceMetrics(data);
      recommendations := if generated.Some? then generated.value else FallbackRecommendations(metrics);
      view := ResultsView;
      isLoading := false;
      analyzed := true;
    }

    /** `resetAnalysis`: one blank row, no data, no recommendations, the input view. */
    method ResetAnalysis()
      modifies this
      ensures studentData == [] && fileName == "No file selected" && subjects == [BlankRow]
      ensures recommendations == "" && view == InputView && isLoading == old(isLoading)
    {
      studentData, fileName, subjects := [], "No file selected", [BlankRow];
      recommendations, view := "", InputView;
    }
  }
}
