/**
 * The generated quiz (frontend/src/pages/AIAssessment.jsx): the test configuration with
 * its list of question types, the answer table built from the generated questions, the
 * marking rule, the score and the elapsed-time rendering.
 *
 * The question generator is a parameter: the list of questions it produced, or the
 * error it failed with.
 */
module Assessment {
  import opened Wrappers
  import Text

  // ---------------------------------------------------------------------------
  // Configuration

  /** `questionCount` is kept as the text of its number input. */
  datatype TestConfig = TestConfig(
    subject: string, topic: string, difficulty: string, questionTypes: seq<string>, questionCount: string)

  const InitialConfig := TestConfig("mathematics", "", "medium", ["mcq"], "5")

  /** The named inputs of the form other than the type checkboxes. */
  datatype ConfigField = SubjectField | TopicField | DifficultyField | QuestionCountField

  /** One change event: a type checkbox, or any other named input. */
  datatype ConfigChange = Checkbox(value: string, checked: bool) | FieldChange(name: ConfigField, value: string)

  /** `types.filter((t) => t !== v)` */
  function Without(types: seq<string>, v: string): (r: seq<string>)
    ensures |r| <= |types|
    ensures forall x :: x in r <==> x in types && x != v
    ensures v !in types ==> r == types
  {
    if types == [] then []
    else
      var rest := Without(types[1..], v);
      assert forall x :: x in types <==> x == types[0] || x in types[1..];
      if types[0] == v then rest else [types[0]] + rest
  }

  /** Removing after adding is removing: an unchecked type leaves no trace of its earlier checks. */
  lemma {:induction false} WithoutAppend(a: seq<string>, b: seq<string>, v: string)
    ensures Without(a + b, v) == Without(a, v) + Without(b, v)
  {
    if a == [] {
      assert a + b == b;
    } else {
      assert (a + b)[0] == a[0];
      assert (a + b)[1..] == a[1..] + b;
      WithoutAppend(a[1..], b, v);
    }
  }

  lemma CheckThenUncheck(types: seq<string>, v: string)
    ensures Without(types + [v], v) == Without(types, v)
  {
    WithoutAppend(types, [v], v);
    assert Without([v], v) == [];
  }

  /** `{ ...prev, [name]: value }` */
  function WithField(c: TestConfig, name: ConfigField, value: string): (r: TestConfig)
    ensures r.questionTypes == c.questionTypes
    ensures r.subject == (if name == SubjectField then value else c.subject)
    ensures r.topic == (if name == TopicField then value else c.topic)
    ensures r.difficulty == (if name == DifficultyField then value else c.difficulty)
    ensures r.questionCount == (if name == QuestionCountField then value else c.questionCount)
  {
    match name
    case SubjectField => c.(subject := value)
    case TopicField => c.(topic := value)
    case DifficultyField => c.(difficulty := value)
    case QuestionCountField => c.(questionCount := value)
  }

  // ---------------------------------------------------------------------------
  // Questions, answers and marking

  /** A generated question; `kind` is its `type`. */
  datatype Question = Question(kind: string, question: string, options: seq<string>, answer: string, explanation: Option<string>)

  /** One row of the answer table; `isCorrect` is None (null) until marked. */
  datatype AnswerRow = AnswerRow(question: string, answer: string, correctAnswer: string, explanation: string, isCorrect: Option<bool>)

  /** The row a question starts with: no answer, ungraded, the question's answer and explanation. */
  function InitialRow(q: Question): (row: AnswerRow)
    ensures row.question == q.question && row.answer == "" && row.correctAnswer == q.answer
    ensures row.isCorrect == None
    ensures row.explanation == (if q.explanation.Some? then q.explanation.value else "")
  {
    AnswerRow(q.question, "", q.answer, q.explanation.GetOr(""), None)
  }

  /** Multiple-choice and true/false answers are compared exactly. */
  predicate ExactKind(kind: string) {
    kind == "mcq" || kind == "true_false"
  }

  /** The marking rule: exact for choice questions, ignoring letter case for the others. */
  predicate IsCorrect(kind: string, given: string, expected: string) {
    if ExactKind(kind) then given == expected else Text.Lower(given) == Text.Lower(expected)
  }

  /** The case-insensitive comparison is the exact one when neither string has an upper-case letter. */
  lemma MarkingAgreesWithoutCapitals(kind: string, given: string, expected: string)
    requires forall i :: 0 <= i < |given| ==> !('A' <= given[i] <= 'Z')
    requires forall i :: 0 <= i < |expected| ==> !('A' <= expected[i] <= 'Z')
    ensures IsCorrect(kind, given, expected) <==> given == expected
  {
    assert Text.Lower(given) == given;
    assert Text.Lower(expected) == expected;
  }

  /** A short answer that differs only in letter case is still correct; a choice answer is not. */
  lemma CaseOnlyMattersForChoices(kind: string, given: string)
    ensures IsCorrect(kind, Text.Lower(given), given) <==> !ExactKind(kind) || Text.Lower(given) == given
  {
    Text.LowerIdempotent(given);
  }

  /** The graded row: the same row with its verdict. */
  function Graded(q: Question, row: AnswerRow): (r: AnswerRow)
    ensures r.isCorrect == Some(IsCorrect(q.kind, row.answer, row.correctAnswer))
    ensures r.(isCorrect := row.isCorrect) == row
  {
    row.(isCorrect := Some(IsCorrect(q.kind, row.answer, row.correctAnswer)))
  }

  /** `userAnswers.filter((a) => a.isCorrect).length` */
  function CountCorrect(rows: seq<AnswerRow>): (n: nat)
    ensures n <= |rows|
  {
    if rows == [] then 0
    else CountCorrect(rows[..|rows| - 1]) + (if rows[|rows| - 1].isCorrect == Some(true) then 1 else 0)
  }

  lemma {:induction false} CountCorrectAll(rows: seq<AnswerRow>)
    requires forall i :: 0 <= i < |rows| ==> rows[i].isCorrect == Some(true)
    ensures CountCorrect(rows) == |rows|
  {
    if rows != [] {
      CountCorrectAll(rows[..|rows| - 1]);
    }
  }

  lemma {:induction false} CountCorrectNone(rows: seq<AnswerRow>)
    requires forall i :: 0 <= i < |rows| ==> rows[i].isCorrect != Some(true)
    ensures CountCorrect(rows) == 0
  {
    if rows != [] {
      CountCorrectNone(rows[..|rows| - 1]);
    }
  }

  // ---------------------------------------------------------------------------
  // Score and elapsed time

  /**
   * `Math.round((correct / total) * 100)`: the percentage rounded half up, that is
   * floor(100 * correct / total + 1/2). An empty test divides by zero (NaN): None.
   */
  function Score(correct: nat, total: nat): (r: Option<int>)
    ensures r.None? <==> total == 0
    ensures r.Some? ==> r.value >= 0
  {
    if total == 0 then None else Some((200 * correct + total) / (2 * total))
  }

  /** The score is the nearest integer to the exact percentage, halves going up. */
  lemma ScoreIsNearest(correct: nat, total: nat)
    requires total > 0
    ensures var s := Score(correct, total).value;
      2 * s * total <= 200 * correct + total < 2 * s * total + 2 * total
  {
    var n, d := 200 * correct + total, 2 * total;
    var s := n / d;
    assert n == s * d + n % d;
    assert 2 * s * total == s * d;
  }

  lemma MulMono(a: int, b: int, t: nat)
    requires a <= b
    ensures a * t <= b * t
  {
    assert b * t - a * t == (b - a) * t;
  }

  /** A common non-negative factor can be cancelled from a strict inequality. */
  lemma CancelFactor(a: int, b: int, d: nat)
    requires a * d < b * d
    ensures a < b
  {
    if b <= a {
      MulMono(b, a, d);
    }
  }

  /** With at most as many correct answers as questions the score lies in 0..100; all correct is 100, none is 0. */
  lemma ScoreBounds(correct: nat, total: nat)
    requires 0 < total && correct <= total
    ensures 0 <= Score(correct, total).value <= 100
    ensures correct == total ==> Score(correct, total) == Some(100)
    ensures correct == 0 ==> Score(correct, total) == Some(0)
  {
    var s := Score(correct, total).value;
    var n: nat, d: nat := 200 * correct + total, 2 * total;
    ScoreIsNearest(correct, total);
    assert s * d <= n < (s + 1) * d by {
      assert s * d == 2 * s * total;
      assert (s + 1) * d == 2 * s * total + 2 * total;
    }
    MulMono(correct, total, 200);
    assert n < 101 * d;
    CancelFactor(s, 101, d);
    if correct == total {
      assert 100 * d < (s + 1) * d;
      CancelFactor(100, s + 1, d);
    }
    if correct == 0 {
      assert s * d < 1 * d;
      CancelFactor(s, 1, d);
    }
  }

  /** `formatTime(seconds)`: MM:SS, each part at least two digits. */
  function FormatTime(seconds: nat): string {
    Text.PadStart2(Text.Decimal(seconds / 60)) + ":" + Text.PadStart2(Text.Decimal(seconds % 60))
  }

  /** The rendering reads back: minutes * 60 + seconds, the seconds as exactly two digits below 60. */
  lemma FormatTimeRoundTrip(seconds: nat)
    ensures var r := FormatTime(seconds); var n := |r|;
      && n >= 5 && r[n - 3] == ':' && Text.IsDigits(r[..n - 3]) && Text.IsDigits(r[n - 2..])
      && Text.ParseDecimal(r[n - 2..]) < 60
      && Text.ParseDecimal(r[..n - 3]) == seconds / 60 && Text.ParseDecimal(r[n - 2..]) == seconds % 60
  {
    var M, S := Text.PadStart2(Text.Decimal(seconds / 60)), Text.PadStart2(Text.Decimal(seconds % 60));
    Text.PaddedValue(seconds / 60);
    Text.TwoDigits(seconds % 60);
    var r := FormatTime(seconds);
    var n := |r|;
    assert r == M + ":" + S;
    assert r[..n - 3] == M;
    assert r[n - 2..] == S;
  }

  // ---------------------------------------------------------------------------
  // The page

  datatype View = ConfigView | TestView | ResultsView

  class AssessmentPage {
    var config: TestConfig
    var currentTest: seq<Question>
    var userAnswers: seq<AnswerRow>
    var view: View
    var testDuration: nat
    var isLoading: bool
    /** Whether the elapsed-time interval is running. */
    var timerRunning: bool

    /** One answer row per question of the current test. */
    predicate Valid()
      reads this
    {
      |userAnswers| == |currentTest|
    }

    constructor ()
      ensures Valid() && config == InitialConfig && currentTest == [] && userAnswers == []
      ensures view == ConfigView && testDuration == 0 && !isLoading && !timerRunning
    {
      config, currentTest, userAnswers := InitialConfig, [], [];
      view, testDuration, isLoading, timerRunning := ConfigView, 0, false, false;
    }

    /**
     * `handleConfigChange`: checking a type appends it at the end, unchecking removes every
     * occurrence of it, and any other input replaces only its own field.
     */
    method HandleConfigChange(change: ConfigChange)
      modifies this
      ensures change.Checkbox? && change.checked ==>
        config == old(config).(questionTypes := old(config).questionTypes + [change.value])
      ensures change.Checkbox? && !change.checked ==>
        config == old(config).(questionTypes := Without(old(config).questionTypes, change.value))
      ensures change.FieldChange? ==> config == WithField(old(config), change.name, change.value)
      ensures currentTest == old(currentTest) && userAnswers == old(userAnswers) && view == old(view)
      ensures testDuration == old(testDuration) && isLoading == old(isLoading) && timerRunning == old(timerRunning)
    {
      match change
      case Checkbox(value, checked) =>
        var types := config.questionTypes;
        if checked {
          types := types + [value];
        } else {
          types := Without(types, value);
        }
        config := config.(questionTypes := types);
      case FieldChange(name, value) =>
        config := WithField(config, name, value);
    }

    /**
     * `generateTest` with the generator's outcome. With no question type selected no
     * request is made and nothing changes. A generated list becomes the test, with one
     * fresh row per question, the test view and the running timer; a failure leaves the
     * test as it was. Loading ends false either way.
     */
    method GenerateTest(generated: Result<seq<Question>, string>) returns (requested: bool)
      requires Valid()
      modifies this
      ensures Valid()
      ensures requested <==> |old(config).questionTypes| > 0
      ensures config == old(config) && testDuration == old(testDuration)
      ensures !requested ==>
        && currentTest == old(currentTest) && userAnswers == old(userAnswers) && view == old(view)
        && isLoading == old(isLoading) && timerRunning == old(timerRunning)
      ensures requested ==> !isLoading
      ensures requested && generated.Failure? ==>
        currentTest == old(currentTest) && userAnswers == old(userAnswers) && view == old(view)
        && timerRunning == old(timerRunning)
      ensures requested && generated.Success? ==>
        && currentTest == generated.value && view == TestView && timerRunning
        && |userAnswers| == |generated.value|
        && forall i :: 0 <= i < |userAnswers| ==> userAnswers[i] == InitialRow(generated.value[i])
    {
      if |config.questionTypes| == 0 {
        return false;
      }
      requested := true;
      isLoading := true;
      if generated.Success? {
        var questions := generated.value;
        currentTest := questions;
        userAnswers := seq(|questions|, i requires 0 <= i < |questions| => InitialRow(questions[i]));
        view := TestView;
        timerRunning := true;
      }
      isLoading := false;
    }

    /** `handleAnswerChange`: the answer at `index`, and nothing else in the table, changes. */
    method HandleAnswerChange(index: nat, value: string)
      requires Valid() && index < |userAnswers|
      modifies this
      ensures Valid()
      ensures |userAnswers| == |old(userAnswers)|
      ensures userAnswers[index] == old(userAnswers)[index].(answer := value)
      ensures forall i :: 0 <= i < |userAnswers| && i != index ==> userAnswers[i] == old(userAnswers)[i]
      ensures config == old(config) && currentTest == old(currentTest) && view == old(view)
      ensures testDuration == old(testDuration) && isLoading == old(isLoading) && timerRunning == old(timerRunning)
    {
      userAnswers := userAnswers[index := userAnswers[index].(answer := value)];
    }

    /**
     * `gradeTest`: stops the timer, grades every row against its question's type and
     * shows the results. The table keeps its length and each row changes only in its
     * verdict; the count returned is the number of correct rows.
     */
    method GradeTest() returns (correctCount: nat)
      requires Valid()
      modifies this
      ensures Valid()
      ensures |userAnswers| == |old(userAnswers)|
      ensures forall i :: 0 <= i < |userAnswers| ==> userAnswers[i] == Graded(currentTest[i], old(userAnswers)[i])
      ensures correctCount == CountCorrect(userAnswers)
      ensures view == ResultsView && !timerRunning
      ensures config == old(config) && currentTest == old(currentTest)
      ensures testDuration == old(testDuration) && isLoading == old(isLoading)
    {
      timerRunning := false;
      correctCount := 0;
      var graded: seq<AnswerRow> := [];
      var i := 0;
      while i < |userAnswers|
        invariant 0 <= i <= |userAnswers| && |graded| == i
        invariant forall k :: 0 <= k < i ==> graded[k] == Graded(currentTest[k], userAnswers[k])
        invariant correctCount == CountCorrect(graded)
      {
        var item := userAnswers[i];
        var isCorrect;
        if currentTest[i].kind == "mcq" || currentTest[i].kind == "true_false" {
          isCorrect := item.answer == item.correctAnswer;
        } else {
          isCorrect := Text.Lower(item.answer) == Text.Lower(item.correctAnswer);
        }
        if isCorrect {
          correctCount := correctCount + 1;
        }
        var next := graded + [item.(isCorrect := Some(isCorrect))];
        assert next[i] == Graded(currentTest[i], userAnswers[i]);
        assert next[..i] == graded;
        graded := next;
        i := i + 1;
      }
      userAnswers := graded;
      view := ResultsView;
    }

    /** `resetTest`: no timer, no elapsed time, no test, no answers, the configuration view. */
    method ResetTest()
      modifies this
      ensures Valid()
      ensures !timerRunning && testDuration == 0 && currentTest == [] && userAnswers == [] && view == ConfigView
      ensures config == old(config) && isLoading == old(isLoading)
    {
      timerRunning := false;
      testDuration := 0;
      currentTest, userAnswers := [], [];
      view := ConfigView;
    }

    /** `toggleReviewMode`: back to the test view with the graded answers kept. */
    method ReviewAnswers()
      modifies this
      ensures view == TestView
      ensures config == old(config) && currentTest == old(currentTest) && userAnswers == old(userAnswers)
      ensures testDuration == old(testDuration) && isLoading == old(isLoading) && timerRunning == old(timerRunning)
    {
      view := TestView;
    }
  }

  /** After marking, the results' score counts exactly the rows the marking rule accepted. */
  lemma ResultsScore(questions: seq<Question>, rows: seq<AnswerRow>)
    requires |questions| == |rows| > 0
    requires forall i :: 0 <= i < |rows| ==> IsCorrect(questions[i].kind, rows[i].answer, rows[i].correctAnswer)
    ensures var graded := seq(|rows|, i requires 0 <= i < |rows| => Graded(questions[i], rows[i]));
      Score(CountCorrect(graded), |graded|) == Some(100)
  {
    var graded := seq(|rows|, i requires 0 <= i < |rows| => Graded(questions[i], rows[i]));
    CountCorrectAll(graded);
    ScoreBounds(|graded|, |graded|);
  }
}
