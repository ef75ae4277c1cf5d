/**
 * frontend/src/components/Profile.jsx: the aggregations the profile page
 * computes over the user's attempt list — the streak flames, the overall
 * statistics, the best attempt, the distinct subjects, the history pages,
 * the per-question review of one attempt, the per-subject grouping and the
 * direction of the score trend.
 *
 * A score ratio `score / totalQuestions` is kept exact, with JavaScript's
 * outcomes for a zero total (an infinity, or NaN for 0/0), so that the
 * comparisons the page makes between ratios behave as in the browser.
 */
module Profile {
  import opened Common
  import opened UserModel

  // ---------------------------------------------------------------------------
  // renderStreakFires
  // ---------------------------------------------------------------------------

  /** The flame glyph. */
  const Fire: char := '\U{1F525}'

  /** The flame row under the current streak is capped at ten flames. */
  const MaxFires: int := 10

  /** `renderStreakFires(streak)`: one flame per streak day, at most ten. */
  method RenderStreakFires(streak: int) returns (fires: string)
    ensures |fires| == if streak <= 0 then 0 else Min(streak, MaxFires)
    ensures forall k :: 0 <= k < |fires| ==> fires[k] == Fire
  {
    fires := [];
    var bound := Min(streak, MaxFires);
    var i := 0;
    while i < bound
      invariant 0 <= i && (i == 0 || i <= bound)
      invariant |fires| == i
      invariant forall k :: 0 <= k < i ==> fires[k] == Fire
    {
      fires := fires + [Fire];
      i := i + 1;
    }
  }

  // ---------------------------------------------------------------------------
  // Score ratios
  // ---------------------------------------------------------------------------

  /** The value of `score / totalQuestions` in JavaScript, exactly. */
  datatype Ratio = Finite(value: real) | PosInfinity | NegInfinity | NotANumber

  /** The ratio of one attempt. */
  function RatioOf(score: int, total: int): (r: Ratio)
    ensures total != 0 <==> r.Finite?
    ensures total != 0 ==> r.value * total as real == score as real
    ensures r == NotANumber <==> total == 0 && score == 0
  {
    if total != 0 then Finite(score as real / total as real)
    else if score > 0 then PosInfinity
    else if score < 0 then NegInfinity
    else NotANumber
  }

  function AttemptRatio(a: Attempt): Ratio
  {
    RatioOf(a.score, a.totalQuestions)
  }

  /** JavaScript's `>` on two ratios: false whenever NaN is involved. */
  function Greater(a: Ratio, b: Ratio): (g: bool)
    ensures g ==> a != NotANumber && b != NotANumber && a != b
    ensures a == PosInfinity && b != PosInfinity && b != NotANumber ==> g
    ensures a.Finite? && b.Finite? ==> (g <==> a.value > b.value)
  {
    match (a, b)
    case (NotANumber, _) => false
    case (_, NotANumber) => false
    case (PosInfinity, _) => b != PosInfinity
    case (_, NegInfinity) => a != NegInfinity
    case (Finite(x), Finite(y)) => x > y
    case (_, _) => false
  }

  // ---------------------------------------------------------------------------
  // calculateStats
  // ---------------------------------------------------------------------------

  /** The sum of the scores, as the first `reduce` computes it. */
  function SumScores(history: seq<Attempt>): (s: int)
    ensures (forall k :: 0 <= k < |history| ==> history[k].score >= 0) ==>
      s >= 0 && forall k :: 0 <= k < |history| ==> s >= history[k].score
  {
    if history == [] then 0 else SumScores(history[..|history| - 1]) + history[|history| - 1].score
  }

  /** The sum of the question counts, as the second `reduce` computes it. */
  function SumTotals(history: seq<Attempt>): (s: int)
    ensures (forall k :: 0 <= k < |history| ==> history[k].totalQuestions >= 0) ==>
      s >= 0 && forall k :: 0 <= k < |history| ==> s >= history[k].totalQuestions
  {
    if history == [] then 0 else SumTotals(history[..|history| - 1]) + history[|history| - 1].totalQuestions
  }

  /** The totals over a history split in two are the sums of the totals. */
  lemma {:induction false} SumsOfConcat(a: seq<Attempt>, b: seq<Attempt>)
    ensures SumScores(a + b) == SumScores(a) + SumScores(b)
    ensures SumTotals(a + b) == SumTotals(a) + SumTotals(b)
  {
    if b != [] {
      assert (a + b)[..|a + b| - 1] == a + b[..|b| - 1];
      SumsOfConcat(a, b[..|b| - 1]);
    } else {
      assert a + b == a;
    }
  }

  /** When every attempt scored between zero and its question count, so
      does the overall total. */
  lemma {:induction false} SumsBounded(history: seq<Attempt>)
    requires forall k :: 0 <= k < |history| ==> 0 <= history[k].score <= history[k].totalQuestions
    ensures 0 <= SumScores(history) <= SumTotals(history)
  {
    if history != [] {
      SumsBounded(history[..|history| - 1]);
    }
  }

  /** The index of the attempt the `reduce` without a seed keeps: start with
      the first attempt and switch only to a strictly greater ratio. */
  function BestIndex(history: seq<Attempt>): (b: nat)
    requires |history| > 0
    ensures b < |history|
    ensures forall k :: b < k < |history| ==> !Greater(AttemptRatio(history[k]), AttemptRatio(history[b]))
  {
    if |history| == 1 then 0
    else
      var b := BestIndex(history[..|history| - 1]);
      if Greater(AttemptRatio(history[|history| - 1]), AttemptRatio(history[b])) then |history| - 1 else b
  }

  /** With real question counts, the best attempt is the earliest one with
      the greatest ratio: none is greater, and every earlier one is
      smaller. */
  lemma {:induction false} BestIsEarliestMaximum(history: seq<Attempt>)
    requires |history| > 0
    requires forall k :: 0 <= k < |history| ==> history[k].totalQuestions > 0
    ensures var b := BestIndex(history);
      && (forall k :: 0 <= k < |history| ==> AttemptRatio(history[k]).value <= AttemptRatio(history[b]).value)
      && (forall k :: 0 <= k < b ==> AttemptRatio(history[k]).value < AttemptRatio(history[b]).value)
  {
    if |history| > 1 {
      var prefix := history[..|history| - 1];
      BestIsEarliestMaximum(prefix);
      assert forall k :: 0 <= k < |prefix| ==> prefix[k] == history[k];
    }
  }

  /** A first attempt of 0 of 0 questions has ratio NaN, which no ratio
      beats, so it stays the best attempt whatever follows. */
  lemma {:induction false} EmptyFirstAttemptStaysBest(history: seq<Attempt>)
    requires |history| > 0 && history[0].score == 0 && history[0].totalQuestions == 0
    ensures BestIndex(history) == 0
  {
    if |history| > 1 {
      EmptyFirstAttemptStaysBest(history[..|history| - 1]);
    }
  }

  /** The subjects attempted. */
  function SubjectSet(history: seq<Attempt>): (s: set<string>)
    ensures forall k :: 0 <= k < |history| ==> history[k].subject in s
    ensures forall x :: x in s ==> exists k :: 0 <= k < |history| && history[k].subject == x
  {
    if history == [] then {}
    else SubjectSet(history[..|history| - 1]) + {history[|history| - 1].subject}
  }

  /** The subjects in order of first attempt, each once: the iteration order
      of `new Set(...)` and of the keys added to a fresh object. */
  function DistinctSubjects(history: seq<Attempt>): (d: seq<string>)
    ensures forall i, j :: 0 <= i < j < |d| ==> d[i] != d[j]
    ensures forall x :: x in d <==> x in SubjectSet(history)
  {
    if history == [] then []
    else
      var d := DistinctSubjects(history[..|history| - 1]);
      var x := history[|history| - 1].subject;
      if x in d then d else d + [x]
  }

  /** The number of distinct subjects is the size of the subject set. */
  lemma {:induction false} DistinctSubjectsCount(history: seq<Attempt>)
    ensures |DistinctSubjects(history)| == |SubjectSet(history)|
  {
    if history != [] {
      var prefix, x := history[..|history| - 1], history[|history| - 1].subject;
      DistinctSubjectsCount(prefix);
      assert SubjectSet(history) == SubjectSet(prefix) + {x};
      if x in DistinctSubjects(prefix) {
        assert SubjectSet(history) == SubjectSet(prefix);
      } else {
        assert x !in SubjectSet(prefix);
        assert |SubjectSet(history)| == |SubjectSet(prefix)| + 1;
      }
    }
  }

  /** What `calculateStats` returns; the two rounded percentages are not
      part of this model. */
  datatype Stats = Stats(totalQuizzes: int, totalScore: int, totalQuestions: int,
                         bestSubject: string, uniqueSubjects: int)

  /** `calculateStats()`: null for an empty history. */
  function CalculateStats(history: seq<Attempt>): (r: Option<Stats>)
    ensures r.None? <==> history == []
    ensures r.Some? ==>
      && r.value.totalQuizzes == |history|
      && r.value.totalScore == SumScores(history)
      && r.value.totalQuestions == SumTotals(history)
      && r.value.bestSubject == history[BestIndex(history)].subject
      && r.value.uniqueSubjects == |SubjectSet(history)|
  {
    if history == [] then None
    else
      DistinctSubjectsCount(history);
      Some(Stats(|history|, SumScores(history), SumTotals(history),
                 history[BestIndex(history)].subject, |DistinctSubjects(history)|))
  }

  // ---------------------------------------------------------------------------
  // Pagination
  // ---------------------------------------------------------------------------

  const QuizzesPerPage: int := 5

  /** How `Array.prototype.slice` reads an index: negative counts from the
      end, and the result is clamped to the array. */
  function SliceIndex(i: int, len: nat): (r: nat)
    ensures r <= len
    ensures 0 <= i <= len ==> r == i
    ensures i > len ==> r == len
  {
    if i < 0 then (if len + i < 0 then 0 else len + i)
    else if i > len then len
    else i
  }

  /** `s.slice(start, end)`. */
  function JsSlice<T>(s: seq<T>, start: int, end: int): (r: seq<T>)
    ensures |r| <= |s|
    ensures 0 <= start <= end <= |s| ==> r == s[start..end]
    ensures 0 <= end <= start ==> r == []
  {
    var from := SliceIndex(start, |s|);
    var to := SliceIndex(end, |s|);
    if from < to then s[from..to] else []
  }

  /** `currentQuizzes` for page `page`. */
  function PageOf(history: seq<Attempt>, page: int): (r: seq<Attempt>)
    ensures |r| <= QuizzesPerPage
  {
    JsSlice(history, page * QuizzesPerPage - QuizzesPerPage, page * QuizzesPerPage)
  }

  /** `Math.ceil(history.length / quizzesPerPage)`. */
  function TotalPages(len: nat): (n: nat)
    ensures len == 0 <==> n == 0
    ensures len > 0 ==> (n - 1) * QuizzesPerPage < len <= n * QuizzesPerPage
  {
    (len + QuizzesPerPage - 1) / QuizzesPerPage
  }

  /** Page `p` shows the attempts at positions (p-1)*5 up to, not including,
      p*5, cut at the end of the history: at most five. */
  lemma PageShowsItsRange(history: seq<Attempt>, page: int)
    requires page >= 1
    ensures PageOf(history, page) ==
      history[Min((page - 1) * QuizzesPerPage, |history|)..Min(page * QuizzesPerPage, |history|)]
    ensures |PageOf(history, page)| <= QuizzesPerPage
  {
  }

  /** Page 0, reachable only by the Previous button on page 1 (which is
      disabled), would be empty. */
  lemma PageZeroIsEmpty(history: seq<Attempt>)
    ensures PageOf(history, 0) == []
  {
  }

  /** Pages 1 to `n`, one after another. */
  function Pages(history: seq<Attempt>, n: nat): seq<Attempt>
  {
    if n == 0 then [] else Pages(history, n - 1) + PageOf(history, n)
  }

  /** The first `n` pages are the first `5n` attempts. */
  lemma {:induction false} PagesArePrefix(history: seq<Attempt>, n: nat)
    ensures Pages(history, n) == history[..Min(n * QuizzesPerPage, |history|)]
  {
    if n > 0 {
      var a := Min((n - 1) * QuizzesPerPage, |history|);
      var b := Min(n * QuizzesPerPage, |history|);
      assert a <= b;
      PagesArePrefix(history, n - 1);
      PageShowsItsRange(history, n);
      assert Pages(history, n) == history[..a] + history[a..b];
      assert history[..a] + history[a..b] == history[..b];
    }
  }

  /** Reading pages 1 to `totalPages` in order shows the whole history, each
      attempt once. */
  lemma PagesCoverHistory(history: seq<Attempt>)
    ensures Pages(history, TotalPages(|history|)) == history
  {
    PagesArePrefix(history, TotalPages(|history|));
    assert history[..|history|] == history;
  }

  /** The "Showing a to b" numbers under the page list. */
  function ShowingRange(page: int, len: nat): (r: (int, int))
    ensures r.1 <= len && r.1 - r.0 < QuizzesPerPage
    ensures 1 <= page && (page - 1) * QuizzesPerPage < len ==> 1 <= r.0 <= r.1
  {
    (page * QuizzesPerPage - QuizzesPerPage + 1, Min(page * QuizzesPerPage, len))
  }

  /** On every page that exists the caption counts exactly the attempts
      shown, and names their positions counted from one. */
  lemma ShowingMatchesPage(history: seq<Attempt>, page: int)
    requires 1 <= page <= TotalPages(|history|)
    ensures var (first, last) := ShowingRange(page, |history|);
      && last - first + 1 == |PageOf(history, page)|
      && PageOf(history, page) == history[first - 1..last]
  {
    PageShowsItsRange(history, page);
  }

  // ---------------------------------------------------------------------------
  // renderQuizDetails
  // ---------------------------------------------------------------------------

  /** One table row of the attempt review. */
  datatype DetailRow = DetailRow(number: int, question: string, userAnswer: string,
                                 correctAnswer: string, correct: bool)

  /** The review of one attempt: the no-data message, or the rows. */
  datatype Details = NoDetailedData | Rows(rows: seq<DetailRow>)

  /** `list[i] || ''`: the stored answer, or the empty string past the end
      of the list. */
  function AnswerAt(list: seq<string>, i: nat): string
  {
    if i < |list| then list[i] else ""
  }

  /** `renderQuizDetails(quiz)`. */
  function RenderQuizDetails(questions: Option<seq<string>>, userAnswers: Option<seq<string>>,
                             correctAnswers: Option<seq<string>>): (d: Details)
    ensures d == NoDetailedData <==> questions.None? || userAnswers.None? || correctAnswers.None?
    ensures d.Rows? ==> |d.rows| == |questions.value|
    ensures d.Rows? ==> forall k :: 0 <= k < |d.rows| ==>
      && d.rows[k].number == k + 1 && d.rows[k].question == questions.value[k]
      && d.rows[k].userAnswer == AnswerAt(userAnswers.value, k)
      && d.rows[k].correctAnswer == AnswerAt(correctAnswers.value, k)
      && (d.rows[k].correct <==> AnswerAt(userAnswers.value, k) == AnswerAt(correctAnswers.value, k))
  {
    if questions.None? || userAnswers.None? || correctAnswers.None? then NoDetailedData
    else
      var q, ua, ca := questions.value, userAnswers.value, correctAnswers.value;
      Rows(seq(|q|, k requires 0 <= k < |q| =>
        DetailRow(k + 1, q[k], AnswerAt(ua, k), AnswerAt(ca, k), AnswerAt(ua, k) == AnswerAt(ca, k))))
  }

  /** The number of rows marked correct. */
  function CorrectRows(rows: seq<DetailRow>): (n: nat)
    ensures n <= |rows|
  {
    if rows == [] then 0 else CorrectRows(rows[..|rows| - 1]) + (if rows[|rows| - 1].correct then 1 else 0)
  }

  /** When the stored answers agree with the correct ones on every question,
      every row is marked correct; a question with neither answer stored is
      also shown as correct. */
  lemma {:induction false} AgreeingAnswersAllCorrect(questions: seq<string>, userAnswers: seq<string>,
                                                     correctAnswers: seq<string>)
    requires forall k :: 0 <= k < |questions| ==> AnswerAt(userAnswers, k) == AnswerAt(correctAnswers, k)
    ensures var d := RenderQuizDetails(Some(questions), Some(userAnswers), Some(correctAnswers));
      CorrectRows(d.rows) == |questions|
  {
    var rows := RenderQuizDetails(Some(questions), Some(userAnswers), Some(correctAnswers)).rows;
    AllCorrectCount(rows);
  }

  /** Rows that are all correct count in full. */
  lemma {:induction false} AllCorrectCount(rows: seq<DetailRow>)
    requires forall k :: 0 <= k < |rows| ==> rows[k].correct
    ensures CorrectRows(rows) == |rows|
  {
    if rows != [] {
      AllCorrectCount(rows[..|rows| - 1]);
    }
  }

  // ---------------------------------------------------------------------------
  // getSubjectSuccess
  // ---------------------------------------------------------------------------

  /** The ratios of the attempts at `subject`, in history order. */
  function RatiosFor(history: seq<Attempt>, subject: string): (r: seq<Ratio>)
    ensures |r| <= |history|
  {
    if history == [] then []
    else
      var last := history[|history| - 1];
      RatiosFor(history[..|history| - 1], subject) + (if last.subject == subject then [AttemptRatio(last)] else [])
  }

  /** A subject never attempted has no ratios; one attempted has some. */
  lemma {:induction false} RatiosForNonEmpty(history: seq<Attempt>, subject: string)
    ensures RatiosFor(history, subject) != [] <==> subject in SubjectSet(history)
  {
    if history != [] {
      RatiosForNonEmpty(history[..|history| - 1], subject);
    }
  }

  /** One subject and the ratios its average is taken of. */
  datatype SubjectScores = SubjectScores(subject: string, ratios: seq<Ratio>)

  /** `getSubjectSuccess()`: groups the ratios by subject in a dictionary,
      then lists the subjects in the order their keys were added. */
  method GetSubjectSuccess(history: seq<Attempt>) returns (entries: seq<SubjectScores>)
    ensures history == [] ==> entries == []
    ensures |entries| == |DistinctSubjects(history)|
    ensures forall i :: 0 <= i < |entries| ==>
      && entries[i].subject == DistinctSubjects(history)[i]
      && entries[i].ratios == RatiosFor(history, entries[i].subject)
      && entries[i].ratios != []
  {
    if history == [] {
      return [];
    }
    var groups: map<string, seq<Ratio>> := map[];
    var keys: seq<string> := [];
    var i := 0;
    while i < |history|
      invariant 0 <= i <= |history|
      invariant keys == DistinctSubjects(history[..i])
      invariant forall s :: s in groups <==> s in keys
      invariant forall s :: s in groups ==> groups[s] == RatiosFor(history[..i], s)
    {
      var q := history[i];
      assert history[..i + 1][..i] == history[..i];
      if q.subject !in groups {
        RatiosForNonEmpty(history[..i], q.subject);
        groups := groups[q.subject := []];
        keys := keys + [q.subject];
      }
      groups := groups[q.subject := groups[q.subject] + [AttemptRatio(q)]];
      i := i + 1;
    }
    assert history[..i] == history;
    entries := seq(|keys|, k requires 0 <= k < |keys| => SubjectScores(keys[k], groups[keys[k]]));
    forall k | 0 <= k < |entries|
      ensures entries[k].ratios != []
    {
      RatiosForNonEmpty(history, keys[k]);
    }
  }

  /** There is one entry per distinct subject. */
  lemma SubjectSuccessCount(history: seq<Attempt>)
    ensures |DistinctSubjects(history)| == |SubjectSet(history)|
    ensures |SubjectSet(history)| <= |history|
  {
    DistinctSubjectsCount(history);
    DistinctAtMostHistory(history);
  }

  lemma {:induction false} DistinctAtMostHistory(history: seq<Attempt>)
    ensures |DistinctSubjects(history)| <= |history|
  {
    if history != [] {
      DistinctAtMostHistory(history[..|history| - 1]);
    }
  }

  // ---------------------------------------------------------------------------
  // getMLSummary: the trend sentence
  // ---------------------------------------------------------------------------

  /** Last score minus first score, 0 for fewer than two attempts. */
  function Trend(history: seq<Attempt>): (t: int)
    ensures |history| <= 1 ==> t == 0
    ensures |history| > 1 ==> (t > 0 <==> history[|history| - 1].score > history[0].score)
    ensures |history| > 1 ==> (t < 0 <==> history[|history| - 1].score < history[0].score)
  {
    if |history| > 1 then history[|history| - 1].score - history[0].score else 0
  }

  const NoQuizData: string := "No quiz data available."
  const Improving: string := " Your scores are improving over time."
  const Decreasing: string := " Your scores have decreased recently. Try to review and revise."
  const Stable: string := " Your performance is stable."

  /** The part of `getMLSummary()` that the trend decides: the early answer
      for an empty history, otherwise the sentence the sign of the trend
      selects. */
  function TrendSentence(history: seq<Attempt>): (s: string)
    ensures s == NoQuizData <==> history == []
    ensures s == Improving <==> |history| > 1 && history[|history| - 1].score > history[0].score
    ensures s == Decreasing <==> |history| > 1 && history[|history| - 1].score < history[0].score
    ensures s == Stable <==> |history| == 1 || (|history| > 1 && history[|history| - 1].score == history[0].score)
  {
    if history == [] then NoQuizData
    else
      var trend := Trend(history);
      if trend > 0 then Improving else if trend < 0 then Decreasing else Stable
  }
}
