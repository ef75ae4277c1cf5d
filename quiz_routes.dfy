/**
 * backend/routes/quiz.js: the question shuffle behind `GET /quiz/:subject`,
 * the streak engine `calculateStreak`, the lazy reset `checkAndResetStreak`
 * and the `POST /quiz/save-result` handler that records an attempt and
 * updates the streak fields and the per-day streak history of a user.
 *
 * The clock is a parameter: `now` is the instant `new Date()` reads.
 */
module QuizRoutes {
  import opened Common
  import opened UserModel

  // ---------------------------------------------------------------------------
  // GET /quiz/:subject
  // ---------------------------------------------------------------------------

  /** Most questions served for one attempt. */
  const MaxQuestions: int := 20

  /** The random draws of one Fisher-Yates pass over `n` items: step `i`
      (from n-1 down to 1) swaps position `i` with position `picks[i]`. */
  ghost predicate ValidPicks(picks: seq<int>, n: nat)
  {
    |picks| == n && forall i :: 0 < i < n ==> 0 <= picks[i] <= i
  }

  /** `shuffleArray`: copies the input and swaps in place from the back,
      `Math.random` replaced by the given draws. The input is a value, so it
      is left untouched; the result is a permutation of it. */
  method ShuffleArray<T>(items: seq<T>, picks: seq<int>) returns (shuffled: seq<T>)
    requires ValidPicks(picks, |items|)
    ensures multiset(shuffled) == multiset(items)
    ensures |shuffled| == |items|
    ensures (forall i :: 0 < i < |items| ==> picks[i] == i) ==> shuffled == items
  {
    var a := new T[|items|](k requires 0 <= k < |items| => items[k]);
    assert a[..] == items;
    var i := |items| - 1;
    while i > 0
      invariant i < |items| && a.Length == |items|
      invariant multiset(a[..]) == multiset(items)
      invariant (forall k :: 0 < k < |items| ==> picks[k] == k) ==> a[..] == items
    {
      var j := picks[i];
      ghost var before := a[..];
      a[i], a[j] := a[j], a[i];
      assert a[..] == Swapped(before, i, j);
      SwappedIsPermutation(before, i, j);
      i := i - 1;
    }
    shuffled := a[..];
  }

  /** `s` with the elements at `i` and `j` exchanged. */
  function Swapped<T>(s: seq<T>, i: nat, j: nat): (r: seq<T>)
    requires i < |s| && j < |s|
    ensures |r| == |s| && r[i] == s[j] && r[j] == s[i]
    ensures forall k :: 0 <= k < |s| && k != i && k != j ==> r[k] == s[k]
  {
    s[i := s[j]][j := s[i]]
  }

  /** Exchanging two elements permutes the sequence, and exchanging an
      element with itself changes nothing. */
  lemma SwappedIsPermutation<T>(s: seq<T>, i: nat, j: nat)
    requires i < |s| && j < |s|
    ensures multiset(Swapped(s, i, j)) == multiset(s)
    ensures i == j ==> Swapped(s, i, j) == s
  {
  }

  /** The answer of `GET /quiz/:subject`. */
  datatype QuestionsResponse<T> = QuizNotFound | Questions(items: seq<T>)

  /** `GET /quiz/:subject` once the case-insensitive subject query has
      returned `found`: 404 when nothing matched, otherwise two shuffles and
      the first min(20, n) questions. */
  method GetQuestions<T>(found: seq<T>, firstPicks: seq<int>, secondPicks: seq<int>)
    returns (r: QuestionsResponse<T>)
    requires ValidPicks(firstPicks, |found|) && ValidPicks(secondPicks, |found|)
    ensures r.QuizNotFound? <==> |found| == 0
    ensures r.Questions? ==> |r.items| == Min(MaxQuestions, |found|)
    ensures r.Questions? ==> multiset(r.items) <= multiset(found)
  {
    if |found| == 0 {
      return QuizNotFound;
    }
    var firstShuffle := ShuffleArray(found, firstPicks);
    var finalShuffled := ShuffleArray(firstShuffle, secondPicks);
    var n := Min(MaxQuestions, |found|);
    PrefixSubMultiset(finalShuffled, n);
    r := Questions(finalShuffled[..n]);
  }

  /** A prefix takes no element more often than the whole sequence has it. */
  lemma {:induction false} PrefixSubMultiset<T>(s: seq<T>, n: nat)
    requires n <= |s|
    ensures multiset(s[..n]) <= multiset(s)
  {
    assert s == s[..n] + s[n..];
    calc {
      multiset(s);
      multiset(s[..n] + s[n..]);
      multiset(s[..n]) + multiset(s[n..]);
    }
  }

  // ---------------------------------------------------------------------------
  // Streak engine
  // ---------------------------------------------------------------------------

  /** The pair `calculateStreak` returns. */
  datatype StreakUpdate = StreakUpdate(newCurrentStreak: int, newLongestStreak: int)

  /** `calculateStreak(user, quizDate)`, reading the user's current and
      longest streak and last quiz date; `now` is the clock reading that
      gives `today`, and `yesterday` is the day before it. */
  function CalculateStreak(currentStreak: int, longestStreak: int, lastQuizDate: Option<int>,
                           quizDate: int, now: int): (r: StreakUpdate)
    ensures r.newLongestStreak >= r.newCurrentStreak
    ensures lastQuizDate.None? ==> r == StreakUpdate(1, 1)
    ensures lastQuizDate.Some? ==> r.newLongestStreak == Max(longestStreak, r.newCurrentStreak)
  {
    var today := Day(now);
    var yesterday := today - 1;
    var newCurrent :=
      if lastQuizDate.None? then 1
      else if Day(quizDate) == today then
        var lastDay := Day(lastQuizDate.value);
        if lastDay == today then currentStreak
        else if lastDay == yesterday then currentStreak + 1
        else if lastDay < yesterday then 1
        else currentStreak
      else currentStreak;
    var longest := if lastQuizDate.None? then 1 else longestStreak;
    StreakUpdate(newCurrent, if newCurrent > longest then newCurrent else longest)
  }

  /** The branch table of `calculateStreak`, case by case. */
  lemma StreakBranches(currentStreak: int, longestStreak: int, last: int, quizDate: int, now: int)
    ensures var r := CalculateStreak(currentStreak, longestStreak, Some(last), quizDate, now);
      && (Day(quizDate) == Day(now) && Day(last) == Day(now) - 1 ==> r.newCurrentStreak == currentStreak + 1)
      && (Day(quizDate) == Day(now) && Day(last) < Day(now) - 1 ==> r.newCurrentStreak == 1)
      && (Day(quizDate) == Day(now) && Day(last) == Day(now) ==> r.newCurrentStreak == currentStreak)
      && (Day(quizDate) == Day(now) && Day(last) > Day(now) ==> r.newCurrentStreak == currentStreak)
      && (Day(quizDate) != Day(now) ==> r.newCurrentStreak == currentStreak)
  {
  }

  /** Attempts on consecutive days grow the streak by one: the second
      attempt, made the day after the first, finds yesterday's date stored
      and extends the streak the first one recorded. */
  lemma NextDayExtends(currentStreak: int, longestStreak: int, lastQuizDate: Option<int>,
                       quiz1: int, now1: int, quiz2: int, now2: int)
    requires Day(quiz1) == Day(now1)
    requires Day(quiz2) == Day(now2) == Day(now1) + 1
    ensures var s1 := CalculateStreak(currentStreak, longestStreak, lastQuizDate, quiz1, now1);
      var s2 := CalculateStreak(s1.newCurrentStreak, s1.newLongestStreak, Some(quiz1), quiz2, now2);
      && s2.newCurrentStreak == s1.newCurrentStreak + 1
      && s2.newLongestStreak == Max(s1.newLongestStreak, s2.newCurrentStreak)
  {
  }

  // ---------------------------------------------------------------------------
  // Lazy reset
  // ---------------------------------------------------------------------------

  /** The read-side streak rule shared by `checkAndResetStreak`, `GET
      /auth/profile` and `GET /auth/streak`: the streak is lost (0) when the
      last quiz day lies before yesterday, and kept otherwise. */
  function ResetStreak(currentStreak: int, lastQuizDate: Option<int>, now: int): (c: int)
    ensures (lastQuizDate.Some? && Day(lastQuizDate.value) < Day(now) - 1) ==> c == 0
    ensures !(lastQuizDate.Some? && Day(lastQuizDate.value) < Day(now) - 1) ==> c == currentStreak
  {
    match lastQuizDate
    case None => currentStreak
    case Some(last) => if Day(last) < Day(now) - 1 then 0 else currentStreak
  }

  /** A last quiz today or yesterday never loses the streak, and resetting
      twice is resetting once. */
  lemma ResetProperties(currentStreak: int, lastQuizDate: Option<int>, now: int)
    ensures lastQuizDate.Some? && Day(lastQuizDate.value) >= Day(now) - 1 ==>
      ResetStreak(currentStreak, lastQuizDate, now) == currentStreak
    ensures ResetStreak(ResetStreak(currentStreak, lastQuizDate, now), lastQuizDate, now)
      == ResetStreak(currentStreak, lastQuizDate, now)
    ensures currentStreak >= 0 ==> 0 <= ResetStreak(currentStreak, lastQuizDate, now) <= currentStreak
  {
  }

  /** The lazy reset never changes what the next attempt of the same day
      records: `calculateStreak` on a reset state gives the same pair as on
      the state before the reset (when the longest streak is at least the
      current one, as the streak invariant keeps it). */
  lemma ResetInvisibleToNextAttempt(currentStreak: int, longestStreak: int, lastQuizDate: Option<int>,
                                    quizDate: int, now: int)
    requires 0 <= currentStreak <= longestStreak
    requires Day(quizDate) == Day(now)
    ensures CalculateStreak(ResetStreak(currentStreak, lastQuizDate, now), longestStreak, lastQuizDate, quizDate, now)
         == CalculateStreak(currentStreak, longestStreak, lastQuizDate, quizDate, now)
  {
  }

  /** `checkAndResetStreak(user)`: applies the lazy reset to the user in
      place and returns the same user. */
  method CheckAndResetStreak(user: User, now: int) returns (u: User)
    modifies user
    ensures u == user
    ensures user.currentStreak == ResetStreak(old(user.currentStreak), old(user.lastQuizDate), now)
    ensures user.longestStreak == old(user.longestStreak) && user.lastQuizDate == old(user.lastQuizDate)
    ensures user.streakHistory == old(user.streakHistory) && user.quizHistory == old(user.quizHistory)
    ensures user.name == old(user.name) && user.email == old(user.email)
    ensures user.password == old(user.password) && user.role == old(user.role)
    ensures user.profileImage == old(user.profileImage)
  {
    if user.lastQuizDate.None? {
      return user;
    }
    var today := Day(now);
    var yesterday := today - 1;
    var lastQuizDay := Day(user.lastQuizDate.value);
    if lastQuizDay < yesterday {
      user.currentStreak := 0;
    }
    return user;
  }

  // ---------------------------------------------------------------------------
  // Streak history
  // ---------------------------------------------------------------------------

  /** `streakHistory.find(...)`: the position of the first entry whose date
      falls on `day`, if any. */
  function EntryForDay(history: seq<StreakEntry>, day: int): (r: Option<nat>)
    ensures r.Some? ==> r.value < |history| && Day(history[r.value].date) == day
    ensures r.Some? ==> forall j :: 0 <= j < r.value ==> Day(history[j].date) != day
    ensures r.None? ==> forall j :: 0 <= j < |history| ==> Day(history[j].date) != day
  {
    if history == [] then None
    else if Day(history[0].date) == day then Some(0)
    else
      match EntryForDay(history[1..], day)
      case None => None
      case Some(k) => Some(k + 1)
  }

  /** The history update of `save-result`: today's entry, when there is one,
      takes the new streak and one more completed quiz; otherwise an entry
      for today's midnight with a count of one is appended. */
  function UpsertHistory(history: seq<StreakEntry>, now: int, streakCount: int): (r: seq<StreakEntry>)
    ensures |history| <= |r| <= |history| + 1
    ensures forall j :: 0 <= j < |history| ==> Day(r[j].date) == Day(history[j].date)
    ensures forall j :: 0 <= j < |history| && Day(history[j].date) != Day(now) ==> r[j] == history[j]
    ensures exists j :: 0 <= j < |r| && Day(r[j].date) == Day(now) && r[j].streakCount == streakCount
  {
    match EntryForDay(history, Day(now))
    case Some(k) =>
      history[k := history[k].(streakCount := streakCount,
                               quizzesCompleted := history[k].quizzesCompleted + 1)]
    case None =>
      var r := history + [NewStreakEntry(Midnight(now), streakCount, Some(1))];
      assert Day(r[|history|].date) == Day(now);
      r
  }

  /** When today already has an entry, exactly that entry changes: its
      streak count is overwritten, its counter goes up by one, and the list
      keeps its length. */
  lemma UpsertExistingDay(history: seq<StreakEntry>, now: int, streakCount: int, k: nat)
    requires k < |history| && Day(history[k].date) == Day(now)
    requires OnePerDay(history)
    ensures var r := UpsertHistory(history, now, streakCount);
      && |r| == |history|
      && r[k] == StreakEntry(history[k].date, streakCount, history[k].quizzesCompleted + 1)
      && forall j :: 0 <= j < |history| && j != k ==> r[j] == history[j]
  {
  }

  /** When today has no entry yet, a new one is appended and nothing else
      changes. */
  lemma UpsertNewDay(history: seq<StreakEntry>, now: int, streakCount: int)
    requires forall j :: 0 <= j < |history| ==> Day(history[j].date) != Day(now)
    ensures UpsertHistory(history, now, streakCount)
         == history + [StreakEntry(Midnight(now), streakCount, 1)]
  {
  }

  /** After the update today has exactly one entry whatever the history held,
      and the one-entry-per-day and positive-counter invariants are kept. */
  lemma {:induction false} UpsertKeepsInvariants(history: seq<StreakEntry>, now: int, streakCount: int)
    requires OnePerDay(history) && CountsPositive(history)
    ensures var r := UpsertHistory(history, now, streakCount);
      && OnePerDay(r) && CountsPositive(r)
      && exists k :: 0 <= k < |r| && Day(r[k].date) == Day(now)
  {
    var r := UpsertHistory(history, now, streakCount);
    match EntryForDay(history, Day(now))
    case Some(k) =>
      assert forall j :: 0 <= j < |r| ==> Day(r[j].date) == Day(history[j].date);
      assert Day(r[k].date) == Day(now);
    case None =>
      assert r[|history|].date == Midnight(now);
      assert Day(r[|history|].date) == Day(now);
      assert forall j :: 0 <= j < |history| ==> r[j] == history[j];
  }

  // ---------------------------------------------------------------------------
  // POST /quiz/save-result
  // ---------------------------------------------------------------------------

  /** The request body of `save-result`; the three lists may be absent. */
  datatype SaveRequest = SaveRequest(
    subject: string,
    score: int,
    totalQuestions: int,
    questions: Option<seq<string>>,
    userAnswers: Option<seq<string>>,
    correctAnswers: Option<seq<string>>)

  /** The answer of `save-result`. */
  datatype SaveResponse = UserNotFound | Saved(current: int, longest: int)

  /** `list || []`. */
  function OrEmpty(list: Option<seq<string>>): (r: seq<string>)
    ensures list.Some? ==> r == list.value
    ensures list.None? ==> r == []
  {
    match list
    case None => []
    case Some(l) => l
  }

  /** The attempt `save-result` appends: completed at the request's instant,
      with each missing list stored as the empty list. */
  function AttemptOf(body: SaveRequest, quizDate: int): (a: Attempt)
    ensures a.subject == body.subject && a.score == body.score
    ensures a.totalQuestions == body.totalQuestions && a.completedAt == quizDate
    ensures a.questions == OrEmpty(body.questions) && a.userAnswers == OrEmpty(body.userAnswers)
    ensures a.correctAnswers == OrEmpty(body.correctAnswers)
  {
    Attempt(body.subject, body.score, body.totalQuestions, quizDate,
            OrEmpty(body.questions), OrEmpty(body.userAnswers), OrEmpty(body.correctAnswers))
  }

  /** `POST /quiz/save-result` for the user `findById` returned (null when
      there is none). `quizDate` is the attempt's instant and `now` the
      later clock reading that fixes "today". */
  method SaveResult(user: User?, body: SaveRequest, quizDate: int, now: int) returns (r: SaveResponse)
    modifies user
    ensures user == null ==> r == UserNotFound
    ensures user != null ==>
      var s := CalculateStreak(old(user.currentStreak), old(user.longestStreak), old(user.lastQuizDate), quizDate, now);
      && r == Saved(s.newCurrentStreak, s.newLongestStreak)
      && user.quizHistory == old(user.quizHistory) + [AttemptOf(body, quizDate)]
      && user.currentStreak == s.newCurrentStreak
      && user.longestStreak == s.newLongestStreak
      && user.lastQuizDate == Some(quizDate)
      && user.streakHistory == UpsertHistory(old(user.streakHistory), now, s.newCurrentStreak)
    ensures user != null ==>
      && user.name == old(user.name) && user.email == old(user.email)
      && user.password == old(user.password) && user.role == old(user.role)
      && user.profileImage == old(user.profileImage)
  {
    if user == null {
      return UserNotFound;
    }
    var s := CalculateStreak(user.currentStreak, user.longestStreak, user.lastQuizDate, quizDate, now);
    user.quizHistory := user.quizHistory + [AttemptOf(body, quizDate)];
    user.currentStreak := s.newCurrentStreak;
    user.longestStreak := s.newLongestStreak;
    user.lastQuizDate := Some(quizDate);
    user.streakHistory := UpsertHistory(user.streakHistory, now, s.newCurrentStreak);
    r := Saved(s.newCurrentStreak, s.newLongestStreak);
  }

  /** What `save-result` does to the streak fields keeps the streak
      invariant: 0 <= current <= longest, one entry per day, counters >= 1. */
  lemma SaveKeepsStreakInvariant(currentStreak: int, longestStreak: int, lastQuizDate: Option<int>,
                                 history: seq<StreakEntry>, quizDate: int, now: int)
    requires StreakWellFormed(currentStreak, longestStreak, history)
    ensures var s := CalculateStreak(currentStreak, longestStreak, lastQuizDate, quizDate, now);
      StreakWellFormed(s.newCurrentStreak, s.newLongestStreak, UpsertHistory(history, now, s.newCurrentStreak))
  {
    var s := CalculateStreak(currentStreak, longestStreak, lastQuizDate, quizDate, now);
    UpsertKeepsInvariants(history, now, s.newCurrentStreak);
  }

  /** The lazy reset keeps the streak invariant too. */
  lemma ResetKeepsStreakInvariant(currentStreak: int, longestStreak: int, lastQuizDate: Option<int>,
                                  history: seq<StreakEntry>, now: int)
    requires StreakWellFormed(currentStreak, longestStreak, history)
    ensures StreakWellFormed(ResetStreak(currentStreak, lastQuizDate, now), longestStreak, history)
  {
  }

  /** Two attempts on the same day: the second keeps the current streak the
      first produced and bumps the day's counter from 1 to 2, without adding
      an entry. */
  lemma SameDayRepeat(currentStreak: int, longestStreak: int, lastQuizDate: Option<int>,
                         history: seq<StreakEntry>, quiz1: int, quiz2: int, now: int)
    requires forall j :: 0 <= j < |history| ==> Day(history[j].date) != Day(now)
    requires Day(quiz1) == Day(now) && Day(quiz2) == Day(now)
    ensures
      var s1 := CalculateStreak(currentStreak, longestStreak, lastQuizDate, quiz1, now);
      var h1 := UpsertHistory(history, now, s1.newCurrentStreak);
      var s2 := CalculateStreak(s1.newCurrentStreak, s1.newLongestStreak, Some(quiz1), quiz2, now);
      var h2 := UpsertHistory(h1, now, s2.newCurrentStreak);
      && s2 == s1
      && |h1| == |history| + 1 && h1[|history|].quizzesCompleted == 1
      && |h2| == |h1| && h2[|history|].quizzesCompleted == 2
      && h2[|history|].streakCount == s1.newCurrentStreak
  {
  }
}
