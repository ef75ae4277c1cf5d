/**
 * backend/routes/auth.js: field validation of `POST /auth/register` and
 * `POST /auth/login`, and the two reads of a user's streak, `GET
 * /auth/profile` and `GET /auth/streak`, which apply the lazy streak reset
 * to the loaded document before answering; `/streak` also sorts the
 * document's streak history newest first.
 *
 * Password hashing, token signing and the database are not modelled: the
 * registered e-mail addresses, the stored hash and the hash comparison are
 * parameters.
 */
module AuthRoutes {
  import opened Common
  import opened UserModel
  import opened QuizRoutes

  /** An HTTP status and the `message` of its JSON body. */
  datatype Reply = Reply(status: int, message: string)

  // ---------------------------------------------------------------------------
  // POST /auth/register and POST /auth/login
  // ---------------------------------------------------------------------------

  /** `POST /auth/register`: 400 when a field is missing or the e-mail is
      already registered, 201 when the new user is stored. */
  function Register(name: Option<string>, email: Option<string>, password: Option<string>,
                    registered: set<string>): (r: Reply)
    ensures r.status == 400 || r.status == 201
    ensures !Truthy(name) || !Truthy(email) || !Truthy(password) ==> r == Reply(400, "All fields are required")
    ensures Truthy(name) && Truthy(email) && Truthy(password) ==>
      (r.status == 201 <==> email.value !in registered)
    ensures r.status == 201 ==> r.message == "Registration successful!"
    ensures Truthy(name) && Truthy(email) && Truthy(password) && email.value in registered ==>
      r == Reply(400, "User already exists")
  {
    if !Truthy(name) || !Truthy(email) || !Truthy(password) then Reply(400, "All fields are required")
    else if email.value in registered then Reply(400, "User already exists")
    else Reply(201, "Registration successful!")
  }

  /** `POST /auth/login`. `account` is the stored password hash of the user
      with that e-mail (None when there is none) and `matches` stands for
      `bcrypt.compare`. */
  function Login(email: Option<string>, password: Option<string>, account: Option<string>,
                 matches: (string, string) -> bool): (r: Reply)
    ensures !Truthy(email) || !Truthy(password) ==> r == Reply(400, "Email and password are required")
    ensures Truthy(email) && Truthy(password) ==>
      (r.status == 200 <==> account.Some? && matches(password.value, account.value))
    ensures Truthy(email) && Truthy(password) && r.status != 200 ==> r == Reply(401, "Invalid email or password")
    ensures r.status == 200 ==> r.message == "Login successful"
  {
    if !Truthy(email) || !Truthy(password) then Reply(400, "Email and password are required")
    else if account.None? then Reply(401, "Invalid email or password")
    else if !matches(password.value, account.value) then Reply(401, "Invalid email or password")
    else Reply(200, "Login successful")
  }

  /** An unknown e-mail and a wrong password get the same answer, so a
      login attempt does not reveal which e-mails are registered. */
  lemma LoginHidesUnknownEmail(email: Option<string>, password: Option<string>, hash: string,
                               matches: (string, string) -> bool)
    requires Truthy(email) && Truthy(password)
    requires !matches(password.value, hash)
    ensures Login(email, password, None, matches) == Login(email, password, Some(hash), matches)
    ensures Login(email, password, None, matches).status == 401
  {
  }

  // ---------------------------------------------------------------------------
  // Streak history ordering
  // ---------------------------------------------------------------------------

  /** Entries ordered by date, newest first. */
  ghost predicate NewestFirst(history: seq<StreakEntry>)
  {
    forall i, j :: 0 <= i < j < |history| ==> history[i].date >= history[j].date
  }

  /** Places `e` in a newest-first list, before every entry that is not
      newer than it (so `e`, which came first, stays ahead of equal dates). */
  function InsertNewestFirst(e: StreakEntry, sorted: seq<StreakEntry>): (r: seq<StreakEntry>)
    ensures |r| == |sorted| + 1
    ensures multiset(r) == multiset(sorted) + multiset{e}
    ensures forall k :: 0 <= k < |r| ==> r[k] == e || r[k] in sorted
    ensures NewestFirst(sorted) ==> NewestFirst(r)
  {
    if sorted == [] || sorted[0].date <= e.date then [e] + sorted
    else
      var rest := InsertNewestFirst(e, sorted[1..]);
      InsertKeepsEntries(e, sorted, rest);
      InsertAfterNewer(e, sorted, rest);
      [sorted[0]] + rest
  }

  /** The step case of the insertion, for the entries: `rest` is `e` placed
      into the tail of `sorted`, so the head of `sorted` in front of it holds
      the entries of `sorted` and `e`. */
  lemma InsertKeepsEntries(e: StreakEntry, sorted: seq<StreakEntry>, rest: seq<StreakEntry>)
    requires sorted != []
    requires multiset(rest) == multiset(sorted[1..]) + multiset{e}
    requires forall k :: 0 <= k < |rest| ==> rest[k] == e || rest[k] in sorted[1..]
    ensures multiset([sorted[0]] + rest) == multiset(sorted) + multiset{e}
    ensures forall k :: 0 <= k < |rest| + 1 ==> ([sorted[0]] + rest)[k] == e || ([sorted[0]] + rest)[k] in sorted
  {
    assert sorted == [sorted[0]] + sorted[1..];
    var r := [sorted[0]] + rest;
    forall k | 0 < k < |r|
      ensures r[k] == e || r[k] in sorted
    {
      assert r[k] == rest[k - 1];
    }
  }

  /** The step case of the insertion, for the order: the head of `sorted` is
      newer than `e` and than every later entry, so it may stay in front. */
  lemma InsertAfterNewer(e: StreakEntry, sorted: seq<StreakEntry>, rest: seq<StreakEntry>)
    requires sorted != [] && sorted[0].date > e.date
    requires forall k :: 0 <= k < |rest| ==> rest[k] == e || rest[k] in sorted[1..]
    requires NewestFirst(sorted) ==> NewestFirst(rest)
    ensures NewestFirst(sorted) ==> NewestFirst([sorted[0]] + rest)
  {
    var r := [sorted[0]] + rest;
    if NewestFirst(sorted) {
      forall i, j | 0 <= i < j < |r|
        ensures r[i].date >= r[j].date
      {
        assert r[j] == rest[j - 1];
        if i == 0 && rest[j - 1] != e {
          var m :| 0 <= m < |sorted| - 1 && sorted[1..][m] == rest[j - 1];
          assert sorted[m + 1] == rest[j - 1];
        } else if i > 0 {
          assert r[i] == rest[i - 1];
        }
      }
    }
  }

  /** `streakHistory.sort((a, b) => new Date(b.date) - new Date(a.date))`:
      a stable sort by date, newest first. */
  function SortNewestFirst(history: seq<StreakEntry>): (r: seq<StreakEntry>)
    ensures |r| == |history|
    ensures multiset(r) == multiset(history)
    ensures NewestFirst(r)
  {
    if history == [] then []
    else
      assert history == [history[0]] + history[1..];
      InsertNewestFirst(history[0], SortNewestFirst(history[1..]))
  }

  // ---------------------------------------------------------------------------
  // GET /auth/profile and GET /auth/streak
  // ---------------------------------------------------------------------------

  /** The answer of `GET /auth/profile`: the (reset) user, or the 500 that
      the handler's catch block sends when no user was found and reading
      `user.lastQuizDate` throws. */
  datatype ProfileReply = ProfileOf(user: User) | FailedToFetchProfile

  /** `GET /auth/profile` for the user `findById` returned. */
  method GetProfile(user: User?, now: int) returns (r: ProfileReply)
    modifies user
    ensures user == null ==> r == FailedToFetchProfile
    ensures user != null ==> r == ProfileOf(user)
    ensures user != null ==>
      && user.currentStreak == ResetStreak(old(user.currentStreak), old(user.lastQuizDate), now)
      && user.longestStreak == old(user.longestStreak) && user.lastQuizDate == old(user.lastQuizDate)
      && user.streakHistory == old(user.streakHistory) && user.quizHistory == old(user.quizHistory)
      && user.name == old(user.name) && user.email == old(user.email)
      && user.password == old(user.password) && user.role == old(user.role)
      && user.profileImage == old(user.profileImage)
  {
    if user == null {
      return FailedToFetchProfile;
    }
    var today := Day(now);
    var yesterday := today - 1;
    if user.lastQuizDate.Some? {
      var lastQuizDay := Day(user.lastQuizDate.value);
      if lastQuizDay < yesterday {
        user.currentStreak := 0;
      }
    }
    r := ProfileOf(user);
  }

  /** The answer of `GET /auth/streak`. */
  datatype StreakReply =
    | StreakUserNotFound
    | StreakInfo(currentStreak: int, longestStreak: int, lastQuizDate: Option<int>,
                 streakHistory: seq<StreakEntry>)

  /** `GET /auth/streak` for the user `findById` returned: 404 without a
      user; otherwise the lazy reset, the in-place newest-first sort of the
      history, and the four streak fields. */
  method GetStreak(user: User?, now: int) returns (r: StreakReply)
    modifies user
    ensures user == null ==> r == StreakUserNotFound
    ensures user != null ==>
      && user.currentStreak == ResetStreak(old(user.currentStreak), old(user.lastQuizDate), now)
      && user.streakHistory == SortNewestFirst(old(user.streakHistory))
      && user.longestStreak == old(user.longestStreak) && user.lastQuizDate == old(user.lastQuizDate)
      && user.quizHistory == old(user.quizHistory)
      && user.name == old(user.name) && user.email == old(user.email)
      && user.password == old(user.password) && user.role == old(user.role)
      && user.profileImage == old(user.profileImage)
      && r == StreakInfo(user.currentStreak, user.longestStreak, user.lastQuizDate, user.streakHistory)
  {
    if user == null {
      return StreakUserNotFound;
    }
    var today := Day(now);
    var yesterday := today - 1;
    if user.lastQuizDate.Some? {
      var lastQuizDay := Day(user.lastQuizDate.value);
      if lastQuizDay < yesterday {
        user.currentStreak := 0;
      }
    }
    user.streakHistory := SortNewestFirst(user.streakHistory);
    r := StreakInfo(user.currentStreak, user.longestStreak, user.lastQuizDate, user.streakHistory);
  }

  /** What `/streak` answers is a permutation of the stored history, newest
      first, with the streak reset exactly when the last quiz day is before
      yesterday. */
  lemma StreakReplyContents(currentStreak: int, lastQuizDate: Option<int>, history: seq<StreakEntry>, now: int)
    ensures var sorted := SortNewestFirst(history);
      && multiset(sorted) == multiset(history) && NewestFirst(sorted)
      && (ResetStreak(currentStreak, lastQuizDate, now) == 0 <==>
            (lastQuizDate.Some? && Day(lastQuizDate.value) < Day(now) - 1) || currentStreak == 0)
  {
  }

  /** Sorting keeps the one-entry-per-day history invariant: a permutation
      of a history with distinct days still has distinct days. */
  lemma {:induction false} SortKeepsOnePerDay(history: seq<StreakEntry>)
    requires OnePerDay(history)
    ensures OnePerDay(SortNewestFirst(history))
  {
    var sorted := SortNewestFirst(history);
    forall i, j | 0 <= i < j < |sorted|
      ensures Day(sorted[i].date) != Day(sorted[j].date)
    {
      if Day(sorted[i].date) == Day(sorted[j].date) {
        PermutationPositions(history, sorted, i, j);
        assert false;
      }
    }
  }

  /** Two positions of a permutation come from two distinct positions of the
      original sequence. */
  lemma {:induction false} PermutationPositions(a: seq<StreakEntry>, b: seq<StreakEntry>, i: nat, j: nat)
    requires multiset(a) == multiset(b)
    requires i < j < |b|
    ensures exists p, q :: 0 <= p < |a| && 0 <= q < |a| && p != q && a[p] == b[i] && a[q] == b[j]
  {
    if b[i] == b[j] {
      TwoCopies(b, i, j);
      TwoPositions(a, b[i]);
    } else {
      assert b[i] in multiset(a) && b[j] in multiset(a);
      var p :| 0 <= p < |a| && a[p] == b[i];
      var q :| 0 <= q < |a| && a[q] == b[j];
    }
  }

  /** Two positions holding `x` mean at least two copies of `x`. */
  lemma {:induction false} TwoCopies(s: seq<StreakEntry>, i: nat, j: nat)
    requires i < j < |s| && s[i] == s[j]
    ensures multiset(s)[s[i]] >= 2
  {
    assert s == s[..i] + [s[i]] + s[i + 1..j] + [s[j]] + s[j + 1..];
  }

  /** At least two copies of `x` sit at two distinct positions. */
  lemma {:induction false} TwoPositions(s: seq<StreakEntry>, x: StreakEntry)
    requires multiset(s)[x] >= 2
    ensures exists p, q :: 0 <= p < |s| && 0 <= q < |s| && p != q && s[p] == x && s[q] == x
  {
    assert x in multiset(s);
    var p :| 0 <= p < |s| && s[p] == x;
    assert s == s[..p] + [s[p]] + s[p + 1..];
    var rest := s[..p] + s[p + 1..];
    assert multiset(s) == multiset(rest) + multiset{x};
    assert x in multiset(rest);
    var q' :| 0 <= q' < |rest| && rest[q'] == x;
    var q := if q' < p then q' else q' + 1;
    assert s[q] == x;
  }
}
