/**
 * The user document of backend/models/User.js: the attempt and streak-history
 * sub-documents as values, the user document itself as an object whose
 * fields the route handlers overwrite in place, and the calendar-day
 * truncation that every streak rule compares with.
 */
module UserModel {
  import opened Common

  // ---------------------------------------------------------------------------
  // Calendar days
  // ---------------------------------------------------------------------------

  /** Instants are millisecond timestamps, as `Date.getTime()` returns them. */
  const MsPerDay: int := 86400000

  /** The day number of an instant: the instant with its time of day dropped. */
  function Day(t: int): (d: int)
    ensures d * MsPerDay <= t < d * MsPerDay + MsPerDay
  {
    t / MsPerDay
  }

  /** The first instant of the day of `t` (`setHours(0, 0, 0, 0)`). */
  function Midnight(t: int): (m: int)
    ensures Day(m) == Day(t)
    ensures m <= t < m + MsPerDay
  {
    Day(t) * MsPerDay
  }

  // ---------------------------------------------------------------------------
  // Sub-documents
  // ---------------------------------------------------------------------------

  /** One completed quiz (quizAttemptSchema). No length relation is imposed
      between the three string lists. */
  datatype Attempt = Attempt(
    subject: string,
    score: int,
    totalQuestions: int,
    completedAt: int,
    questions: seq<string>,
    userAnswers: seq<string>,
    correctAnswers: seq<string>)

  /** One day of streak history (streakHistorySchema). */
  datatype StreakEntry = StreakEntry(date: int, streakCount: int, quizzesCompleted: int)

  /** Default of `quizzesCompleted` when an entry is created without one. */
  const DefaultQuizzesCompleted: int := 1

  /** Builds a streak-history entry from the two required fields and the
      optional counter, which falls back to its schema default. */
  function NewStreakEntry(date: int, streakCount: int, quizzesCompleted: Option<int>): (e: StreakEntry)
    ensures e.date == date && e.streakCount == streakCount
    ensures quizzesCompleted.None? ==> e.quizzesCompleted == 1
    ensures quizzesCompleted.Some? ==> e.quizzesCompleted == quizzesCompleted.value
  {
    StreakEntry(date, streakCount,
      match quizzesCompleted
      case None => DefaultQuizzesCompleted
      case Some(n) => n)
  }

  /** The role enumeration of the user schema. */
  datatype Role = Student | Admin

  /** Schema validation of the `role` path: absent means the default
      "student"; any string outside the enumeration is rejected (None). */
  function ParseRole(role: Option<string>): (r: Option<Role>)
    ensures role.None? ==> r == Some(Student)
    ensures role.Some? ==> (r.Some? <==> role.value == "student" || role.value == "admin")
    ensures role.Some? && r.Some? ==> (r.value == Admin <==> role.value == "admin")
  {
    match role
    case None => Some(Student)
    case Some(s) =>
      if s == "student" then Some(Student)
      else if s == "admin" then Some(Admin)
      else None
  }

  /** At most one streak-history entry per calendar day. */
  ghost predicate OnePerDay(history: seq<StreakEntry>)
  {
    forall i, j :: 0 <= i < j < |history| ==> Day(history[i].date) != Day(history[j].date)
  }

  /** Every recorded day counts at least one completed quiz. */
  ghost predicate CountsPositive(history: seq<StreakEntry>)
  {
    forall i :: 0 <= i < |history| ==> history[i].quizzesCompleted >= 1
  }

  // ---------------------------------------------------------------------------
  // The user document
  // ---------------------------------------------------------------------------

  /** A user document as loaded by `User.findById`; the route handlers
      assign its fields and push onto its arrays before saving it. */
  class User {
    var name: string
    var email: string
    /** The stored bcrypt hash; hashing itself is not part of this model. */
    var password: string
    var role: Role
    var quizHistory: seq<Attempt>
    var profileImage: string
    var currentStreak: int
    var longestStreak: int
    /** `null` until the first quiz is saved. */
    var lastQuizDate: Option<int>
    var streakHistory: seq<StreakEntry>

    /** `new User({ name, email, password })`: every other path takes its
        schema default. */
    constructor (name: string, email: string, password: string)
      ensures this.name == name && this.email == email && this.password == password
      ensures role == Student && quizHistory == [] && profileImage == ""
      ensures currentStreak == 0 && longestStreak == 0
      ensures lastQuizDate == None && streakHistory == []
    {
      this.name := name;
      this.email := email;
      this.password := password;
      role := Student;
      quizHistory := [];
      profileImage := "";
      currentStreak := 0;
      longestStreak := 0;
      lastQuizDate := None;
      streakHistory := [];
    }
  }

  /** The streak invariant: 0 <= current <= longest,
      one history entry per day, and every entry counts a quiz. */
  ghost predicate StreakWellFormed(currentStreak: int, longestStreak: int, history: seq<StreakEntry>)
  {
    0 <= currentStreak <= longestStreak && OnePerDay(history) && CountsPositive(history)
  }
}
