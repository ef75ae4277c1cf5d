# StudyHub quiz, streak and profile core in Dafny

StudyHub is a study site with timed, proctored multiple-choice quizzes. This
project models the core of that site:

- **Quiz routes.** The Express server serves a shuffled set of at most 20 questions per subject. It records each finished attempt in the user's document and maintains a daily streak with a per-day history.
- **Streak reads.** The server lazily zeroes a broken streak whenever the profile or the streak is read.
- **Quiz session.** The browser runs each attempt as a small state machine: questions, selection, score, a 20-minute countdown, camera permission, face-presence polling and integrity-violation counting.
- **Profile page.** The profile page aggregates the attempt history into statistics, pages, per-question reviews, per-subject groups and a trend sentence.

Modules, one per source file, plus a shared one:

| file | module | models |
|---|---|---|
| `common.dfy` | `Common` | `Option`, `Min`, `Max` |
| `user_model.dfy` | `UserModel` | the user document (a class whose fields the handlers assign), attempts and streak entries (values), calendar days |
| `quiz_routes.dfy` | `QuizRoutes` | `shuffleArray`, `GET /quiz/:subject`, `calculateStreak`, `checkAndResetStreak`, `POST /quiz/save-result` |
| `auth_routes.dfy` | `AuthRoutes` | register and login validation, `GET /auth/profile`, `GET /auth/streak` |
| `subject_quiz.dfy` | `SubjectQuiz` | `formatTime`, face classification, the attempt session as class `QuizSession` |
| `profile.dfy` | `Profile` | flames, statistics, best attempt, distinct subjects, pagination, quiz review, per-subject grouping, trend |

Conventions:

- **Time.** Instants are integer milliseconds. A calendar day is the instant divided by 86,400,000, rounded down. "Today" comes from a `now` parameter wherever the source reads the clock.
- **State.** Code that assigns fields in place is a class or a method with `modifies`:
  - the user document and the handlers that change it;
  - the React component state and each handler, effect and timer callback, with one method per step.
  Code that only computes is a function.
- **React reads.** A React handler reads the state of the render it was created in. `QuizSession.FinishFrom` therefore takes the score, selection and index explicitly, so that `HandleNext` passes the values from before its own updates.

## Model

| member | source | states |
|---|---|---|
| UserModel.Day | backend/routes/quiz.js:20-24 | an instant lies inside its day: day·86400000 ≤ t < (day+1)·86400000 |
| UserModel.Midnight | backend/routes/quiz.js:166-167 | the start of today is on the same day as `now` and not after it |
| UserModel.NewStreakEntry | backend/models/User.js:13-17 | date and streak count are kept; a missing `quizzesCompleted` defaults to 1 |
| UserModel.ParseRole | backend/models/User.js:23 | a missing role is `student`; exactly "student" and "admin" are accepted |
| UserModel.User.constructor | backend/models/User.js:19-31 | a new user has role student, no attempts, no image, streaks 0, no last quiz date, empty history |
| QuizRoutes.ShuffleArray | backend/routes/quiz.js:9-16 | the result is a permutation of the input (same multiset, same length); the input sequence is a value and is not changed |
| QuizRoutes.GetQuestions | backend/routes/quiz.js:109-121 | 404 exactly when no question matches; otherwise min(20, n) questions, all drawn from the matches without repetition |
| QuizRoutes.CalculateStreak | backend/routes/quiz.js:19-86 | first-ever attempt gives (1, 1); afterwards longest = max(stored longest, new current), so longest ≥ current |
| QuizRoutes.StreakBranches | backend/routes/quiz.js:40-75 | an attempt today extends a streak whose last day was yesterday, restarts it at 1 after a gap, and keeps it otherwise; an attempt not dated today keeps it |
| QuizRoutes.NextDayExtends | backend/routes/quiz.js:49-60 | two attempts on consecutive days: the second streak is the first plus one |
| QuizRoutes.ResetStreak | backend/routes/quiz.js:89-107 | the streak becomes 0 exactly when a last quiz day exists and lies before yesterday, and is kept otherwise |
| QuizRoutes.ResetProperties | backend/routes/quiz.js:98-104 | a last quiz today or yesterday keeps the streak; resetting twice equals resetting once; the result is between 0 and the old streak |
| QuizRoutes.ResetInvisibleToNextAttempt | backend/routes/quiz.js:89-107 | an attempt today computes the same new streak pair whether or not the lazy reset ran first |
| QuizRoutes.CheckAndResetStreak | backend/routes/quiz.js:89-107 | returns the same user; only `currentStreak` changes, to the reset value |
| QuizRoutes.EntryForDay | backend/routes/quiz.js:169-173 | finds the first history entry on the given day, or reports that none exists |
| QuizRoutes.UpsertHistory | backend/routes/quiz.js:165-186 | the history grows by at most one entry; existing entries keep their days, entries of other days are untouched, and some entry of today carries the new streak count |
| QuizRoutes.UpsertExistingDay | backend/routes/quiz.js:175-178 | with an entry for today, only that entry changes: new streak count, counter + 1, same length |
| QuizRoutes.UpsertNewDay | backend/routes/quiz.js:179-186 | without an entry for today, one entry (midnight, streak, 1) is appended and nothing else changes |
| QuizRoutes.UpsertKeepsInvariants | backend/routes/quiz.js:165-186 | the history update keeps one entry per day and positive counters, and leaves an entry for today |
| QuizRoutes.OrEmpty | backend/routes/quiz.js:155-157 | a list that was sent is stored as sent; a missing one is stored as [] |
| QuizRoutes.AttemptOf | backend/routes/quiz.js:150-158 | the pushed attempt carries the request's subject, score and total, the attempt instant as `completedAt`, and the three lists with missing ones as [] |
| QuizRoutes.SaveResult | backend/routes/quiz.js:132-202 | 404 without a user; otherwise appends the attempt (missing lists as []), stores the computed streaks and the quiz date, updates the history, and leaves identity fields alone |
| QuizRoutes.SaveKeepsStreakInvariant | backend/routes/quiz.js:146-186 | saving a result keeps 0 ≤ current ≤ longest, one entry per day and positive counters |
| QuizRoutes.ResetKeepsStreakInvariant | backend/routes/quiz.js:101-104 | the lazy reset keeps the same streak invariant |
| QuizRoutes.SameDayRepeat | backend/routes/quiz.js:146-186 | a second attempt on the same day keeps the streak pair and raises today's counter from 1 to 2 without adding an entry |
| AuthRoutes.Register | backend/routes/auth.js:13-34 | 400 "All fields are required" when a field is missing or empty; otherwise 400 "User already exists" for a registered e-mail and 201 "Registration successful!" for a new one |
| AuthRoutes.Login | backend/routes/auth.js:36-68 | 400 "Email and password are required" when e-mail or password is missing; with both given, 200 "Login successful" exactly when an account exists and the password matches, and 401 "Invalid email or password" in every other case |
| AuthRoutes.LoginHidesUnknownEmail | backend/routes/auth.js:43-49 | an unknown e-mail and a wrong password get the identical 401 reply |
| AuthRoutes.SortNewestFirst | backend/routes/auth.js:178 | the sorted history is a permutation of the stored one, ordered by date, newest first |
| AuthRoutes.SortKeepsOnePerDay | backend/routes/auth.js:178 | sorting keeps one entry per day |
| AuthRoutes.GetProfile | backend/routes/auth.js:112-139 | applies the lazy reset to the loaded user and returns it; no user gives the 500 reply |
| AuthRoutes.GetStreak | backend/routes/auth.js:142-190 | 404 without a user; otherwise the reset, the in-place newest-first sort of the history, and the four streak fields |
| AuthRoutes.StreakReplyContents | backend/routes/auth.js:156-184 | the reply's history is a newest-first permutation of the stored one; its streak is 0 iff the last day is before yesterday or it was already 0 |
| SubjectQuiz.DecimalString | frontend/src/pages/SubjectQuiz.js:33 | `toString()` of a non-negative number: at least one character, all decimal digits, one digit below 10 and two below 100 |
| SubjectQuiz.PadStart2 | frontend/src/pages/SubjectQuiz.js:33 | text of two or more characters is kept; shorter text gets zeros in front up to exactly two characters and ends with the original |
| SubjectQuiz.FormatTime | frontend/src/pages/SubjectQuiz.js:30-34 | the text has at least five characters and a colon third from the end |
| SubjectQuiz.DecimalRoundTrip | frontend/src/pages/SubjectQuiz.js:33 | reading back the decimal text of n gives n |
| SubjectQuiz.FormatTimeRoundTrip | frontend/src/pages/SubjectQuiz.js:30-34 | every number of seconds is recovered from the text: minutes before the colon, two-digit seconds after it |
| SubjectQuiz.FormatTimeShape | frontend/src/pages/SubjectQuiz.js:30-34 | under 6000 s the text is "MM:SS", 5 characters, with MM = s div 60 and SS = s mod 60 |
| SubjectQuiz.ClassifyFaces | frontend/src/pages/SubjectQuiz.js:102-114 | exactly one face is ok, none is `none`, more than one is `multiple`, an exception is `error`; the warning is empty iff ok, and each other status shows its own fixed text ("No face detected! …", "Multiple faces detected! …", "Face detection error.") |
| SubjectQuiz.ViolationsFor | frontend/src/pages/SubjectQuiz.js:297-343 | hidden and blur add 1, copy, cut and paste add 2 (two listeners), becoming visible adds 0 |
| SubjectQuiz.QuizSession.constructor | frontend/src/pages/SubjectQuiz.js:9-27 | the initial hook values: 1200 s, timer off, permission pending, modal shown, nothing answered |
| SubjectQuiz.QuizSession.QuestionsLoaded | frontend/src/pages/SubjectQuiz.js:195-213 | the fetched questions, or none on failure, and the spinner off |
| SubjectQuiz.QuizSession.RequestCameraPermission | frontend/src/pages/SubjectQuiz.js:37-67 | granted: stream held, permission granted, modal closed; refused: permission denied |
| SubjectQuiz.QuizSession.StartTimerIfReady | frontend/src/pages/SubjectQuiz.js:216-220 | the timer becomes active only with questions loaded, no result shown and the camera granted |
| SubjectQuiz.QuizSession.SelectOption | frontend/src/pages/SubjectQuiz.js:528-535 | the clicked option becomes the selection |
| SubjectQuiz.QuizSession.FinishFrom | frontend/src/pages/SubjectQuiz.js:264-277 | adds 1 only for a non-empty selection equal to the current answer; timer off, stream released, one upload of that score and the question count, result shown; answers untouched |
| SubjectQuiz.QuizSession.FinishQuiz | frontend/src/pages/SubjectQuiz.js:264-277 | the Finish button: as above with the current state; the final score never exceeds the question count |
| SubjectQuiz.QuizSession.HandleNext | frontend/src/pages/SubjectQuiz.js:279-294 | appends exactly the selection, scores +1 iff it equals the answer, clears it, advances iff another question follows and otherwise finishes with one upload; the uploaded score counts the last answer only if it is non-empty and equal to the answer, so it differs from the displayed score when the correct answer is "" |
| SubjectQuiz.QuizSession.Tick | frontend/src/pages/SubjectQuiz.js:143-160 | nothing unless the timer runs; above 1 s it takes exactly one second off and keeps the score, the result flag, the timer, the uploads and the camera stream; at 1 s or less it finishes with the latest state: 0 s, the pending selection counted iff it is non-empty and equals the current answer, one upload of that score and the question count, timer off, stream released, answers untouched |
| SubjectQuiz.QuizSession.ResetQuiz | frontend/src/pages/SubjectQuiz.js:163-192 | index 0, no selection, score 0, 1200 s, timer off, permission pending, no answers; the violation count is kept |
| SubjectQuiz.QuizSession.OnPageEvent | frontend/src/pages/SubjectQuiz.js:297-324 | while monitoring the count rises by the listeners the event reaches, otherwise it stays; it never decreases; the banner shows iff the count > 0 |
| SubjectQuiz.QuizSession.DetectFace | frontend/src/pages/SubjectQuiz.js:95-122 | with the camera granted, a stream and a ready video, status and warning are the classification; otherwise unchanged |
| SubjectQuiz.QuizSession.FaceModelsFailedToLoad | frontend/src/pages/SubjectQuiz.js:80-90 | a failed model load sets the status to error |
| SubjectQuiz.ViolationsDoNotFinish | frontend/src/pages/SubjectQuiz.js:513-518 | three violating events take the count past the limit of 3 and the attempt is still running |
| Profile.RenderStreakFires | frontend/src/components/Profile.jsx:118-124 | exactly min(n, 10) flames, none for n ≤ 0 |
| Profile.RatioOf | frontend/src/components/Profile.jsx:136-137 | a non-zero total gives the exact quotient; 0/0 is NaN; a zero total otherwise gives an infinity |
| Profile.SumScores | frontend/src/components/Profile.jsx:131 | with non-negative scores the total score is non-negative and at least every single score |
| Profile.SumTotals | frontend/src/components/Profile.jsx:132 | with non-negative question counts the total is non-negative and at least every single count |
| Profile.SumsOfConcat | frontend/src/components/Profile.jsx:131-132 | the score and question totals of a concatenation are the sums of the parts |
| Profile.SumsBounded | frontend/src/components/Profile.jsx:131-132 | attempts scoring between 0 and their question count give 0 ≤ total score ≤ total questions |
| Profile.Greater | frontend/src/components/Profile.jsx:138 | JavaScript `>` on ratios: never true with NaN on either side or for equal values; +Infinity beats every number; on finite ratios it is the order of the reals |
| Profile.BestIndex | frontend/src/components/Profile.jsx:135-139 | the `reduce` picks a position inside a non-empty history, and no later attempt's ratio is `>` the chosen one's |
| Profile.BestIsEarliestMaximum | frontend/src/components/Profile.jsx:135-139 | with positive question counts the best attempt has the greatest ratio, and every earlier attempt a smaller one |
| Profile.EmptyFirstAttemptStaysBest | frontend/src/components/Profile.jsx:135-139 | a first attempt of 0 out of 0 (NaN) stays the best attempt whatever follows |
| Profile.DistinctSubjects | frontend/src/components/Profile.jsx:144 | each attempted subject once, nothing else, no repetition |
| Profile.DistinctSubjectsCount | frontend/src/components/Profile.jsx:144 | the number of distinct subjects is the size of the subject set |
| Profile.CalculateStats | frontend/src/components/Profile.jsx:127-155 | null iff the history is empty; otherwise the count, score and question totals, best attempt's subject, number of distinct subjects |
| Profile.SliceIndex | frontend/src/components/Profile.jsx:227 | `slice` reads an index inside the array as itself and one past the end as the length; the result is always inside the array |
| Profile.JsSlice | frontend/src/components/Profile.jsx:227 | never longer than the array; for 0 ≤ start ≤ end ≤ length it is exactly that subrange; empty when end ≤ start |
| Profile.PageOf | frontend/src/components/Profile.jsx:225-227 | whatever the page number, a page holds at most five attempts |
| Profile.TotalPages | frontend/src/components/Profile.jsx:228 | the ceiling of length / 5: 0 for no attempts, otherwise the last page is partly or fully used |
| Profile.PageShowsItsRange | frontend/src/components/Profile.jsx:225-227 | page p shows positions (p−1)·5 up to min(p·5, length), at most five |
| Profile.PageZeroIsEmpty | frontend/src/components/Profile.jsx:225-227 | a page number of 0 shows nothing |
| Profile.PagesArePrefix | frontend/src/components/Profile.jsx:225-228 | the first n pages together are the first min(5n, length) attempts |
| Profile.PagesCoverHistory | frontend/src/components/Profile.jsx:225-228 | pages 1 to totalPages in order are exactly the history |
| Profile.ShowingRange | frontend/src/components/Profile.jsx:635 | the caption's last number is at most the history length and at most four past the first; on a page that exists both are positions counted from one, first ≤ last |
| Profile.ShowingMatchesPage | frontend/src/components/Profile.jsx:635 | the "Showing a to b" caption counts exactly the attempts on that page and names their positions |
| Profile.RenderQuizDetails | frontend/src/components/Profile.jsx:301-342 | the no-data message iff a list is missing; otherwise one numbered row per question showing the question, the stored answer and the correct answer (a missing one read as ""), marked correct iff the two agree |
| Profile.AgreeingAnswersAllCorrect | frontend/src/components/Profile.jsx:314-316 | when the answers agree on every question, every row is correct, including questions with neither answer stored |
| Profile.RatiosFor | frontend/src/components/Profile.jsx:373-377 | a subject collects at most one ratio per attempt |
| Profile.RatiosForNonEmpty | frontend/src/components/Profile.jsx:373-377 | a subject has ratios iff it was attempted |
| Profile.GetSubjectSuccess | frontend/src/components/Profile.jsx:371-384 | empty for an empty history; one entry per distinct subject in first-attempt order, each with that subject's ratios in history order |
| Profile.SubjectSuccessCount | frontend/src/components/Profile.jsx:371-384 | the number of entries is the number of distinct subjects, at most the number of attempts |
| Profile.Trend | frontend/src/components/Profile.jsx:161-163 | 0 for fewer than two attempts; otherwise positive iff the last score beats the first and negative iff it is below |
| Profile.TrendSentence | frontend/src/components/Profile.jsx:159-174 | "No quiz data available." iff the history is empty; "improving" iff there are two or more attempts and the last score beats the first; "decreased" iff it is below; "stable" iff there is one attempt or the last score equals the first |

## Left out

- **Clock and time zone.** Local time zone and daylight-saving days are not modelled. A day is the UTC day of the instant (the source uses the local day). `today` is computed from a `now` parameter. In `save-result`, the attempt instant is its own parameter (`quizDate`). The source reads "today" twice, once in `calculateStreak` and once before the history update; the model uses one `now` for both, so a request that crosses midnight between the two reads is not represented.
- **Persistence and services.** Mongoose queries and `save()`, bcrypt, JWT, Cloudinary, `fetch`/axios and the `auth` middleware are not modelled. The registered e-mails, the stored hash and the hash comparison are parameters. A handler receives the user `findById` returned, or null.
- **Server errors.** The generic 500 replies of every route's catch block are not modelled. `GET /auth/profile` is the exception: its 500 for a missing user is modelled.
- **Case-insensitive matching.** The regular expression built from the subject in `GET /quiz/:subject` is not modelled. The matched questions are an input.
- **Randomness.** `Math.random` in `shuffleArray` becomes the sequence of chosen indices, each constrained to 0 ≤ j ≤ i.
- **Request bodies.** A request field that is not a string is not modelled. Register and login treat each field as absent, empty or a string.
- **Ratios and rounding.** Floating-point percentages and `Math.round` are not modelled. This covers `averagePercentage` and `bestPercentage` in `calculateStats`, the rounded subject averages in `getSubjectSuccess`, the colour thresholds and the advice tiers of `getMLSummary`. Score ratios are exact rationals with JavaScript's infinities and NaN.
- **Profile.GetSubjectSuccess:** returns each subject's list of ratios instead of their rounded mean.
- **Profile.GetSubjectSuccess:** subjects are assumed not to name an `Object.prototype` property such as "constructor", "toString" or "\_\_proto\_\_". For those, `subjectMap[q.subject]` is already truthy and has no `push`, so the source throws and the page fails; the model groups them like any other subject.
- **Key order.** `Object.keys` puts integer-like keys first. Subjects are assumed not to look like array indices, so keys keep insertion order.
- **Rendering.** Chart.js, jsPDF, the score colours, the profile-image upload and all markup are not modelled.
- **Concurrency and timing.** `setInterval`/`setTimeout` scheduling and the asynchronous gaps between a handler and its effects are not modelled. Each callback runs as one atomic step on the latest state.
- **Stale closure in `saveQuizResult`.** The upload reads `userAnswers` from the render that finished the attempt, which misses the last answer. The upload record keeps only the score and the question count, and the answer lists sent are not modelled.
- **Listener leaks.** The visibility listener is removed with a different closure, so it is never actually removed. The model assumes every integrity listener is attached exactly while `!showResult` and the camera is granted.
- **Camera and face detection.** `getUserMedia` and face-api inference are not modelled. They become a granted/refused flag, a video-ready flag and a detection count or failure.
- **Violation limit.** Reaching 3 violations only changes the banner, which claims the quiz was auto-submitted. As in the code, nothing finishes the attempt (see `SubjectQuiz.ViolationsDoNotFinish`).
- **AuthRoutes.SortNewestFirst:** proves ordering and permutation but not stability for equal dates. The engine's sort algorithm is not part of this model.
