/**
 * frontend/src/pages/SubjectQuiz.js: one proctored quiz attempt in the
 * browser. The component's state hooks are the fields of `QuizSession`;
 * every handler, effect and timer callback is one method that reads the
 * state of the render it was created in and writes the next state.
 *
 * The camera, the face detector, the question fetch and the result upload
 * are outside the model: their outcomes are method parameters, and the
 * uploads are recorded in `submitted`.
 */
module SubjectQuiz {
  import opened Common

  // ---------------------------------------------------------------------------
  // formatTime
  // ---------------------------------------------------------------------------

  /** The decimal digit character of `d`. */
  function DigitChar(d: nat): (c: char)
    requires d < 10
    ensures '0' <= c <= '9' && c as int - '0' as int == d
  {
    "0123456789"[d]
  }

  /** The value of a digit character (0 for anything else). */
  function DigitValue(c: char): nat
  {
    if '0' <= c <= '9' then c as int - '0' as int else 0
  }

  /** `n.toString()` for a non-negative integer. */
  function DecimalString(n: nat): (s: string)
    ensures |s| >= 1
    ensures forall k :: 0 <= k < |s| ==> '0' <= s[k] <= '9'
    ensures n < 10 ==> |s| == 1
    ensures 10 <= n < 100 ==> |s| == 2
  {
    if n < 10 then [DigitChar(n)] else DecimalString(n / 10) + [DigitChar(n % 10)]
  }

  /** The number a string of decimal digits denotes. */
  function DecimalValue(s: string): nat
  {
    if s == [] then 0 else DecimalValue(s[..|s| - 1]) * 10 + DigitValue(s[|s| - 1])
  }

  /** `s.padStart(2, '0')`. */
  function PadStart2(s: string): (r: string)
    ensures |s| >= 2 ==> r == s
    ensures |s| < 2 ==> |r| == 2 && r[2 - |s|..] == s && forall k :: 0 <= k < 2 - |s| ==> r[k] == '0'
  {
    if |s| == 0 then "00" else if |s| == 1 then "0" + s else s
  }

  /** `formatTime(seconds)`: minutes and seconds, each padded to two digits. */
  function FormatTime(seconds: nat): (t: string)
    ensures |t| >= 5 && t[|t| - 3] == ':'
  {
    PadStart2(DecimalString(seconds / 60)) + ":" + PadStart2(DecimalString(seconds % 60))
  }

  /** Reads "M..M:SS" back: the digits before the last three characters are
      minutes, the last two are seconds. */
  function ParseTime(t: string): nat
    requires |t| >= 3
  {
    DecimalValue(t[..|t| - 3]) * 60 + DecimalValue(t[|t| - 2..])
  }

  /** Reading back the decimal text of a number gives the number. */
  lemma {:induction false} DecimalRoundTrip(n: nat)
    ensures DecimalValue(DecimalString(n)) == n
  {
    var s := DecimalString(n);
    if n < 10 {
      assert s[..0] == [];
    } else {
      DecimalRoundTrip(n / 10);
      assert s[..|s| - 1] == DecimalString(n / 10);
    }
  }

  /** Leading zeros do not change the value of a digit string. */
  lemma {:induction false} LeadingZero(s: string)
    ensures DecimalValue("0" + s) == DecimalValue(s)
  {
    if s != [] {
      LeadingZero(s[..|s| - 1]);
      assert ("0" + s)[..|"0" + s| - 1] == "0" + s[..|s| - 1];
    }
  }

  /** Padding to two digits keeps the value. */
  lemma PadKeepsValue(s: string)
    ensures DecimalValue(PadStart2(s)) == DecimalValue(s)
  {
    if |s| == 0 {
      LeadingZero("0");
    } else if |s| == 1 {
      LeadingZero(s);
    }
  }

  /** A number below 100, printed and padded, is two digits that read back
      as the number. */
  lemma PaddedTwoDigits(n: nat)
    requires n < 100
    ensures var p := PadStart2(DecimalString(n));
      && |p| == 2 && '0' <= p[0] <= '9' && '0' <= p[1] <= '9' && DecimalValue(p) == n
  {
    DecimalRoundTrip(n);
    PadKeepsValue(DecimalString(n));
  }

  /** Reading "MM:SS" splits at the colon. */
  lemma ParseJoined(mm: string, ss: string)
    requires |ss| == 2
    ensures ParseTime(mm + ":" + ss) == DecimalValue(mm) * 60 + DecimalValue(ss)
  {
    var t := mm + ":" + ss;
    assert t[..|t| - 3] == mm;
    assert t[|t| - 2..] == ss;
  }

  /** `formatTime` loses nothing: for every number of seconds the minutes
      before the colon and the two-digit seconds after it give it back. */
  lemma FormatTimeRoundTrip(seconds: nat)
    ensures ParseTime(FormatTime(seconds)) == seconds
  {
    var m, r := seconds / 60, seconds % 60;
    var mm := PadStart2(DecimalString(m));
    var ss := PadStart2(DecimalString(r));
    PaddedTwoDigits(r);
    DecimalRoundTrip(m);
    PadKeepsValue(DecimalString(m));
    ParseJoined(mm, ss);
    assert DecimalValue(mm) == m && DecimalValue(ss) == r;
    assert seconds == m * 60 + r;
  }

  /** Under 100 minutes the text is exactly "MM:SS": five characters, digits
      around a colon, MM the whole minutes and SS the remaining seconds. */
  lemma FormatTimeShape(seconds: nat)
    requires seconds < 6000
    ensures var t := FormatTime(seconds);
      && |t| == 5 && t[2] == ':'
      && (forall k :: 0 <= k < 5 && k != 2 ==> '0' <= t[k] <= '9')
      && DecimalValue(t[..2]) == seconds / 60
      && DecimalValue(t[3..]) == seconds % 60
  {
    var mm := PadStart2(DecimalString(seconds / 60));
    var ss := PadStart2(DecimalString(seconds % 60));
    PaddedTwoDigits(seconds / 60);
    PaddedTwoDigits(seconds % 60);
    var t := mm + ":" + ss;
    assert t == FormatTime(seconds);
    assert t[0] == mm[0] && t[1] == mm[1] && t[3] == ss[0] && t[4] == ss[1];
    assert t[..2] == mm && t[3..] == ss;
  }

  // ---------------------------------------------------------------------------
  // Face presence
  // ---------------------------------------------------------------------------

  /** The `faceStatus` values. */
  datatype FaceStatus = FacePending | FaceOk | NoFace | MultipleFaces | FaceError

  /** What one poll of the detector produced: a number of faces, or an
      exception. */
  datatype Detection = Detected(faces: nat) | DetectionFailed

  /** A classified poll: the status and the advisory text shown to the user. */
  datatype FaceReading = FaceReading(status: FaceStatus, warning: string)

  /** The classification inside `detectFace`. */
  function ClassifyFaces(d: Detection): (r: FaceReading)
    ensures r.warning == "" <==> r.status == FaceOk
    ensures d.Detected? ==> (r.status == FaceOk <==> d.faces == 1)
    ensures d.Detected? ==> (r.status == NoFace <==> d.faces == 0)
    ensures d.Detected? ==> (r.status == MultipleFaces <==> d.faces > 1)
    ensures d.DetectionFailed? <==> r.status == FaceError
    ensures r.status == NoFace ==> r.warning == "No face detected! Please stay in front of the camera."
    ensures r.status == MultipleFaces ==> r.warning == "Multiple faces detected! Only one person should be present."
    ensures r.status == FaceError ==> r.warning == "Face detection error."
  {
    match d
    case DetectionFailed => FaceReading(FaceError, "Face detection error.")
    case Detected(n) =>
      if n == 1 then FaceReading(FaceOk, "")
      else if n == 0 then FaceReading(NoFace, "No face detected! Please stay in front of the camera.")
      else FaceReading(MultipleFaces, "Multiple faces detected! Only one person should be present.")
  }

  // ---------------------------------------------------------------------------
  // The attempt session
  // ---------------------------------------------------------------------------

  /** The time budget of one attempt, in seconds (20 minutes). */
  const TimeBudget: int := 1200

  /** The violation count the warning banner measures against; reaching it
      only changes the banner text. */
  const ViolationLimit: int := 3

  /** A question as served by `GET /quiz/:subject`. */
  datatype Question = Question(question: string, options: seq<string>, answer: string)

  /** `cameraPermission`. */
  datatype Permission = Pending | Granted | Denied

  /** Page events the integrity listeners react to. */
  datatype PageEvent = TabHidden | TabShown | WindowBlur | Copy | Cut | Paste

  /** How many registered listeners add one violation for the event: the
      visibility listener only counts when the page became hidden, and the
      clipboard events reach both the violation listener and the blocking
      listener. */
  function ViolationsFor(e: PageEvent): (n: nat)
    ensures e == TabShown <==> n == 0
    ensures e == TabHidden || e == WindowBlur ==> n == 1
    ensures e == Copy || e == Cut || e == Paste ==> n == 2
  {
    match e
    case TabHidden => 1
    case TabShown => 0
    case WindowBlur => 1
    case Copy => 2
    case Cut => 2
    case Paste => 2
  }

  /** The arguments of one `saveQuizResult` call. */
  datatype Submission = Submission(finalScore: int, totalQuestions: int)

  class QuizSession {
    var questions: seq<Question>
    var loading: bool
    var currentIndex: int
    var selectedOption: Option<string>
    var score: int
    var showResult: bool
    var timeLeft: int
    var timerActive: bool
    var cameraPermission: Permission
    var showPermissionModal: bool
    /** Whether a camera stream is held (`videoStream` not null). */
    var streaming: bool
    var faceStatus: FaceStatus
    var faceWarning: string
    var userAnswers: seq<string>
    var violationCount: int
    var showViolationWarning: bool
    /** Every `saveQuizResult` call made so far, oldest first. */
    var submitted: seq<Submission>

    /** What every reachable state satisfies. */
    ghost predicate Valid()
      reads this
    {
      && Consistent()
      && (!showResult ==> |userAnswers| == currentIndex)
      && 0 <= score <= |userAnswers| + (if showResult then 1 else 0)
    }

    /** The part of `Valid` that does not relate the score to the answers. */
    ghost predicate Consistent()
      reads this
    {
      && 0 <= timeLeft <= TimeBudget
      && 0 <= currentIndex
      && 0 <= violationCount
      && showViolationWarning == (violationCount > 0)
      && (timerActive ==> !showResult)
      && (streaming ==> cameraPermission == Granted)
    }

    /** The timer interval is registered exactly in these states. */
    predicate TimerRunning()
      reads this
    {
      timerActive && timeLeft > 0 && !showResult
    }

    /** The integrity listeners are registered exactly in these states. */
    predicate Monitoring()
      reads this
    {
      !showResult && cameraPermission == Granted
    }

    /** The question card, with its Finish and Next buttons, is on screen. */
    predicate Answering()
      reads this
    {
      !loading && !showPermissionModal && !showResult && 0 <= currentIndex < |questions|
    }

    /** The Next button is enabled: the card is shown and an option is
        selected. */
    predicate NextEnabled()
      reads this
    {
      Answering() && selectedOption.Some?
    }

    /** The initial hook values, on mount. */
    constructor ()
      ensures Valid()
      ensures questions == [] && loading && currentIndex == 0 && selectedOption == None
      ensures score == 0 && !showResult && timeLeft == TimeBudget && !timerActive
      ensures cameraPermission == Pending && showPermissionModal && !streaming
      ensures faceStatus == FacePending && faceWarning == "" && userAnswers == []
      ensures violationCount == 0 && !showViolationWarning && submitted == []
    {
      questions := [];
      loading := true;
      currentIndex := 0;
      selectedOption := None;
      score := 0;
      showResult := false;
      timeLeft := TimeBudget;
      timerActive := false;
      cameraPermission := Pending;
      showPermissionModal := true;
      streaming := false;
      faceStatus := FacePending;
      faceWarning := "";
      userAnswers := [];
      violationCount := 0;
      showViolationWarning := false;
      submitted := [];
    }

    /** The question fetch settled: its data (None when the request failed)
        replaces the questions and the spinner goes away. */
    method QuestionsLoaded(data: Option<seq<Question>>)
      requires Valid()
      modifies this`questions, this`loading
      ensures Valid()
      ensures questions == (if data.Some? then data.value else []) && !loading
    {
      questions := if data.Some? then data.value else [];
      loading := false;
    }

    /** `requestCameraPermission`, with the outcome of `getUserMedia`; its
        button is on the permission modal while the permission is pending. */
    method RequestCameraPermission(granted: bool)
      requires Valid() && showPermissionModal && cameraPermission == Pending
      modifies this`streaming, this`cameraPermission, this`showPermissionModal
      ensures Valid()
      ensures granted ==> streaming && cameraPermission == Granted && !showPermissionModal
      ensures !granted ==> cameraPermission == Denied && streaming == old(streaming) && showPermissionModal == old(showPermissionModal)
    {
      if granted {
        streaming := true;
        cameraPermission := Granted;
        showPermissionModal := false;
      } else {
        cameraPermission := Denied;
      }
    }

    /** The effect that starts the timer: questions loaded, camera granted
        and no result on screen. */
    method StartTimerIfReady()
      requires Valid()
      modifies this`timerActive
      ensures Valid()
      ensures timerActive <==> old(timerActive) || (|questions| > 0 && !showResult && cameraPermission == Granted)
    {
      if |questions| > 0 && !timerActive && !showResult && cameraPermission == Granted {
        timerActive := true;
      }
    }

    /** A click on an option button. */
    method SelectOption(option: string)
      requires Valid() && Answering()
      modifies this`selectedOption
      ensures Valid() && selectedOption == Some(option)
    {
      selectedOption := Some(option);
    }

    /** The body of `finishQuiz` as run from a render whose score, selection
        and index were `score0`, `selection0` and `index0`: the pending
        selection adds one point only when it is truthy and equals the
        current answer; the timer stops, the camera is released, the result
        is uploaded once and the result view is shown. */
    method FinishFrom(score0: int, selection0: Option<string>, index0: int)
      requires Consistent() && !showResult
      requires 0 <= score0 <= |userAnswers| && 0 <= score <= |userAnswers| + 1
      modifies this`score, this`timerActive, this`streaming, this`submitted, this`showResult
      ensures Valid()
      ensures var counted := Truthy(selection0) && 0 <= index0 < |questions|
                             && selection0.value == questions[index0].answer;
        && score == (if counted then score0 + 1 else old(score))
        && submitted == old(submitted) + [Submission(if counted then score0 + 1 else score0, |questions|)]
      ensures !timerActive && !streaming && showResult
    {
      var finalScore := score0;
      if Truthy(selection0) && 0 <= index0 < |questions| && selection0.value == questions[index0].answer {
        finalScore := score0 + 1;
        score := finalScore;
      }
      timerActive := false;
      streaming := false;
      submitted := submitted + [Submission(finalScore, |questions|)];
      showResult := true;
    }

    /** The Finish Test button. */
    method FinishQuiz()
      requires Valid() && Answering()
      modifies this`score, this`timerActive, this`streaming, this`submitted, this`showResult
      ensures Valid()
      ensures var counted := Truthy(old(selectedOption)) && old(selectedOption).value == questions[currentIndex].answer;
        && score == (if counted then old(score) + 1 else old(score))
        && submitted == old(submitted) + [Submission(score, |questions|)]
      ensures !timerActive && !streaming && showResult
      ensures score <= |questions|
    {
      FinishFrom(score, selectedOption, currentIndex);
    }

    /** The Next / Submit Answer button: scores the selection, appends it to
        the answers, clears it, and either moves to the next question or
        finishes; the nested `finishQuiz` sees the score and selection of
        the render the click happened in. */
    method HandleNext()
      requires Valid() && NextEnabled()
      modifies this`score, this`userAnswers, this`selectedOption, this`currentIndex,
               this`timerActive, this`streaming, this`submitted, this`showResult
      ensures Valid()
      ensures var correct := old(selectedOption) == Some(questions[old(currentIndex)].answer);
        && score == (if correct then old(score) + 1 else old(score))
        && userAnswers == old(userAnswers) + [old(selectedOption).value]
        && selectedOption == None
      ensures old(currentIndex) + 1 < |questions| ==>
        && currentIndex == old(currentIndex) + 1 && !showResult
        && timerActive == old(timerActive) && streaming == old(streaming) && submitted == old(submitted)
      ensures old(currentIndex) + 1 >= |questions| ==>
        && currentIndex == old(currentIndex) && showResult && !timerActive && !streaming
        && submitted == old(submitted) + [Submission(
             if Truthy(old(selectedOption)) && old(selectedOption) == Some(questions[old(currentIndex)].answer)
             then old(score) + 1 else old(score),
             |questions|)]
      ensures score <= |questions|
    {
      var score0, selection0, index0 := score, selectedOption, currentIndex;
      if selection0 == Some(questions[index0].answer) {
        score := score0 + 1;
      }
      userAnswers := userAnswers + [selection0.value];
      selectedOption := None;
      if index0 + 1 < |questions| {
        currentIndex := index0 + 1;
      } else {
        FinishFrom(score0, selection0, index0);
      }
    }

    /** One firing of the one-second interval. The interval exists only
        while the timer runs; at one second or less it finishes the attempt
        and sets the clock to zero, otherwise it takes one second off. */
    method Tick()
      requires Valid()
      modifies this`timeLeft, this`score, this`timerActive, this`streaming, this`submitted, this`showResult
      ensures Valid()
      ensures !old(TimerRunning()) ==> unchanged(this)
      ensures old(TimerRunning()) && old(timeLeft) > 1 ==>
        && timeLeft == old(timeLeft) - 1 && !showResult
        && score == old(score) && timerActive && submitted == old(submitted)
        && streaming == old(streaming)
      ensures old(TimerRunning()) && old(timeLeft) <= 1 ==>
        var counted := Truthy(old(selectedOption)) && 0 <= old(currentIndex) < |questions|
                       && old(selectedOption).value == questions[old(currentIndex)].answer;
        && timeLeft == 0 && showResult && !timerActive && !streaming
        && score == (if counted then old(score) + 1 else old(score))
        && submitted == old(submitted) + [Submission(score, |questions|)]
        && userAnswers == old(userAnswers)
    {
      if !(timerActive && timeLeft > 0 && !showResult) {
        return;
      }
      if timeLeft <= 1 {
        FinishFrom(score, selectedOption, currentIndex);
        timeLeft := 0;
      } else {
        timeLeft := timeLeft - 1;
      }
    }

    /** The Retake button: back to the first question with the full budget,
        the timer off and the camera to be asked for again; the violation
        count, the face status and earlier uploads stay. The new question
        fetch arrives later through `QuestionsLoaded`. */
    method ResetQuiz()
      requires Valid()
      modifies this`currentIndex, this`selectedOption, this`score, this`showResult, this`loading,
               this`timeLeft, this`timerActive, this`showPermissionModal, this`cameraPermission,
               this`streaming, this`userAnswers
      ensures Valid()
      ensures currentIndex == 0 && selectedOption == None && score == 0 && !showResult && loading
      ensures timeLeft == TimeBudget && !timerActive && showPermissionModal
      ensures cameraPermission == Pending && !streaming && userAnswers == []
    {
      currentIndex := 0;
      selectedOption := None;
      score := 0;
      showResult := false;
      loading := true;
      timeLeft := TimeBudget;
      timerActive := false;
      showPermissionModal := true;
      cameraPermission := Pending;
      streaming := false;
      userAnswers := [];
    }

    /** A page event reaching the integrity listeners; each registered
        listener adds one violation, and the banner shows once there is any.
        Reaching the limit does not finish the attempt. */
    method OnPageEvent(e: PageEvent)
      requires Valid()
      modifies this`violationCount, this`showViolationWarning
      ensures Valid()
      ensures old(Monitoring()) ==> violationCount == old(violationCount) + ViolationsFor(e)
      ensures !old(Monitoring()) ==> violationCount == old(violationCount)
      ensures violationCount >= old(violationCount)
      ensures showViolationWarning <==> violationCount > 0
    {
      if !showResult && cameraPermission == Granted {
        violationCount := violationCount + ViolationsFor(e);
      }
      showViolationWarning := violationCount > 0;
    }

    /** One poll of the face detector, which runs while the camera stream is
        held; `videoReady` is whether the video element has data. */
    method DetectFace(videoReady: bool, d: Detection)
      requires Valid()
      modifies this`faceStatus, this`faceWarning
      ensures Valid()
      ensures cameraPermission == Granted && streaming && videoReady ==>
        FaceReading(faceStatus, faceWarning) == ClassifyFaces(d)
      ensures !(cameraPermission == Granted && streaming && videoReady) ==>
        faceStatus == old(faceStatus) && faceWarning == old(faceWarning)
    {
      if cameraPermission == Granted && streaming && videoReady {
        var reading := ClassifyFaces(d);
        faceStatus := reading.status;
        faceWarning := reading.warning;
      }
    }

    /** Loading the detector model failed. */
    method FaceModelsFailedToLoad()
      requires Valid()
      modifies this`faceStatus
      ensures Valid() && faceStatus == FaceError
    {
      faceStatus := FaceError;
    }
  }

  /** Three violations leave the attempt running: a tab switch, a blur and a
      copy take the count to four, and the result view is still hidden. */
  method ViolationsDoNotFinish(session: QuizSession)
    requires session.Valid() && session.Monitoring() && session.violationCount == 0
    modifies session
    ensures session.violationCount == 4 && session.violationCount >= ViolationLimit
    ensures !session.showResult && session.showViolationWarning
  {
    session.OnPageEvent(TabHidden);
    session.OnPageEvent(WindowBlur);
    session.OnPageEvent(Copy);
  }
}
