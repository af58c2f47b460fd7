/**
 The exam session of App.tsx as a pure state machine: a `Session` record, the
 user actions and asynchronous resolutions as `Event`s, and `Step`, which
 returns the next session together with the side effect the handler starts
 (a request to the AI service, the report download, or an alert).

 Only the controls rendered on the current stage's screen can raise events;
 an event from any other screen leaves the session unchanged.
 */
module Session {
  import opened Types
  import opened Text
  import Scoring
  import Timer

  datatype Stage =
    | Login
    | ModeSelection
    | TopicSelection
    | Generating
    | Preview
    | ExamRunning
    | FeedbackGeneration
    | Results

  /** Length of the station: 7 minutes of execution and 1 of feedback. */
  const StationSeconds: int := 480

  const CaseErrorMessage: string :=
    "Error generando el caso. Por favor intente de nuevo o verifique su conexión/API Key."

  /**
   The component state. The score override text box is kept as the number
   `parseFloat` reads from it, so an empty box is NaN.
   */
  datatype Session = Session(
    stage: Stage,
    student: Student,
    examMode: ExamMode,
    selectedTopic: string,
    useSimulatedPatient: bool,
    caseData: Option<CaseData>,
    loadingError: Option<string>,
    timeRemaining: int,
    timerActive: bool,
    responses: Responses,
    evaluatorNotes: string,
    feedback: Option<FeedbackData>,
    scoreOverride: Num,
    justification: string,
    evaluatorName: string)

  /** The state the component mounts with. */
  function Initial(): (s: Session)
    ensures s.stage == Login && s.caseData.None? && s.feedback.None? && !s.timerActive
    ensures s.timeRemaining == StationSeconds
  {
    Session(Login, Student("", ""), Case, "", false, None, None,
            StationSeconds, false, map[], "", None, NaN, "", "")
  }

  datatype Event =
    // login screen
    | EditStudentName(name: string)
    | EditStudentId(id: string)
    | SubmitLogin
    // mode screen
    | SelectMode(mode: ExamMode)
    // topic screen
    | BackToModes
    | SetSimulatedPatient(on: bool)
    | SelectTopic(topic: string)
    // resolution of `generateCase`; `None` is a rejected promise
    | CaseArrived(caseReply: Option<CaseData>)
    // preview screen
    | CancelPreview
    | StartExam
    // exam screen
    | MarkItem(itemId: string, status: Status)
    | EditNotes(notes: string)
    | TimerTick
    | FinishExam
    // resolution of the feedback model call; `None` is any failure of it
    | FeedbackArrived(feedbackReply: Option<Scoring.AiFeedback>)
    // results screen
    | EditEvaluatorName(name: string)
    | EditScoreOverride(score: Num)
    | EditJustification(text: string)
    | DownloadReport
    | NewStudent

  /** The arguments of `generatePDF`. */
  datatype ReportRequest = ReportRequest(
    student: Student,
    caseData: CaseData,
    feedback: FeedbackData,
    responses: Responses,
    evaluatorNotes: string,
    evaluatorName: string)

  datatype Effect =
    | NoEffect
    | RequestCase(topic: string, isProcedure: bool, withPatient: bool)
    | RequestFeedback(caseData: CaseData, responses: Responses, notes: string)
    | AlertMissingEvaluator
    | SaveReport(report: ReportRequest)

  datatype Outcome = Outcome(next: Session, effect: Effect)

  /** The stage diagram: the moves the application can make. */
  predicate Edge(a: Stage, b: Stage)
  {
    || (a == Login && b == ModeSelection)
    || (a == ModeSelection && b == TopicSelection)
    || (a == TopicSelection && (b == ModeSelection || b == Generating))
    || (a == Generating && (b == Preview || b == TopicSelection))
    || (a == Preview && (b == TopicSelection || b == ExamRunning))
    || (a == ExamRunning && b == FeedbackGeneration)
    || (a == FeedbackGeneration && b == Results)
    || (a == Results && b == Login)
  }

  // ---------------------------------------------------------------------------
  // Handlers

  /** `handleLogin`: both fields must be non-empty (white space counts as content). */
  function HandleLogin(s: Session): (r: Session)
    ensures s.student.name != "" && s.student.id != "" ==> r == s.(stage := ModeSelection)
    ensures s.student.name == "" || s.student.id == "" ==> r == s
  {
    if s.student.name != "" && s.student.id != "" then s.(stage := ModeSelection) else s
  }

  /** `handleModeSelect`: records the mode and moves on unconditionally. */
  function HandleModeSelect(s: Session, mode: ExamMode): (r: Session)
    ensures r.examMode == mode && r.stage == TopicSelection
    ensures r.(examMode := s.examMode, stage := s.stage) == s
  {
    s.(examMode := mode, stage := TopicSelection)
  }

  /** The synchronous half of `handleTopicSelect`, up to the `generateCase` call. */
  function HandleTopicSelect(s: Session, topic: string): (o: Outcome)
    ensures o.next.stage == Generating && o.next.selectedTopic == topic && o.next.loadingError == None
    ensures o.next.caseData == s.caseData
    ensures o.effect == RequestCase(topic, s.examMode == Procedure, s.useSimulatedPatient)
  {
    Outcome(s.(selectedTopic := topic, stage := Generating, loadingError := None),
            RequestCase(topic, s.examMode == Procedure, s.useSimulatedPatient))
  }

  /** The continuation of `handleTopicSelect` once `generateCase` settles. */
  function CaseResolved(s: Session, reply: Option<CaseData>): (r: Session)
    ensures reply.Some? ==>
      && r.stage == Preview
      && r.caseData == Scoring.GenerateCase(s.selectedTopic, reply)
      && r.caseData.Some? && r.caseData.value.topic == s.selectedTopic
      && r.loadingError == s.loadingError
    ensures reply.None? ==>
      r.stage == TopicSelection && r.loadingError == Some(CaseErrorMessage) && r.caseData == s.caseData
  {
    match Scoring.GenerateCase(s.selectedTopic, reply)
    case Some(data) => s.(caseData := Some(data), stage := Preview)
    case None => s.(loadingError := Some(CaseErrorMessage), stage := TopicSelection)
  }

  /** `startExam`: a fresh countdown, empty marks and notes, whatever came before. */
  function HandleStartExam(s: Session): (r: Session)
    ensures r.stage == ExamRunning && r.timerActive
    ensures r.timeRemaining == StationSeconds && r.responses == map[] && r.evaluatorNotes == ""
    ensures r.caseData == s.caseData && r.student == s.student && r.feedback == s.feedback
  {
    s.(timeRemaining := StationSeconds, responses := map[], evaluatorNotes := "",
       timerActive := true, stage := ExamRunning)
  }

  /** `handleChecklistChange`: an upsert of one key. */
  function RecordMark(responses: Responses, itemId: string, status: Status): (r: Responses)
    ensures r.Keys == responses.Keys + {itemId}
    ensures r[itemId] == status
    ensures forall k :: k in responses && k != itemId ==> r[k] == responses[k]
  {
    responses[itemId := status]
  }

  /** Marking an item twice with the same status is marking it once. */
  lemma RecordMarkIdempotent(responses: Responses, itemId: string, status: Status)
    ensures RecordMark(RecordMark(responses, itemId, status), itemId, status) == RecordMark(responses, itemId, status)
  {
  }

  /** Marks on two different items commute. */
  lemma RecordMarkCommutes(responses: Responses, a: string, sa: Status, b: string, sb: Status)
    requires a != b
    ensures RecordMark(RecordMark(responses, a, sa), b, sb) == RecordMark(RecordMark(responses, b, sb), a, sa)
  {
  }

  /** The synchronous half of `finishExam`: the timer stops, and the feedback call starts only with a case. */
  function HandleFinish(s: Session): (o: Outcome)
    ensures o.next.stage == FeedbackGeneration && !o.next.timerActive
    ensures o.next.(stage := s.stage, timerActive := s.timerActive) == s
    ensures o.effect.RequestFeedback? <==> s.caseData.Some?
    ensures s.caseData.Some? ==> o.effect == RequestFeedback(s.caseData.value, s.responses, s.evaluatorNotes)
  {
    var next := s.(timerActive := false, stage := FeedbackGeneration);
    match s.caseData
    case Some(data) => Outcome(next, RequestFeedback(data, s.responses, s.evaluatorNotes))
    case None => Outcome(next, NoEffect)
  }

  /** Whether `x` is a whole number of tenths. */
  predicate IsTenths(x: real)
  {
    (x * 10.0).Floor as real == x * 10.0
  }

  /**
   `parseFloat(x.toFixed(1))`: the nearest tenth, halves rounded away from
   zero, computed on the exact value.
   */
  function RoundToTenth(n: Num): (r: Num)
    ensures r.NaN? <==> n.NaN?
    ensures r.Finite? ==> -0.05 <= r.value - n.value <= 0.05 && IsTenths(r.value)
  {
    match n
    case NaN => NaN
    case Finite(x) =>
      var a := if x < 0.0 then -x else x;
      var k := (a * 10.0 + 0.5).Floor;
      assert -0.05 < k as real / 10.0 - a <= 0.05;
      TenthsOfWhole(k);
      Finite(if x < 0.0 then -(k as real / 10.0) else k as real / 10.0)
  }

  /** A whole number of tenths, of either sign, is a whole number of tenths. */
  lemma TenthsOfWhole(k: int)
    ensures IsTenths(k as real / 10.0) && IsTenths(-(k as real / 10.0))
  {
    assert (k as real / 10.0) * 10.0 == k as real;
    assert -(k as real / 10.0) * 10.0 == (-k) as real;
  }

  /** A value that already is a whole number of tenths is left as it is. */
  lemma RoundToTenthFixesTenths(x: real)
    requires IsTenths(x)
    ensures RoundToTenth(Finite(x)) == Finite(x)
  {
    var a := if x < 0.0 then -x else x;
    var k := (a * 10.0 + 0.5).Floor;
    if x < 0.0 {
      assert (x * 10.0).Floor == -k;
    } else {
      assert (x * 10.0).Floor == k;
    }
  }

  /** The continuation of `finishExam` once the feedback call settles (it never rejects). */
  function FeedbackResolved(s: Session, reply: Option<Scoring.AiFeedback>): (r: Session)
    requires s.caseData.Some?
    ensures r.stage == Results
    ensures r.feedback == Some(Scoring.GenerateFeedback(s.caseData.value, s.responses, reply))
    ensures r.scoreOverride == RoundToTenth(r.feedback.value.calculatedScore)
    ensures r.(feedback := s.feedback, scoreOverride := s.scoreOverride, stage := s.stage) == s
  {
    var f := Scoring.GenerateFeedback(s.caseData.value, s.responses, reply);
    s.(feedback := Some(f), scoreOverride := RoundToTenth(f.calculatedScore), stage := Results)
  }

  /** `!evaluatorName.trim()`. */
  predicate MissingEvaluator(s: Session)
  {
    Trim(s.evaluatorName) == []
  }

  /**
   `handleDownloadPDF`: refuses with an alert when the evaluator name is blank;
   otherwise, with a case and feedback present, emits one report whose final
   score is the override and whose justification is the text entered. The
   session itself does not change.
   */
  function HandleDownload(s: Session): (e: Effect)
    ensures e.AlertMissingEvaluator? <==> Blank(s.evaluatorName)
    ensures e.SaveReport? <==> !Blank(s.evaluatorName) && s.caseData.Some? && s.feedback.Some?
    ensures e.SaveReport? ==>
      && e.report.feedback.finalScore == s.scoreOverride
      && e.report.feedback.justification == Some(s.justification)
      && e.report.feedback.calculatedScore == s.feedback.value.calculatedScore
      && e.report.evaluatorName == s.evaluatorName
      && e.report.responses == s.responses
  {
    TrimEmptyIffBlank(s.evaluatorName);
    if MissingEvaluator(s) then AlertMissingEvaluator
    else if s.caseData.Some? && s.feedback.Some? then
      SaveReport(ReportRequest(
        s.student, s.caseData.value,
        s.feedback.value.(finalScore := s.scoreOverride, justification := Some(s.justification)),
        s.responses, s.evaluatorNotes, s.evaluatorName))
    else NoEffect
  }

  /** The "new student" button: tears the session down to the login screen. */
  function HandleReset(s: Session): (r: Session)
    ensures r.stage == Login && r.student == Student("", "")
    ensures r.caseData.None? && r.feedback.None? && r.evaluatorName == ""
    ensures r.responses == map[] && r.evaluatorNotes == "" && r.scoreOverride == NaN && r.justification == ""
    ensures r.examMode == s.examMode && r.selectedTopic == s.selectedTopic
    ensures r.timeRemaining == s.timeRemaining && r.timerActive == s.timerActive
    ensures r.useSimulatedPatient == s.useSimulatedPatient && r.loadingError == s.loadingError
  {
    s.(student := Student("", ""), stage := Login, caseData := None, feedback := None,
       evaluatorName := "", responses := map[], evaluatorNotes := "",
       scoreOverride := NaN, justification := "")
  }

  // ---------------------------------------------------------------------------
  // The transition function

  function Stay(s: Session): Outcome
  {
    Outcome(s, NoEffect)
  }

  /** One event applied to the session; events from other screens change nothing. */
  function Step(s: Session, e: Event): (o: Outcome)
    ensures o.next.stage == s.stage || Edge(s.stage, o.next.stage)
  {
    match s.stage
    case Login =>
      (match e
       case EditStudentName(name) => Stay(s.(student := s.student.(name := name)))
       case EditStudentId(id) => Stay(s.(student := s.student.(id := id)))
       case SubmitLogin => Stay(HandleLogin(s))
       case _ => Stay(s))
    case ModeSelection =>
      (match e
       case SelectMode(mode) => Stay(HandleModeSelect(s, mode))
       case _ => Stay(s))
    case TopicSelection =>
      (match e
       case BackToModes => Stay(s.(stage := ModeSelection))
       case SetSimulatedPatient(on) =>
         // the toggle is only shown for clinical cases
         if s.examMode == Case then Stay(s.(useSimulatedPatient := on)) else Stay(s)
       case SelectTopic(topic) => HandleTopicSelect(s, topic)
       case _ => Stay(s))
    case Generating =>
      (match e
       case CaseArrived(reply) => Stay(CaseResolved(s, reply))
       case _ => Stay(s))
    case Preview =>
      (match e
       // "Cancelar / Nuevo Caso" only changes the stage; the case stays loaded
       case CancelPreview => Stay(s.(stage := TopicSelection))
       case StartExam => Stay(HandleStartExam(s))
       case _ => Stay(s))
    case ExamRunning =>
      (match e
       case MarkItem(itemId, status) => Stay(s.(responses := RecordMark(s.responses, itemId, status)))
       case EditNotes(notes) => Stay(s.(evaluatorNotes := notes))
       // the component's `onFinish` does nothing, so only the count matters
       case TimerTick => Stay(s.(timeRemaining := Timer.Tick(s.timeRemaining, s.timerActive).seconds))
       case FinishExam => HandleFinish(s)
       case _ => Stay(s))
    case FeedbackGeneration =>
      (match e
       // without a case no call was started, so nothing can arrive
       case FeedbackArrived(reply) => if s.caseData.Some? then Stay(FeedbackResolved(s, reply)) else Stay(s)
       case _ => Stay(s))
    case Results =>
      (match e
       case EditEvaluatorName(name) => Stay(s.(evaluatorName := name))
       case EditScoreOverride(score) => Stay(s.(scoreOverride := score))
       case EditJustification(text) => Stay(s.(justification := text))
       // the download button is disabled while the evaluator name is blank
       case DownloadReport => if Blank(s.evaluatorName) then Stay(s) else Outcome(s, HandleDownload(s))
       case NewStudent => Stay(HandleReset(s))
       case _ => Stay(s))
  }

  /**
   Each request is made on entering the stage that waits for it; a saved
   report leaves the session as it was; and since the download button is
   disabled while the evaluator name is blank, the handler's alert is never
   raised.
   */
  lemma StepEffects(s: Session, e: Event)
    ensures var o := Step(s, e);
      && (o.effect.RequestCase? ==> o.next.stage == Generating)
      && (o.effect.RequestFeedback? ==> o.next.stage == FeedbackGeneration)
      && (o.effect.SaveReport? ==> o.next == s && !Blank(s.evaluatorName))
      && !o.effect.AlertMissingEvaluator?
  {
  }
}
