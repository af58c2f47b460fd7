/**
 Properties of the exam session state machine that relate several steps or
 hold of every state the application can reach.
 */
module SessionProps {
  import opened Types
  import opened Text
  import opened Session
  import Scoring

  /** Stages that can only be entered with a case loaded. */
  predicate NeedsCase(st: Stage)
  {
    st == Preview || st == ExamRunning || st == FeedbackGeneration || st == Results
  }

  /** What holds of every reachable session. */
  predicate Inv(s: Session)
  {
    && (NeedsCase(s.stage) ==> s.caseData.Some?)
    && (s.stage == Results ==> s.feedback.Some?)
    && (s.timerActive <==> s.stage == ExamRunning)
    && 0 <= s.timeRemaining <= StationSeconds
  }

  lemma InitialInv()
    ensures Inv(Initial())
  {
  }

  lemma StepKeepsInv(s: Session, e: Event)
    requires Inv(s)
    ensures Inv(Step(s, e).next)
  {
  }

  /** The session after a sequence of events. */
  function Run(s: Session, events: seq<Event>): Session
    decreases |events|
  {
    if events == [] then s else Run(Step(s, events[0]).next, events[1..])
  }

  /** Every session reached from the initial one satisfies the invariant. */
  lemma {:induction false} RunKeepsInv(s: Session, events: seq<Event>)
    requires Inv(s)
    ensures Inv(Run(s, events))
    decreases |events|
  {
    if events != [] {
      StepKeepsInv(s, events[0]);
      RunKeepsInv(Step(s, events[0]).next, events[1..]);
    }
  }

  lemma ReachableInv(events: seq<Event>)
    ensures Inv(Run(Initial(), events))
  {
    InitialInv();
    RunKeepsInv(Initial(), events);
  }

  /** Login moves on exactly when both name and id are non-empty, and otherwise changes nothing. */
  lemma LoginGuard(s: Session)
    requires s.stage == Login
    ensures Step(s, SubmitLogin).next.stage == ModeSelection <==> s.student.name != "" && s.student.id != ""
    ensures Step(s, SubmitLogin).next.stage != ModeSelection ==> Step(s, SubmitLogin) == Outcome(s, NoEffect)
  {
  }

  /** While a request is pending, nothing but its resolution has any effect. */
  lemma PendingRequestBlocks(s: Session, e: Event)
    requires (s.stage == Generating && !e.CaseArrived?) || (s.stage == FeedbackGeneration && !e.FeedbackArrived?)
    ensures Step(s, e) == Outcome(s, NoEffect)
  {
  }

  /**
   Choosing a topic and then receiving the case: success lands in PREVIEW with
   the case stamped with the topic; failure returns to TOPIC_SELECTION with
   the error shown and the previously loaded case, if any, left in place.
   */
  lemma TopicThenCase(s: Session, topic: string, reply: Option<CaseData>)
    requires s.stage == TopicSelection
    ensures var o := Step(s, SelectTopic(topic));
      && o.effect == RequestCase(topic, s.examMode == Procedure, s.useSimulatedPatient)
      && var t := Step(o.next, CaseArrived(reply)).next;
      && (reply.Some? ==> t.stage == Preview && t.caseData == Some(reply.value.(topic := topic))
                          && t.loadingError == None)
      && (reply.None? ==> t.stage == TopicSelection && t.caseData == s.caseData
                          && t.loadingError == Some(CaseErrorMessage))
  {
  }

  /** Cancelling the preview only changes the stage: the case stays loaded. */
  lemma CancelKeepsCase(s: Session)
    requires s.stage == Preview
    ensures Step(s, CancelPreview).next == s.(stage := TopicSelection)
    ensures Step(s, CancelPreview).next.caseData == s.caseData
  {
  }

  /** Starting the exam resets the countdown, marks and notes whatever the previous values. */
  lemma StartResets(s: Session, t: Session)
    requires s.stage == Preview && t.stage == Preview
    requires s.caseData == t.caseData && s.student == t.student
    ensures var a, b := Step(s, StartExam).next, Step(t, StartExam).next;
      && a.timeRemaining == b.timeRemaining == StationSeconds
      && a.responses == b.responses == map[]
      && a.evaluatorNotes == b.evaluatorNotes == ""
      && a.timerActive && a.stage == ExamRunning
  {
  }

  /** During the exam, recording the same mark twice is recording it once. */
  lemma MarkTwiceIsOnce(s: Session, itemId: string, status: Status)
    requires s.stage == ExamRunning
    ensures var once := Step(s, MarkItem(itemId, status)).next;
      Step(once, MarkItem(itemId, status)).next == once
  {
    RecordMarkIdempotent(s.responses, itemId, status);
  }

  /** Marks never remove a key: the set of marked items only grows during the exam. */
  lemma {:induction false} MarksOnlyGrow(s: Session, items: seq<(string, Status)>)
    requires s.stage == ExamRunning
    ensures var t := Run(s, seq(|items|, i requires 0 <= i < |items| => MarkItem(items[i].0, items[i].1)));
      t.stage == ExamRunning && s.responses.Keys <= t.responses.Keys
    decreases |items|
  {
    var events := seq(|items|, i requires 0 <= i < |items| => MarkItem(items[i].0, items[i].1));
    if items != [] {
      var next := Step(s, events[0]).next;
      MarksOnlyGrow(next, items[1..]);
      assert events[1..] == seq(|items[1..]|, i requires 0 <= i < |items[1..]| => MarkItem(items[1..][i].0, items[1..][i].1));
    }
  }

  /** A tick during the exam never takes the countdown below zero. */
  lemma TickStaysNonNegative(s: Session)
    requires Inv(s) && s.stage == ExamRunning
    ensures 0 <= Step(s, TimerTick).next.timeRemaining <= s.timeRemaining
  {
  }

  /**
   Finishing a reachable exam always starts the feedback call with the current
   marks and notes, and its resolution always lands in RESULTS with the
   override set to the calculated score rounded to a tenth.
   */
  lemma FinishThenFeedback(s: Session, reply: Option<Scoring.AiFeedback>)
    requires Inv(s) && s.stage == ExamRunning
    ensures var o := Step(s, FinishExam);
      && o.effect == RequestFeedback(s.caseData.value, s.responses, s.evaluatorNotes)
      && !o.next.timerActive
      && var t := Step(o.next, FeedbackArrived(reply)).next;
      && t.stage == Results
      && t.feedback == Some(Scoring.GenerateFeedback(s.caseData.value, s.responses, reply))
      && t.scoreOverride == RoundToTenth(t.feedback.value.calculatedScore)
  {
  }

  /**
   With the feedback service unreachable the session still reaches RESULTS,
   and the final score is the locally computed 0-5 score.
   */
  lemma FallbackReachesResults(s: Session)
    requires Inv(s) && s.stage == ExamRunning && |s.caseData.value.checklist| > 0
    ensures var t := Step(Step(s, FinishExam).next, FeedbackArrived(None)).next;
      && t.stage == Results
      && t.feedback.value.finalScore == Finite(Scoring.Score(s.caseData.value.checklist, s.responses))
      && t.feedback.value.strengths == [Scoring.FallbackStrength]
  {
    FinishThenFeedback(s, None);
  }

  /**
   As written, finishing without a case parks the session in
   FEEDBACK_GENERATION for good; the invariant shows no reachable session
   takes that path.
   */
  lemma FinishWithoutCaseIsStuck(s: Session, e: Event)
    requires s.stage == ExamRunning && s.caseData.None?
    ensures var t := Step(s, FinishExam).next;
      t.stage == FeedbackGeneration && Step(t, e).next == t
    ensures !Inv(s)
  {
  }

  /**
   Downloading never changes the session. With a blank evaluator name the
   button is disabled, so the click has no effect at all; otherwise the report
   carries the session's data with the overridden score and the justification.
   */
  lemma DownloadGate(s: Session)
    requires s.stage == Results
    ensures Step(s, DownloadReport).next == s
    ensures Blank(s.evaluatorName) ==> Step(s, DownloadReport).effect == NoEffect
    ensures Inv(s) && !Blank(s.evaluatorName) ==>
      var e := Step(s, DownloadReport).effect;
      && e.SaveReport?
      && e.report.feedback.finalScore == s.scoreOverride
      && e.report.feedback.justification == Some(s.justification)
      && e.report.evaluatorName == s.evaluatorName
      && e.report.student == s.student
      && e.report.caseData == s.caseData.value
      && e.report.responses == s.responses
      && e.report.evaluatorNotes == s.evaluatorNotes
      && e.report.feedback.strengths == s.feedback.value.strengths
      && e.report.feedback.weaknesses == s.feedback.value.weaknesses
      && e.report.feedback.recommendations == s.feedback.value.recommendations
  {
  }

  /** Every move of the stage diagram is taken by some event from a reachable session. */
  lemma EveryEdgeIsTaken(s: Session, b: Stage)
    requires Inv(s) && Edge(s.stage, b)
    requires s.stage == Login ==> s.student.name != "" && s.student.id != ""
    ensures exists e :: Step(s, e).next.stage == b
  {
    var e: Event;
    match s.stage {
    case Login => e := SubmitLogin;
    case ModeSelection => e := SelectMode(Case);
    case TopicSelection => e := if b == ModeSelection then BackToModes else SelectTopic("");
    case Generating =>
      var reply: Option<CaseData> := None;
      if b == Preview {
        reply := Some(CaseData("", "", "", "", "", [], "", "", None, [], None, [], ""));
      }
      e := CaseArrived(reply);
    case Preview => e := if b == TopicSelection then CancelPreview else StartExam;
    case ExamRunning => e := FinishExam;
    case FeedbackGeneration => e := FeedbackArrived(None);
    case Results => e := NewStudent;
    }
    assert Step(s, e).next.stage == b;
  }
}
