/**
 The records exchanged between the exam session, the scoring engine and the
 report generator (types.ts), plus the two small wrappers the model needs:
 an optional value and a JavaScript number that may be NaN.
 */
module Types {

  /** An optional value: `null`/`undefined` in the source. */
  datatype Option<+T> = None | Some(value: T)

  /**
   A JavaScript number as far as this model needs one: an exact real, or NaN
   (what `0 / 0` and `parseFloat('')` produce). Infinities and the rounding of
   binary floating point are not modelled.
   */
  datatype Num = Finite(value: real) | NaN

  datatype Student = Student(name: string, id: string)

  datatype ExamMode = Case | Procedure

  datatype ChecklistItem = ChecklistItem(id: string, category: string, text: string)

  /** The optional script for the simulated patient (CASE stations only). */
  datatype PatientScript = PatientScript(
    attitude: string,
    gestures: string,
    phrases: seq<string>,
    allowedInfo: string,
    limitations: string)

  /** The generated station (`CaseData`). */
  datatype CaseData = CaseData(
    title: string,
    topic: string,
    description: string,
    chiefComplaint: string,
    currentIllness: string,
    objectives: seq<string>,
    history: string,
    vitalsAndLabs: string,
    supplies: Option<string>,
    redFlags: seq<string>,
    patientScript: Option<PatientScript>,
    checklist: seq<ChecklistItem>,
    studentInstructions: string)

  datatype Status = Correct | Partial | Incorrect | NotDone

  /** The proctor's marks, keyed by checklist item id (`Record<string, PerformanceStatus>`). */
  type Responses = map<string, Status>

  /** The status an item is scored and reported with: an absent key reads as NOT_DONE. */
  function StatusOf(responses: Responses, id: string): Status
  {
    if id in responses then responses[id] else NotDone
  }

  /** `FeedbackData`: the scores and the three feedback lists of a finished station. */
  datatype FeedbackData = FeedbackData(
    calculatedScore: Num,
    finalScore: Num,
    strengths: seq<string>,
    weaknesses: seq<string>,
    recommendations: seq<string>,
    justification: Option<string>)
}
