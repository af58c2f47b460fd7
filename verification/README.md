# ECOE surgery station: session, scoring, report layout and countdown

A Dafny model of the deterministic core of an examination app. The app runs
one ECOE (objective structured clinical examination) station in surgery.
A proctor logs a student in and picks a clinical case or a procedure. An
AI service writes the station. The proctor marks a checklist while a
countdown runs, and the app asks the service for feedback. The evaluator
can then override the score and download a PDF report.

Four pieces are modelled, one module each:

- **Session** (`session.dfy`, `session_props.dfy`). The exam screen of
  `App.tsx` as a pure state machine. `Step(s, e)` maps a `Session` record
  and an `Event` to the next session and the side effect the handler starts.
  The effect is one of: a case request, a feedback request, the report
  download, or the handler's "missing evaluator" alert. The download button
  is disabled while the evaluator name is blank, so through the screen that
  alert is never raised.
  - Only controls rendered on the current stage's screen raise events. An
    event from any other screen changes nothing.
  - The two asynchronous AI calls come back as `CaseArrived(reply)` and
    `FeedbackArrived(reply)` events, where `None` stands for any failure.
- **Scoring** (`scoring.dfy`). The checklist score that
  `services/geminiService.ts` computes before it asks for feedback. Also the
  stamp on a successful reply, the fixed fallback on failure, and the topic
  stamp on a generated case.
- **Layout** (`layout.dfy`, `report_props.dfy`). The layout pass of
  `utils/pdfGenerator.ts` as a pure function. It returns the ordered list of
  draw operations, each placed on a page at a vertical position, plus the
  final cursor and the page count.
  - Text wrapping (`splitTextToSize`) is a parameter: a function from text,
    width and font size to a line count. Each call site passes the font size
    in effect when the source measures: 10 for the topic, 16 for the
    justification (measured right after the score line), 9 for bullets, 10
    for the notes, and 8 for the first checklist row but 9 for every later
    row.
  - The page size is a parameter too.
- **Timer** (`timer.dfy`). One run of the countdown effect of
  `components/Timer.tsx`, the `mm:ss` formatter and the last-minute warning.

Shared pieces:

- `types.dfy` holds the records of `types.ts`.
- `text.dfy` holds JavaScript white space (`trim()`, `\s`) and decimal digit
  strings.

Numbers are exact reals, or NaN where JavaScript produces one: `0 / 0` for
an empty checklist, and `parseFloat('')` after a reset. The score override
text box is kept as the number `parseFloat` reads from it.

Two behaviours of the code worth knowing:

- "Cancel" on the preview screen (`App.tsx:366`) only moves back to topic
  selection. It keeps the loaded case; it does not discard it.
- The evaluator-notes box (`utils/pdfGenerator.ts:259-265`) does not advance
  the cursor by its own height. Every other block does. As a result the
  signature can be drawn inside a tall notes box
  (`Layout.SignatureInsideTallNotes`).

## Model

| member | source | states |
|---|---|---|
| Session.Initial | App.tsx:29-48 | The component mounts on LOGIN with no case, no feedback, the timer off and 480 seconds on the clock. |
| Session.HandleLogin | App.tsx:55-58 | Login moves to MODE_SELECTION exactly when name and id are both non-empty (white space counts as content). Otherwise the session is unchanged. |
| Session.HandleModeSelect | App.tsx:60-63 | The chosen mode is recorded and the stage becomes TOPIC_SELECTION unconditionally. No other field changes. |
| Session.HandleTopicSelect | App.tsx:65-70 | Choosing a topic records it, enters GENERATING, clears the loading error and keeps any loaded case. It requests a case with the procedure flag and the simulated-patient flag. |
| Session.CaseResolved | App.tsx:69-76 | A case that arrives lands in PREVIEW, stamped with the selected topic. A failure returns to TOPIC_SELECTION with the fixed error message and leaves the previously loaded case in place. |
| Session.HandleStartExam | App.tsx:79-85 | Starting resets the clock to 480, empties marks and notes, starts the timer and enters EXAM_RUNNING. Case, student and feedback are kept. |
| Session.RecordMark | App.tsx:87-89 | A mark is an upsert. The key set grows by exactly `itemId`, that key holds the new status, and every other key keeps its value. |
| Session.RecordMarkIdempotent | App.tsx:87-89 | Recording the same mark twice equals recording it once. |
| Session.RecordMarkCommutes | App.tsx:87-89 | Marks on two different items commute. |
| Session.HandleFinish | App.tsx:91-94 | Finishing always stops the timer and enters FEEDBACK_GENERATION, with nothing else changed. The feedback call starts, with the current marks and notes, exactly when a case is loaded. |
| Session.RoundToTenth | App.tsx:98 | `toFixed(1)` read back: NaN stays NaN; otherwise the result is a whole number of tenths within 0.05 of the input. |
| Session.RoundToTenthFixesTenths | App.tsx:98 | A value that already is a whole number of tenths is returned unchanged. |
| Session.FeedbackResolved | App.tsx:95-99 | The settled feedback call enters RESULTS. It stores the service's feedback and sets the override to its calculated score rounded to a tenth. No other field changes. |
| Session.HandleDownload | App.tsx:106-120 | The handler alone: a blank evaluator name (after `trim()`) raises the alert and nothing else. Otherwise, with a case and feedback present, exactly one report is saved. Its final score is the override, its justification is the entered text, and the evaluator and marks are the session's. |
| Session.HandleReset | App.tsx:629-640 | "New student" returns to LOGIN and clears student, case, feedback, evaluator, marks, notes, override and justification. Mode, topic, clock, timer flag, simulated-patient flag and loading error are not touched. |
| Session.Step | App.tsx:55-120 | The handlers, gated by the screen that renders their control (App.tsx:366, 394, 623, 630-640): every step either stays in its stage or follows an edge of the stage diagram. A download click with a blank evaluator name does nothing, because the button is disabled then (App.tsx:623). |
| Session.StepEffects | App.tsx:65-120 | A case request is made only on entering GENERATING, and a feedback request only on entering FEEDBACK_GENERATION. A report is saved only with a non-blank evaluator name and without changing the session. The handler's alert is never raised, since the button is disabled for a blank name. |
| SessionProps.InitialInv | App.tsx:29-48 | The initial session satisfies the invariant: a case whenever the stage needs one, feedback in RESULTS, the timer on exactly in EXAM_RUNNING, and the clock within 0..480. |
| SessionProps.StepKeepsInv | App.tsx:55-120 | Every step preserves that invariant. |
| SessionProps.RunKeepsInv | App.tsx:55-120 | Any sequence of events preserves the invariant. |
| SessionProps.ReachableInv | App.tsx:29-120 | Every session reachable from the initial one satisfies the invariant. |
| SessionProps.LoginGuard | App.tsx:55-58 | The login button moves on if and only if both fields are non-empty. When it does not move on, it has no effect at all. |
| SessionProps.PendingRequestBlocks | App.tsx:65-104 | While a case or feedback request is pending, any event other than its resolution changes nothing. |
| SessionProps.TopicThenCase | App.tsx:65-77 | Topic then reply, end to end: the request carries the mode and patient flags. Success reaches PREVIEW with the topic-stamped case and no error. Failure returns to TOPIC_SELECTION with the error and the old case. |
| SessionProps.CancelKeepsCase | App.tsx:366 | Cancelling the preview changes only the stage, so the case stays loaded. |
| SessionProps.StartResets | App.tsx:79-85 | Two previews with the same case and student start identical clocks, marks and notes, whatever their earlier values. |
| SessionProps.MarkTwiceIsOnce | App.tsx:87-89 | During the exam the same mark applied twice leaves the session as one application does. |
| SessionProps.MarksOnlyGrow | App.tsx:87-89 | Any run of marks stays in EXAM_RUNNING and never removes a marked item. |
| SessionProps.TickStaysNonNegative | App.tsx:390-395 | A tick of the exam clock never goes below zero and never raises it. |
| SessionProps.FinishThenFeedback | App.tsx:91-104 | From any reachable exam, finishing requests feedback with the current case, marks and notes. Its resolution always reaches RESULTS with the override equal to the calculated score rounded to a tenth. |
| SessionProps.FallbackReachesResults | App.tsx:91-104 | With the service unreachable the session still reaches RESULTS. The final score is the locally computed 0-5 score and the fallback strength is shown. |
| SessionProps.FinishWithoutCaseIsStuck | App.tsx:91-94 | As written, finishing without a case parks the session in FEEDBACK_GENERATION for good. No session reachable under the invariant is in that state. |
| SessionProps.DownloadGate | App.tsx:106-120 | Download never changes the session. With a blank evaluator name the disabled button does nothing. Otherwise the saved report carries the student, case, marks, notes, feedback lists, evaluator, override and justification. |
| SessionProps.EveryEdgeIsTaken | App.tsx:55-104 | Every edge of the stage diagram is taken by some event from a reachable session. |
| ReportProps.DownloadedReport | App.tsx:106-118 | The report a download saves shows the override once on page 1, and the evaluator's signature once on the last page at the final cursor. Its checklist rows are one per item in order. A justification box appears exactly when a justification was typed. |
| Scoring.Credit | services/geminiService.ts:159-164 | An item earns 1 for CORRECT, 0.5 for PARTIAL and 0 for INCORRECT or NOT_DONE, each as an if-and-only-if. |
| Scoring.CreditFollowsRank | services/geminiService.ts:159-164 | Credit follows the upgrade order NOT_DONE/INCORRECT, PARTIAL, CORRECT in both directions. |
| Scoring.RawScore | services/geminiService.ts:157-166 | The summed credit lies between 0 and the item count. |
| Scoring.Score | services/geminiService.ts:168 | For a non-empty checklist the score lies in [0, 5]. |
| Scoring.MathScore | services/geminiService.ts:168 | The JavaScript number: NaN exactly for an empty checklist, otherwise within [0, 5]. |
| Scoring.ComputeMathScore | services/geminiService.ts:156-168 | The item-by-item loop computes the raw sum and the score. |
| Scoring.RawScoreByCounts | services/geminiService.ts:159-166 | The raw score is the number of CORRECT items plus half the number of PARTIAL ones, an absent key counting as NOT_DONE. |
| Scoring.ScoreByCounts | services/geminiService.ts:156-168 | score = (5 * #CORRECT + 2.5 * #PARTIAL) / item count. |
| Scoring.RawScoreMonotone | services/geminiService.ts:159-166 | Marks that are nowhere worse, item by item, give a raw score that is not lower. |
| Scoring.ScoreMonotone | services/geminiService.ts:159-168 | Upgrading one item's mark never lowers the score. |
| Scoring.RawScoreOnlyReadsItems | services/geminiService.ts:159-160 | Two mark maps that agree on every checklist item give the same raw score. |
| Scoring.ForeignKeyIgnored | services/geminiService.ts:159-160 | A mark for a key that names no checklist item does not change the score. |
| Scoring.AbsentScoresAsNotDone | services/geminiService.ts:160 | An absent key scores exactly like an explicit NOT_DONE. |
| Scoring.WorkedExample | services/geminiService.ts:159-168 | CORRECT, CORRECT, PARTIAL and an absent mark give raw 2.5 and score 3.125. |
| Scoring.GenerateFeedback | services/geminiService.ts:211-225 | The final score always equals the calculated one. On success the scores and lists are the reply's. On failure the score is the local score and each list is its fixed one-element message. |
| Scoring.FallbackScoreInRange | services/geminiService.ts:217-225 | On failure with a non-empty checklist the final score is finite, equals the local score and lies in [0, 5]. |
| Scoring.GenerateCase | services/geminiService.ts:137-142 | A reply succeeds exactly when it is present, and then its topic is overwritten with the requested one. |
| Timer.Tick | components/Timer.tsx:13-21 | An active clock above zero counts down by one. An active clock at zero fires `onFinish` and stays at zero. Nothing else changes the count or fires. |
| Timer.CountdownClosedForm | components/Timer.tsx:13-21 | Started at s >= 0 and left running, the clock reads max(s - n, 0) after n ticks. It has fired exactly when n > s. |
| Timer.WarningPersists | components/Timer.tsx:30 | Once the last-minute warning shows, no tick removes it. |
| Timer.FormatTimeRoundTrip | components/Timer.tsx:24-28 | For t >= 0 both fields are digit strings and the seconds field reads below 60. Reading them back gives minutes * 60 + seconds = t. |
| Timer.FormatTime | components/Timer.tsx:24-28 | For t >= 0 the display ends in a colon and two digits. The digits before the colon read back as the minutes and the two after as the seconds, below 60, with minutes * 60 + seconds = t. Below 6000 seconds the display is exactly five characters, "mm:ss". |
| Timer.WarningMatchesDisplay | components/Timer.tsx:24-30 | `isWarning` (at most 60 seconds) is on exactly while the display reads "01:00" or shows "00" minutes. |
| Text.TrimStart | App.tsx:107 | `trimStart()` removes a blank prefix and nothing more: the result is a suffix that does not start with white space. |
| Text.TrimEnd | App.tsx:107 | `trimEnd()` removes a blank suffix and nothing more: the result is a prefix that does not end with white space. |
| Text.Trim | App.tsx:107 | `trim()` returns an infix of the string, with only white space cut from either side, that neither starts nor ends with white space. |
| Text.TrimEmptyIffBlank | App.tsx:107 | `trim()` is empty exactly when the string is all white space, in both directions. |
| Text.NatToString | components/Timer.tsx:27 | `toString()` of a non-negative integer is a non-empty digit string with no leading zero, one digit long exactly below 10. |
| Text.ParseNatToString | components/Timer.tsx:27 | Reading the decimal digits of n back gives n. |
| Layout.CheckPageBreak | utils/pdfGenerator.ts:22-29 | A block that would cross the bottom margin moves to the top (20) of exactly the next page. Otherwise the cursor is unchanged. |
| Layout.PageBreakMakesRoom | utils/pdfGenerator.ts:22-29 | After the check, a block fits above the margin unless it is taller than a whole page. The page grows by at most one. |
| Layout.SectionTitle | utils/pdfGenerator.ts:32-41 | A section title is drawn after a check for 15 units, and the cursor ends 12 below it. |
| Layout.Heading | utils/pdfGenerator.ts:43-105 | The banner, the info boxes and the score line are all on page 1. The cursor ends at the score line's Y (97). |
| Layout.HeadingScore | utils/pdfGenerator.ts:96-105 | The heading shows the final score exactly once, at Y 97 of page 1. |
| Layout.Justification | utils/pdfGenerator.ts:107-132 | With a non-empty justification, one box of height lines*5+12 is drawn 8 below, after a page-break check, and the cursor ends 5 under it. Otherwise nothing is drawn and the cursor moves 15. |
| Layout.Bullets | utils/pdfGenerator.ts:161-167 | The bullets of a block are exactly its items, in order, on pages from the cursor's onward. |
| Layout.BulletsFit | utils/pdfGenerator.ts:161-167 | No bullet crosses the bottom margin unless it is taller than a page. |
| Layout.Block | utils/pdfGenerator.ts:141-170 | Each block opens with its header after a check for 20 units. An empty list draws one placeholder line 10 below the header, and the cursor moves 6 + 6 past it. |
| Layout.BlockParts | utils/pdfGenerator.ts:141-170 | A block is its header followed by the placeholder or by its bullets, 10 units under the header. |
| Layout.BlockOpens | utils/pdfGenerator.ts:143-150 | A block holds exactly one header, and it comes first. |
| Layout.BlockItems | utils/pdfGenerator.ts:157-167 | The bullets of a block are its list, in order; an empty list has none. |
| Layout.FeedbackOrder | utils/pdfGenerator.ts:134-170 | The feedback section holds exactly three headers: strengths, weaknesses, then recommendations. |
| Layout.FeedbackItems | utils/pdfGenerator.ts:134-170 | The feedback bullets are the strengths, then the weaknesses, then the recommendations. |
| Layout.BadgeText | utils/pdfGenerator.ts:197-210 | The badge reads "NO REALIZADO" exactly for NOT_DONE, which includes an absent key. |
| Layout.BadgeInjective | utils/pdfGenerator.ts:197-210 | The four statuses have four different badges. |
| Layout.RowFor | utils/pdfGenerator.ts:196-234 | Item i's row carries index i, the text "[category] text", the badge of its status and the height lines*4.5+6, the lines measured at 8 points for the first row and 9 for the others. It is shaded exactly for even i. |
| Layout.FeedbackBlocks | utils/pdfGenerator.ts:134-172 | The three feedback blocks draw only block headers, placeholders and bullets, on pages from the cursor's onward. Their headers and bullets are pinned by FeedbackOrder and FeedbackItems. |
| Layout.RowStep | utils/pdfGenerator.ts:216-248 | A row that does not fit moves to the next page, where the header is redrawn at 20 and the row starts at 28. Otherwise the row is drawn at the cursor. The cursor ends one row height below it. |
| Layout.ExpectedRowAt | utils/pdfGenerator.ts:196-214 | The expected row list has one row per item, and entry k is item k's row. |
| Layout.Rows | utils/pdfGenerator.ts:195-249 | The row loop draws only rows and repeated table headers, on pages from the cursor's onward. A non-empty checklist ends with a row on the page where the cursor stops. |
| Layout.RowsInOrder | utils/pdfGenerator.ts:195-249 | The rows drawn are exactly the expected rows, one per item in checklist order. |
| Layout.RowsNeverSplit | utils/pdfGenerator.ts:216-228 | No row crosses the bottom margin unless it is taller than a page. |
| Layout.RowsHeadered | utils/pdfGenerator.ts:216-228 | A row that starts a new page follows a header on that same page. |
| Layout.TableStart | utils/pdfGenerator.ts:175-178 | The table starts on a fresh page exactly when the cursor is below pageHeight - 60. |
| Layout.Table | utils/pdfGenerator.ts:174-193 | The table opens with its title and, 8 below, the column header, on the page the start rule picks. |
| Layout.TableRowsInOrder | utils/pdfGenerator.ts:174-249 | The table's rows are the expected rows, in checklist order. |
| Layout.TableHeadered | utils/pdfGenerator.ts:174-249 | Each row is preceded, on the same page, by a header or another row. |
| Layout.TableFits | utils/pdfGenerator.ts:174-249 | No table row crosses the bottom margin unless it is taller than a page. |
| Layout.Notes | utils/pdfGenerator.ts:251-266 | Empty notes draw nothing. Otherwise there is a title and a box of height lines*5+10, and the cursor stays at the box's top. |
| Layout.SignatureBlock | utils/pdfGenerator.ts:268-288 | A signature that needs more than the 30 units left goes to a new page at 40. Otherwise it is drawn 30 lower on the same page. |
| Layout.SignatureInsideTallNotes | utils/pdfGenerator.ts:259-274 | Because the notes box leaves the cursor at its top, a box of five or more lines is overlapped by the signature on the same page. |
| Layout.Footers | utils/pdfGenerator.ts:291-298 | Page j of n receives the footer "j of n", for every j in 1..n. |
| Layout.Sections | utils/pdfGenerator.ts:43-288 | Each section draws only its own kind of op, and each starts on or after the page where the previous one left the cursor, beginning on page 1. |
| Layout.Generate | utils/pdfGenerator.ts:4-298 | A report has at least one page. |
| Layout.FooterOnEveryPage | utils/pdfGenerator.ts:291-298 | The footers of the report are exactly one per page, numbered 1 to the page count. |
| Layout.PagesInRange | utils/pdfGenerator.ts:22-298 | Every op of the report lies on a page from 1 to the page count. |
| Layout.ScoreShownOnce | utils/pdfGenerator.ts:105 | The final score appears exactly once, on page 1. |
| Layout.SignedOnce | utils/pdfGenerator.ts:268-288 | The signature appears exactly once, on the last page, at the final cursor. |
| Layout.JustificationShownIff | utils/pdfGenerator.ts:107-132 | A justification box with the justification's text appears exactly when the justification is non-empty. |
| Layout.FeedbackHeadersInOrder | utils/pdfGenerator.ts:134-172 | The report shows the three feedback headers once each, in the order strengths, weaknesses, recommendations. |
| Layout.ChecklistRows | utils/pdfGenerator.ts:195-249 | The report's rows are the expected rows in checklist order. A row that starts a page follows a header, and no row is split. |
| Layout.FileName | utils/pdfGenerator.ts:301 | The file name is the name with its white-space runs collapsed (so no white space is left in that part), then an underscore, the id and ".pdf". |
| Layout.CollapseSpaces | utils/pdfGenerator.ts:301 | `replace(/\s+/g, '_')` leaves no white space and never lengthens the name. |
| Layout.CollapseKeepsWords | utils/pdfGenerator.ts:301 | A name without white space is kept as it is. |
| Layout.CollapseIdempotent | utils/pdfGenerator.ts:301 | Collapsing twice is collapsing once. |
| Layout.CollapseRun | utils/pdfGenerator.ts:301 | A maximal run of white space between a word and the rest becomes a single underscore. |

## Left out

- JSX rendering, CSS, icons, the topic lists and `alert` text (`App.tsx`, `types.ts:58-87`): presentation and static data. The alert is the `AlertMissingEvaluator` effect.
- The Gemini SDK calls, prompts, response schemas and `JSON.parse`: external. A reply is an input (`Some` parsed value or `None` for any failure). `generateCase`'s `isProcedure` and `withPatient` flags only shape the prompt, so they appear only on the request effect.
- Evaluator notes only feed the feedback prompt, which is not modelled, so they do not affect the fallback.
- jsPDF primitives, colours, fonts and the drawn text strings: foreign library. `splitTextToSize` is the `Wrap` parameter, given the font size in effect at each call, and the page size is the `Geometry` parameter. Section titles and header strings are named constants, not rendered text.
- The date and time in the report banner (`utils/pdfGenerator.ts:54`): nondeterministic.
- `setInterval` scheduling and the React effect lifecycle: one tick stands for one run of the effect.
- Session.Step: the exam's `onFinish` callback is a no-op (`App.tsx:394`), so a tick at zero only affects the count. `Timer.Tick` reports the firing.
- Session.RoundToTenth: rounds the exact real, halves away from zero. Binary double rounding by `toFixed` is not modelled.
- The score override: the text box is kept as the number `parseFloat` reads, not the typed string. The clamping the input hints at (0 to 5) is not enforced by the code and not modelled.
- Session.FeedbackResolved: a reply that parses is assumed to follow the feedback schema (`services/geminiService.ts:49-58`), so its `calculatedScore` is always a number. The service casts the parsed JSON without checking it (`services/geminiService.ts:211-213`). A reply without a numeric `calculatedScore` makes `toFixed(1)` throw at `App.tsx:98`. The catch at `App.tsx:100-101` then sets the error message and leaves the session in FEEDBACK_GENERATION with the feedback already stored. That path is not modelled.
- Scoring.Score: requires a non-empty checklist, because the code divides by the item count unguarded. `Scoring.MathScore` models the JavaScript NaN for the empty case.
- Layout.ScoreShownOnce: the score line keeps the number. Its `toFixed(1)` text, including "NaN", is not modelled.
- Layout.Generate: the `doc.save` download itself is not modelled; `Layout.FileName` gives its name.
- Floating point in general: layout and score arithmetic is exact real arithmetic.
