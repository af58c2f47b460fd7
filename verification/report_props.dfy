/**
 What the evaluator gets from the results screen: the report generated from
 the request a download saves, in terms of the session it was saved from.
 */
module ReportProps {
  import opened Types
  import opened Text
  import opened Session
  import opened SessionProps
  import opened Layout

  /**
   Downloading a reachable result with an evaluator named yields a report that
   shows the overridden score once on page 1, is signed once by that evaluator
   at the end of the body, lists one row per checklist item in order with the
   session's marks, and shows a justification box exactly when one was written.
   */
  lemma DownloadedReport(s: Session, g: Geometry, wrap: Wrap)
    requires Inv(s) && s.stage == Results && !Blank(s.evaluatorName)
    ensures var e := Step(s, DownloadReport).effect;
      && e.SaveReport?
      && var pdf := Generate(e.report, g, wrap);
      && Select(pdf.ops, ScoreKind) == [Placed(1, ScoreY, ScoreLine(s.scoreOverride))]
      && Select(pdf.ops, SignatureKind) == [Placed(pdf.pages, pdf.finalY, Signature(s.evaluatorName))]
      && OpsOf(Select(pdf.ops, RowKind)) == ExpectedRows(s.caseData.value.checklist, 0, s.responses, g, wrap)
      && (Select(pdf.ops, JustificationKind) != [] <==> s.justification != "")
  {
    DownloadGate(s);
    var req := Step(s, DownloadReport).effect.report;
    ScoreShownOnce(req, g, wrap);
    SignedOnce(req, g, wrap);
    ChecklistRows(req, g, wrap);
    JustificationShownIff(req, g, wrap);
  }
}
