/**
 The deterministic part of the AI service (services/geminiService.ts): the
 checklist score computed before the feedback request, the fallback feedback
 returned when that request fails, and the topic stamp on a generated case.
 The remote calls themselves are inputs: `None` stands for any failure
 (transport error, empty reply, reply that does not parse).
 */
module Scoring {
  import opened Types

  /** Credit of one checklist item. */
  function Credit(s: Status): (c: real)
    ensures 0.0 <= c <= 1.0
    ensures c == 1.0 <==> s == Correct
    ensures c == 0.5 <==> s == Partial
    ensures c == 0.0 <==> s == Incorrect || s == NotDone
  {
    match s
    case Correct => 1.0
    case Partial => 0.5
    case _ => 0.0
  }

  /** The order in which a mark can be upgraded: NOT_DONE/INCORRECT, then PARTIAL, then CORRECT. */
  function Rank(s: Status): nat
  {
    match s
    case Correct => 2
    case Partial => 1
    case _ => 0
  }

  /** Credit follows the upgrade order. */
  lemma CreditFollowsRank(s: Status, t: Status)
    ensures Rank(s) <= Rank(t) <==> Credit(s) <= Credit(t)
  {
  }

  /** The sum of the items' credits, accumulated in checklist order. */
  function RawScore(checklist: seq<ChecklistItem>, responses: Responses): (raw: real)
    ensures 0.0 <= raw <= |checklist| as real
  {
    if checklist == [] then 0.0
    else
      RawScore(checklist[..|checklist| - 1], responses)
      + Credit(StatusOf(responses, checklist[|checklist| - 1].id))
  }

  /** The score on the 0-5 scale; the source divides by the checklist length unguarded. */
  function Score(checklist: seq<ChecklistItem>, responses: Responses): (score: real)
    requires |checklist| > 0
    ensures 0.0 <= score <= 5.0
  {
    (RawScore(checklist, responses) / |checklist| as real) * 5.0
  }

  /** `computedMathScore` as a JavaScript number: `0 / 0` is NaN for an empty checklist. */
  function MathScore(checklist: seq<ChecklistItem>, responses: Responses): (n: Num)
    ensures n.NaN? <==> |checklist| == 0
    ensures n.Finite? ==> 0.0 <= n.value <= 5.0
  {
    if |checklist| == 0 then NaN else Finite(Score(checklist, responses))
  }

  /** The score loop of `generateFeedback`, one item at a time. */
  method ComputeMathScore(checklist: seq<ChecklistItem>, responses: Responses)
    returns (raw: real, score: Num)
    ensures raw == RawScore(checklist, responses)
    ensures score == MathScore(checklist, responses)
  {
    raw := 0.0;
    var i := 0;
    while i < |checklist|
      invariant 0 <= i <= |checklist|
      invariant raw == RawScore(checklist[..i], responses)
    {
      assert checklist[..i + 1][..i] == checklist[..i];
      raw := raw + Credit(StatusOf(responses, checklist[i].id));
      i := i + 1;
    }
    assert checklist[..i] == checklist;
    if |checklist| == 0 {
      score := NaN;
    } else {
      score := Finite((raw / |checklist| as real) * 5.0);
    }
  }

  /** How many items carry status `s` (absent keys count as NOT_DONE). */
  function CountStatus(checklist: seq<ChecklistItem>, responses: Responses, s: Status): (n: nat)
    ensures n <= |checklist|
  {
    if checklist == [] then 0
    else
      CountStatus(checklist[..|checklist| - 1], responses, s)
      + (if StatusOf(responses, checklist[|checklist| - 1].id) == s then 1 else 0)
  }

  /** Reference definition of the raw score: one per CORRECT item plus a half per PARTIAL one. */
  lemma {:induction false} RawScoreByCounts(checklist: seq<ChecklistItem>, responses: Responses)
    ensures RawScore(checklist, responses)
            == CountStatus(checklist, responses, Correct) as real
               + CountStatus(checklist, responses, Partial) as real / 2.0
  {
    if checklist != [] {
      RawScoreByCounts(checklist[..|checklist| - 1], responses);
    }
  }

  /** The score counts five points per CORRECT item and two and a half per PARTIAL one, over the item count. */
  lemma ScoreByCounts(checklist: seq<ChecklistItem>, responses: Responses)
    requires |checklist| > 0
    ensures Score(checklist, responses)
            == (5.0 * CountStatus(checklist, responses, Correct) as real
                + 2.5 * CountStatus(checklist, responses, Partial) as real) / |checklist| as real
  {
    RawScoreByCounts(checklist, responses);
    ScaleQuotient(RawScore(checklist, responses), |checklist| as real);
  }

  lemma ScaleQuotient(x: real, k: real)
    requires k > 0.0
    ensures (x / k) * 5.0 == (5.0 * x) / k
  {
  }

  /** The marks of `lo` are nowhere better than those of `hi`, item by item. */
  predicate Dominated(checklist: seq<ChecklistItem>, lo: Responses, hi: Responses)
  {
    forall i :: 0 <= i < |checklist| ==>
      Rank(StatusOf(lo, checklist[i].id)) <= Rank(StatusOf(hi, checklist[i].id))
  }

  lemma {:induction false} RawScoreMonotone(checklist: seq<ChecklistItem>, lo: Responses, hi: Responses)
    requires Dominated(checklist, lo, hi)
    ensures RawScore(checklist, lo) <= RawScore(checklist, hi)
  {
    if checklist != [] {
      var n := |checklist| - 1;
      assert Dominated(checklist[..n], lo, hi) by {
        forall i | 0 <= i < n
          ensures Rank(StatusOf(lo, checklist[..n][i].id)) <= Rank(StatusOf(hi, checklist[..n][i].id))
        {
          assert checklist[..n][i] == checklist[i];
        }
      }
      RawScoreMonotone(checklist[..n], lo, hi);
      CreditFollowsRank(StatusOf(lo, checklist[n].id), StatusOf(hi, checklist[n].id));
    }
  }

  /** Upgrading the mark of one item never lowers the score. */
  lemma ScoreMonotone(checklist: seq<ChecklistItem>, responses: Responses, id: string, s: Status)
    requires |checklist| > 0
    requires Rank(StatusOf(responses, id)) <= Rank(s)
    ensures Score(checklist, responses) <= Score(checklist, responses[id := s])
  {
    var hi := responses[id := s];
    assert Dominated(checklist, responses, hi) by {
      forall i | 0 <= i < |checklist|
        ensures Rank(StatusOf(responses, checklist[i].id)) <= Rank(StatusOf(hi, checklist[i].id))
      {
      }
    }
    RawScoreMonotone(checklist, responses, hi);
    DivideMonotone(RawScore(checklist, responses), RawScore(checklist, hi), |checklist| as real);
  }

  lemma DivideMonotone(a: real, b: real, k: real)
    requires a <= b && k > 0.0
    ensures a / k <= b / k
  {
    var x, y := a / k, b / k;
    assert (y - x) * k == b - a;
  }

  /** Two response maps that agree on every item's status give the same raw score. */
  lemma {:induction false} RawScoreOnlyReadsItems(checklist: seq<ChecklistItem>, r1: Responses, r2: Responses)
    requires forall i :: 0 <= i < |checklist| ==> StatusOf(r1, checklist[i].id) == StatusOf(r2, checklist[i].id)
    ensures RawScore(checklist, r1) == RawScore(checklist, r2)
  {
    if checklist != [] {
      var n := |checklist| - 1;
      assert forall i :: 0 <= i < n ==> checklist[..n][i] == checklist[i];
      RawScoreOnlyReadsItems(checklist[..n], r1, r2);
    }
  }

  /** A response key that names no checklist item does not affect the score. */
  lemma ForeignKeyIgnored(checklist: seq<ChecklistItem>, responses: Responses, key: string, s: Status)
    requires |checklist| > 0
    requires forall i :: 0 <= i < |checklist| ==> checklist[i].id != key
    ensures Score(checklist, responses[key := s]) == Score(checklist, responses)
  {
    RawScoreOnlyReadsItems(checklist, responses[key := s], responses);
  }

  /** An absent key scores exactly like an explicit NOT_DONE. */
  lemma AbsentScoresAsNotDone(checklist: seq<ChecklistItem>, responses: Responses, key: string)
    requires |checklist| > 0
    requires key !in responses
    ensures Score(checklist, responses[key := NotDone]) == Score(checklist, responses)
  {
    RawScoreOnlyReadsItems(checklist, responses[key := NotDone], responses);
  }

  /** Four items marked CORRECT, CORRECT, PARTIAL and (absent) score 2.5 raw and 3.125 in all. */
  lemma WorkedExample()
    ensures
      var checklist := [ChecklistItem("a", "c", "t"), ChecklistItem("b", "c", "t"),
                        ChecklistItem("c", "c", "t"), ChecklistItem("d", "c", "t")];
      var responses := map["a" := Correct, "b" := Correct, "c" := Partial];
      RawScore(checklist, responses) == 2.5 && Score(checklist, responses) == 3.125
  {
    var a, b, c, d := ChecklistItem("a", "c", "t"), ChecklistItem("b", "c", "t"),
                      ChecklistItem("c", "c", "t"), ChecklistItem("d", "c", "t");
    var responses := map["a" := Correct, "b" := Correct, "c" := Partial];
    assert "d" !in responses;
    assert [a, b, c, d][..3] == [a, b, c];
    assert [a, b, c][..2] == [a, b];
    assert [a, b][..1] == [a];
    assert [a][..0] == [];
    assert RawScore([a], responses) == 1.0;
    assert RawScore([a, b], responses) == 2.0;
    assert RawScore([a, b, c], responses) == 2.5;
  }

  /** The parsed reply of the feedback model (`feedbackSchema`). */
  datatype AiFeedback = AiFeedback(
    calculatedScore: real,
    strengths: seq<string>,
    weaknesses: seq<string>,
    recommendations: seq<string>)

  const FallbackStrength: string := "No se pudo generar análisis AI."
  const FallbackWeakness: string := "Verificar conexión."
  const FallbackRecommendation: string := "Revisar guías estándar."

  /**
   `generateFeedback`: the model's reply with `finalScore` stamped to its
   `calculatedScore`, or, on any failure, the fixed fallback carrying the
   locally computed score. It never fails.
   */
  function GenerateFeedback(caseData: CaseData, responses: Responses, reply: Option<AiFeedback>): (f: FeedbackData)
    ensures f.finalScore == f.calculatedScore
    ensures f.justification == None
    ensures reply.Some? ==>
      && f.calculatedScore == Finite(reply.value.calculatedScore)
      && f.strengths == reply.value.strengths
      && f.weaknesses == reply.value.weaknesses
      && f.recommendations == reply.value.recommendations
    ensures reply.None? ==>
      && f.calculatedScore == MathScore(caseData.checklist, responses)
      && f.strengths == [FallbackStrength]
      && f.weaknesses == [FallbackWeakness]
      && f.recommendations == [FallbackRecommendation]
  {
    match reply
    case Some(ai) =>
      FeedbackData(Finite(ai.calculatedScore), Finite(ai.calculatedScore),
                   ai.strengths, ai.weaknesses, ai.recommendations, None)
    case None =>
      var score := MathScore(caseData.checklist, responses);
      FeedbackData(score, score, [FallbackStrength], [FallbackWeakness], [FallbackRecommendation], None)
  }

  /** On the fallback path the final score equals the locally computed 0-5 score. */
  lemma FallbackScoreInRange(caseData: CaseData, responses: Responses)
    requires |caseData.checklist| > 0
    ensures var f := GenerateFeedback(caseData, responses, None);
      f.finalScore.Finite? && f.finalScore.value == Score(caseData.checklist, responses)
      && 0.0 <= f.finalScore.value <= 5.0
  {
  }

  /**
   `generateCase`: the parsed case with its `topic` overwritten by the requested
   one; an empty or failed reply is a failure.
   */
  function GenerateCase(topic: string, reply: Option<CaseData>): (r: Option<CaseData>)
    ensures r.Some? <==> reply.Some?
    ensures r.Some? ==> r.value.topic == topic && r.value == reply.value.(topic := topic)
  {
    match reply
    case Some(data) => Some(data.(topic := topic))
    case None => None
  }
}
