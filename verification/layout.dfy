/**
 The layout pass of the report generator (utils/pdfGenerator.ts) as a pure
 function. Instead of drawing, it returns the ordered list of the blocks it
 would draw, each placed on a page at a vertical position, the running
 cursor and the page count.

 Colours and font faces are not modelled, and neither is the wrapping of
 text: the page size is a parameter and `wrap(text, width, fontSize)` stands
 for the number of lines `splitTextToSize` returns at the font size in effect.
 */
module Layout {
  import opened Types
  import opened Text
  import Session

  /**
   Line count of `splitTextToSize(text, width)` at a font size: jsPDF
   measures text at the size in effect when it is called.
   */
  type Wrap = (string, real, real) -> nat

  /** The font size in effect at each measurement. */
  const TopicFontSize: real := 10.0
  /** The justification is measured right after the 16-point score line. */
  const JustificationFontSize: real := 16.0
  const BulletFontSize: real := 9.0
  /** The notes are measured right after their 10-point section title. */
  const NotesFontSize: real := 10.0

  /**
   The first row is measured at the table header's 8 points; every later row
   at the 9 points the row before it left for its item text.
   */
  function RowFontSize(index: nat): real
  {
    if index == 0 then 8.0 else 9.0
  }

  datatype Geometry = Geometry(pageWidth: real, pageHeight: real)

  const Margin: real := 15.0
  /** The cursor after `addPage`. */
  const TopY: real := 20.0
  /** Where the first row goes below a table header re-drawn at the top of a page. */
  const TableTop: real := TopY + 8.0

  function ContentWidth(g: Geometry): real { g.pageWidth - Margin * 2.0 }
  function ColumnWidth(g: Geometry): real { ContentWidth(g) / 2.0 - 3.0 }
  /** The lowest Y a block may reach before a page break is due. */
  function Bottom(g: Geometry): real { g.pageHeight - Margin }

  /** Where drawing continues: the current page (counted from 1) and Y on it. */
  datatype Cursor = Cursor(page: nat, y: real)

  datatype Op =
    | Banner
    | StudentBox(name: string, id: string)
    | CaseBox(topic: string, topicLines: nat)
    | ScoreRule
    | ScoreLine(score: Num)
    | JustificationBox(text: string, height: real)
    | BlockHeader(title: string)
    | Bullet(item: string, lines: nat)
    | NoComments
    | TableTitle
    | TableHeader
    | Row(index: nat, badge: string, text: string, height: real, shaded: bool)
    | NotesTitle
    | NotesBox(lines: nat, height: real)
    | Signature(evaluator: string)
    | Footer(page: nat, total: nat)

  datatype Placed = Placed(page: nat, y: real, op: Op)

  /** A section's output: the cursor after it and what it drew. */
  datatype Drawn = Drawn(cursor: Cursor, ops: seq<Placed>)

  /** The laid-out report. */
  datatype Pdf = Pdf(ops: seq<Placed>, pages: nat, finalY: real)


  // ---------------------------------------------------------------------------
  // Kinds of op, sections, and selecting the ops of one kind

  /** The kinds of op the report's properties single out. */
  datatype Kind = RowKind | FooterKind | HeaderKind | SignatureKind | ScoreKind | JustificationKind

  predicate OfKind(o: Op, k: Kind)
  {
    match k
    case RowKind => o.Row?
    case FooterKind => o.Footer?
    case HeaderKind => o.BlockHeader?
    case SignatureKind => o.Signature?
    case ScoreKind => o.ScoreLine?
    case JustificationKind => o.JustificationBox?
  }

  /** The sections of the report body, in drawing order. */
  datatype Section =
    HeadingSection | JustificationSection | FeedbackSection | TableSection | NotesSection | SignatureSection

  /** What each section may draw. */
  predicate InSection(o: Op, s: Section)
  {
    match s
    case HeadingSection => o.Banner? || o.StudentBox? || o.CaseBox? || o.ScoreRule? || o.ScoreLine?
    case JustificationSection => o.JustificationBox?
    case FeedbackSection => o.BlockHeader? || o.Bullet? || o.NoComments?
    case TableSection => o.TableTitle? || o.TableHeader? || o.Row?
    case NotesSection => o.NotesTitle? || o.NotesBox?
    case SignatureSection => o.Signature?
  }

  /** The one section that draws ops of kind `k`, if any. */
  predicate Draws(s: Section, k: Kind)
  {
    match s
    case HeadingSection => k == ScoreKind
    case JustificationSection => k == JustificationKind
    case FeedbackSection => k == HeaderKind
    case TableSection => k == RowKind
    case NotesSection => false
    case SignatureSection => k == SignatureKind
  }

  /** Every op in `ops` belongs to section `s`. */
  predicate Only(ops: seq<Placed>, s: Section)
  {
    forall p :: p in ops ==> InSection(p.op, s)
  }

  /** Every op in `ops` lies on a page from `lo` to `hi`. */
  predicate OnPages(ops: seq<Placed>, lo: nat, hi: nat)
  {
    forall p :: p in ops ==> lo <= p.page <= hi
  }

  /** A section started at cursor `c` ends on the same or a later page, and draws only on the pages in between. */
  predicate Continues(c: Cursor, d: Drawn)
  {
    c.page <= d.cursor.page && OnPages(d.ops, c.page, d.cursor.page)
  }

  lemma OnPagesAppend(a: seq<Placed>, b: seq<Placed>, lo: nat, hi: nat)
    requires OnPages(a, lo, hi) && OnPages(b, lo, hi)
    ensures OnPages(a + b, lo, hi)
  {
  }

  // Sequence facts used by the inductive proofs below, each proved in isolation.

  lemma EmptyAppend<T>(s: seq<T>)
    ensures [] + s == s
  {
  }

  lemma Uncons<T>(a: seq<T>)
    requires a != []
    ensures a == [a[0]] + a[1..]
  {
  }

  lemma Assoc<T>(x: seq<T>, y: seq<T>, z: seq<T>)
    ensures x + (y + z) == (x + y) + z
  {
  }

  lemma TailAppend<T>(a: seq<T>, b: seq<T>)
    requires a != []
    ensures (a + b)[0] == a[0] && (a + b)[1..] == a[1..] + b
  {
  }

  /** The ops of kind `k`, in document order. */
  function Select(ops: seq<Placed>, k: Kind): (r: seq<Placed>)
    ensures |r| <= |ops|
  {
    if ops == [] then []
    else (if OfKind(ops[0].op, k) then [ops[0]] else []) + Select(ops[1..], k)
  }

  lemma {:induction false} SelectAppend(a: seq<Placed>, b: seq<Placed>, k: Kind)
    ensures Select(a + b, k) == Select(a, k) + Select(b, k)
  {
    if a == [] {
      EmptyAppend(b);
    } else {
      var h := if OfKind(a[0].op, k) then [a[0]] else [];
      TailAppend(a, b);
      SelectAppend(a[1..], b, k);
      assert Select(a + b, k) == h + Select(a[1..] + b, k);
      assert Select(a, k) == h + Select(a[1..], k);
      Assoc(h, Select(a[1..], k), Select(b, k));
    }
  }

  lemma {:induction false} SelectNone(a: seq<Placed>, k: Kind)
    requires forall p :: p in a ==> !OfKind(p.op, k)
    ensures Select(a, k) == []
  {
    if a != [] {
      assert a[0] in a;
      assert forall p :: p in a[1..] ==> p in a;
      SelectNone(a[1..], k);
    }
  }

  /** Selecting from ops that are all of kind `k` keeps them all. */
  lemma {:induction false} SelectAll(a: seq<Placed>, k: Kind)
    requires forall p :: p in a ==> OfKind(p.op, k)
    ensures Select(a, k) == a
  {
    if a != [] {
      assert a[0] in a;
      assert forall p :: p in a[1..] ==> p in a;
      SelectAll(a[1..], k);
    }
  }

  /** A section holds no op of a kind it does not draw. */
  lemma OnlyNone(ops: seq<Placed>, s: Section, k: Kind)
    requires Only(ops, s) && !Draws(s, k)
    ensures Select(ops, k) == []
  {
    SelectNone(ops, k);
  }

  // ---------------------------------------------------------------------------
  // The page-break rule

  /** `checkPageBreak(h)`: a block of height `h` that would pass the bottom margin starts a new page. */
  function CheckPageBreak(c: Cursor, h: real, g: Geometry): (r: Cursor)
    ensures c.y + h > Bottom(g) ==> r == Cursor(c.page + 1, TopY)
    ensures c.y + h <= Bottom(g) ==> r == c
  {
    if c.y + h > Bottom(g) then Cursor(c.page + 1, TopY) else c
  }

  /** After a page-break check, a block of height `h` fits, unless it is taller than a whole page. */
  lemma PageBreakMakesRoom(c: Cursor, h: real, g: Geometry)
    ensures var r := CheckPageBreak(c, h, g);
      r.page == c.page || r.page == c.page + 1
    ensures var r := CheckPageBreak(c, h, g);
      r.y + h <= Bottom(g) || (r.y == TopY && TopY + h > Bottom(g))
  {
  }

  /** `drawSectionTitle`: checks for 15 units, then advances 12. */
  function SectionTitle(c: Cursor, op: Op, g: Geometry): (d: Drawn)
    ensures |d.ops| == 1 && d.ops[0].op == op
    ensures var at := CheckPageBreak(c, 15.0, g);
      d.ops[0].page == at.page && d.ops[0].y == at.y && d.cursor == Cursor(at.page, at.y + 12.0)
  {
    var at := CheckPageBreak(c, 15.0, g);
    Drawn(Cursor(at.page, at.y + 12.0), [Placed(at.page, at.y, op)])
  }

  // ---------------------------------------------------------------------------
  // Sections 1-3: banner, info boxes, score line, justification

  /** Y of the info boxes, the rule and the score line on page 1. */
  const BoxesY: real := 40.0
  const RuleY: real := BoxesY + 35.0 + 12.0
  const ScoreY: real := RuleY + 10.0

  /** The banner, the two info boxes and the rule under them, all on page 1. */
  function HeadingBoxes(req: Session.ReportRequest, g: Geometry, wrap: Wrap): (ops: seq<Placed>)
    ensures forall p :: p in ops ==> p.page == 1 && InSection(p.op, HeadingSection) && !p.op.ScoreLine?
  {
    [Placed(1, 0.0, Banner),
     Placed(1, BoxesY, StudentBox(req.student.name, req.student.id)),
     Placed(1, BoxesY, CaseBox(req.caseData.topic, wrap(req.caseData.topic, ColumnWidth(g) - 8.0, TopicFontSize))),
     Placed(1, RuleY, ScoreRule)]
  }

  /** Banner, the two info boxes and the final score line, all on page 1. */
  function Heading(req: Session.ReportRequest, g: Geometry, wrap: Wrap): (d: Drawn)
    ensures d.cursor == Cursor(1, ScoreY)
    ensures Only(d.ops, HeadingSection) && OnPages(d.ops, 1, 1)
  {
    Drawn(Cursor(1, ScoreY), HeadingBoxes(req, g, wrap) + [Placed(1, ScoreY, ScoreLine(req.feedback.finalScore))])
  }

  /** The heading shows the final score once, on the score line of page 1. */
  lemma HeadingScore(req: Session.ReportRequest, g: Geometry, wrap: Wrap)
    ensures Select(Heading(req, g, wrap).ops, ScoreKind) == [Placed(1, ScoreY, ScoreLine(req.feedback.finalScore))]
  {
    var boxes := HeadingBoxes(req, g, wrap);
    var line := Placed(1, ScoreY, ScoreLine(req.feedback.finalScore));
    SelectAppend(boxes, [line], ScoreKind);
    SelectNone(boxes, ScoreKind);
    SelectAll([line], ScoreKind);
    assert Select(boxes, ScoreKind) + Select([line], ScoreKind) == [line];
  }


  /** The justification box: present only for a non-empty justification. */
  predicate HasJustification(f: FeedbackData)
  {
    f.justification.Some? && f.justification.value != []
  }

  function JustificationHeight(lines: nat): real { lines as real * 5.0 + 12.0 }

  /**
   Section 3b: a box sized to the justification's wrapped lines, after a
   page-break check; without a justification the cursor just advances 15.
   */
  function Justification(c: Cursor, f: FeedbackData, g: Geometry, wrap: Wrap): (d: Drawn)
    ensures !HasJustification(f) ==> d.ops == [] && d.cursor == Cursor(c.page, c.y + 15.0)
    ensures HasJustification(f) ==>
      var h := JustificationHeight(wrap(f.justification.value, ContentWidth(g) - 4.0, JustificationFontSize));
      var at := CheckPageBreak(Cursor(c.page, c.y + 8.0), h, g);
      && d.ops == [Placed(at.page, at.y, JustificationBox(f.justification.value, h))]
      && d.cursor == Cursor(at.page, at.y + h + 5.0)
    ensures Only(d.ops, JustificationSection) && Continues(c, d)
  {
    if HasJustification(f) then
      var text := f.justification.value;
      var h := JustificationHeight(wrap(text, ContentWidth(g) - 4.0, JustificationFontSize));
      var at := CheckPageBreak(Cursor(c.page, c.y + 8.0), h, g);
      Drawn(Cursor(at.page, at.y + h + 5.0), [Placed(at.page, at.y, JustificationBox(text, h))])
    else
      Drawn(Cursor(c.page, c.y + 15.0), [])
  }

  // ---------------------------------------------------------------------------
  // Section 4: feedback blocks

  const StrengthsTitle: string := "Aspectos Logrados"
  const WeaknessesTitle: string := "Aspectos por Mejorar"
  const RecommendationsTitle: string := "Recomendaciones Clínicas"

  /** The items the bullets of `ops` show, in order. */
  function BulletTexts(ops: seq<Placed>): seq<string>
  {
    if ops == [] then []
    else (if ops[0].op.Bullet? then [ops[0].op.item] else []) + BulletTexts(ops[1..])
  }

  lemma {:induction false} BulletTextsAppend(a: seq<Placed>, b: seq<Placed>)
    ensures BulletTexts(a + b) == BulletTexts(a) + BulletTexts(b)
  {
    if a == [] {
      EmptyAppend(b);
    } else {
      var h := if a[0].op.Bullet? then [a[0].op.item] else [];
      TailAppend(a, b);
      BulletTextsAppend(a[1..], b);
      assert BulletTexts(a + b) == h + BulletTexts(a[1..] + b);
      assert BulletTexts(a) == h + BulletTexts(a[1..]);
      Assoc(h, BulletTexts(a[1..]), BulletTexts(b));
    }
  }

  /** Line count of one bulleted item: `splitTextToSize("• " + item, contentWidth - 6)`. */
  function BulletLines(item: string, g: Geometry, wrap: Wrap): nat
  {
    wrap("• " + item, ContentWidth(g) - 6.0, BulletFontSize)
  }

  /** Where the bullet for `item` goes when the cursor is at `c`: after a check for its height. */
  function BulletAt(c: Cursor, item: string, g: Geometry, wrap: Wrap): Placed
  {
    var at := CheckPageBreak(c, BulletLines(item, g, wrap) as real * 5.0, g);
    Placed(at.page, at.y, Bullet(item, BulletLines(item, g, wrap)))
  }

  /** The cursor below that bullet: its height plus 2. */
  function BulletNext(c: Cursor, item: string, g: Geometry, wrap: Wrap): Cursor
  {
    var p := BulletAt(c, item, g, wrap);
    Cursor(p.page, p.y + BulletLines(item, g, wrap) as real * 5.0 + 2.0)
  }

  /** The bulleted items of one block: each checks for its own height, then advances it plus 2. */
  function Bullets(c: Cursor, items: seq<string>, g: Geometry, wrap: Wrap): (d: Drawn)
    ensures forall p :: p in d.ops ==> p.op.Bullet?
    ensures BulletTexts(d.ops) == items
    ensures Continues(c, d)
    decreases |items|
  {
    if items == [] then Drawn(c, [])
    else
      var rest := Bullets(BulletNext(c, items[0], g, wrap), items[1..], g, wrap);
      assert ([BulletAt(c, items[0], g, wrap)] + rest.ops)[1..] == rest.ops;
      Drawn(rest.cursor, [BulletAt(c, items[0], g, wrap)] + rest.ops)
  }

  /** A bullet ends above the bottom margin unless it is at the top of a page and taller than the page allows. */
  predicate BulletFits(p: Placed, g: Geometry)
  {
    p.op.Bullet? ==>
      p.y + p.op.lines as real * 5.0 <= Bottom(g) || (p.y == TopY && TopY + p.op.lines as real * 5.0 > Bottom(g))
  }

  /** A bullet is placed after a check for its own height, so it fits. */
  lemma BulletAtFits(c: Cursor, item: string, g: Geometry, wrap: Wrap)
    ensures BulletFits(BulletAt(c, item, g, wrap), g)
  {
    PageBreakMakesRoom(c, BulletLines(item, g, wrap) as real * 5.0, g);
  }

  lemma {:induction false} BulletsFit(c: Cursor, items: seq<string>, g: Geometry, wrap: Wrap)
    ensures forall p :: p in Bullets(c, items, g, wrap).ops ==> BulletFits(p, g)
    decreases |items|
  {
    if items != [] {
      var next := BulletNext(c, items[0], g, wrap);
      BulletAtFits(c, items[0], g, wrap);
      BulletsFit(next, items[1..], g, wrap);
      FitsCons(BulletAt(c, items[0], g, wrap), Bullets(next, items[1..], g, wrap).ops, g);
    }
  }

  lemma FitsCons(x: Placed, rest: seq<Placed>, g: Geometry)
    requires BulletFits(x, g) && forall p :: p in rest ==> BulletFits(p, g)
    ensures forall p :: p in [x] + rest ==> BulletFits(p, g)
  {
  }

  /**
   One feedback block: a header band after a check for 20 units, then the
   bullets or, for an empty list, one placeholder line; then 6 more.
   */
  function Block(c: Cursor, title: string, items: seq<string>, g: Geometry, wrap: Wrap): (d: Drawn)
    ensures |d.ops| >= 1
    ensures var at := CheckPageBreak(c, 20.0, g);
      d.ops[0] == Placed(at.page, at.y, BlockHeader(title))
    ensures items == [] ==>
      var at := CheckPageBreak(c, 20.0, g);
      && d.ops == [Placed(at.page, at.y, BlockHeader(title)), Placed(at.page, at.y + 10.0, NoComments)]
      && d.cursor == Cursor(at.page, at.y + 10.0 + 6.0 + 6.0)
    ensures Only(d.ops, FeedbackSection) && Continues(c, d)
  {
    var at := CheckPageBreak(c, 20.0, g);
    var header := Placed(at.page, at.y, BlockHeader(title));
    var body := Cursor(at.page, at.y + 10.0);
    if items == [] then
      Drawn(Cursor(body.page, body.y + 6.0 + 6.0), [header, Placed(body.page, body.y, NoComments)])
    else
      var bullets := Bullets(body, items, g, wrap);
      Drawn(Cursor(bullets.cursor.page, bullets.cursor.y + 6.0), [header] + bullets.ops)
  }

  /** The header band, then the block's items, or the placeholder line when it has none. */
  lemma BlockParts(c: Cursor, title: string, items: seq<string>, g: Geometry, wrap: Wrap)
    ensures var d := Block(c, title, items, g, wrap);
      var at := CheckPageBreak(c, 20.0, g);
      var rest := if items == [] then [Placed(at.page, at.y + 10.0, NoComments)]
                  else Bullets(Cursor(at.page, at.y + 10.0), items, g, wrap).ops;
      d.ops == [Placed(at.page, at.y, BlockHeader(title))] + rest
  {
    var at := CheckPageBreak(c, 20.0, g);
    if items == [] {
      assert [Placed(at.page, at.y, BlockHeader(title)), Placed(at.page, at.y + 10.0, NoComments)]
          == [Placed(at.page, at.y, BlockHeader(title))] + [Placed(at.page, at.y + 10.0, NoComments)];
    }
  }

  /** A block opens with its header band, its only one. */
  lemma BlockOpens(c: Cursor, title: string, items: seq<string>, g: Geometry, wrap: Wrap)
    ensures var d := Block(c, title, items, g, wrap);
      |d.ops| > 0 && d.ops[0].op == BlockHeader(title) && Select(d.ops, HeaderKind) == [d.ops[0]]
  {
    var at := CheckPageBreak(c, 20.0, g);
    var header := Placed(at.page, at.y, BlockHeader(title));
    BlockParts(c, title, items, g, wrap);
    if items == [] {
      OneHeader(header, [Placed(at.page, at.y + 10.0, NoComments)]);
    } else {
      OneHeader(header, Bullets(Cursor(at.page, at.y + 10.0), items, g, wrap).ops);
    }
  }

  /** A header band followed by ops that hold none. */
  lemma OneHeader(header: Placed, rest: seq<Placed>)
    requires header.op.BlockHeader?
    requires forall p :: p in rest ==> !p.op.BlockHeader?
    ensures Select([header] + rest, HeaderKind) == [header]
  {
    SelectAppend([header], rest, HeaderKind);
    SelectAll([header], HeaderKind);
    SelectNone(rest, HeaderKind);
  }

  /** A block lists its items, in order, and nothing else. */
  lemma BlockItems(c: Cursor, title: string, items: seq<string>, g: Geometry, wrap: Wrap)
    ensures BulletTexts(Block(c, title, items, g, wrap).ops) == items
  {
    var at := CheckPageBreak(c, 20.0, g);
    var header := Placed(at.page, at.y, BlockHeader(title));
    var rest := if items == [] then [Placed(at.page, at.y + 10.0, NoComments)]
                else Bullets(Cursor(at.page, at.y + 10.0), items, g, wrap).ops;
    BlockParts(c, title, items, g, wrap);
    BulletTextsAppend([header], rest);
    if items == [] {
      assert BulletTexts(rest) == [] by {
        assert rest[1..] == [];
      }
    }
  }

  /** The three blocks in fixed order, then 5 more. */
  function FeedbackBlocks(c: Cursor, f: FeedbackData, g: Geometry, wrap: Wrap): (d: Drawn)
    ensures Only(d.ops, FeedbackSection) && Continues(c, d)
  {
    var s := Block(c, StrengthsTitle, f.strengths, g, wrap);
    var w := Block(s.cursor, WeaknessesTitle, f.weaknesses, g, wrap);
    var r := Block(w.cursor, RecommendationsTitle, f.recommendations, g, wrap);
    Drawn(Cursor(r.cursor.page, r.cursor.y + 5.0), s.ops + w.ops + r.ops)
  }

  /** The feedback section has exactly three header bands: strengths, weaknesses, recommendations. */
  lemma FeedbackOrder(c: Cursor, f: FeedbackData, g: Geometry, wrap: Wrap)
    ensures var h := Select(FeedbackBlocks(c, f, g, wrap).ops, HeaderKind);
      && |h| == 3
      && h[0].op == BlockHeader(StrengthsTitle)
      && h[1].op == BlockHeader(WeaknessesTitle)
      && h[2].op == BlockHeader(RecommendationsTitle)
  {
    var s := Block(c, StrengthsTitle, f.strengths, g, wrap);
    var w := Block(s.cursor, WeaknessesTitle, f.weaknesses, g, wrap);
    var r := Block(w.cursor, RecommendationsTitle, f.recommendations, g, wrap);
    FeedbackStack(c, f, g, wrap);
    BlockOpens(c, StrengthsTitle, f.strengths, g, wrap);
    BlockOpens(s.cursor, WeaknessesTitle, f.weaknesses, g, wrap);
    BlockOpens(w.cursor, RecommendationsTitle, f.recommendations, g, wrap);
    ThreeHeaders(FeedbackBlocks(c, f, g, wrap).ops, s.ops, w.ops, r.ops);
  }

  /** The feedback section is the three blocks, one after the other. */
  lemma FeedbackStack(c: Cursor, f: FeedbackData, g: Geometry, wrap: Wrap)
    ensures var s := Block(c, StrengthsTitle, f.strengths, g, wrap);
      var w := Block(s.cursor, WeaknessesTitle, f.weaknesses, g, wrap);
      var r := Block(w.cursor, RecommendationsTitle, f.recommendations, g, wrap);
      FeedbackBlocks(c, f, g, wrap).ops == s.ops + w.ops + r.ops
  {
  }


  /** Three runs that each open with their only header band. */
  lemma ThreeHeaders(all: seq<Placed>, a: seq<Placed>, b: seq<Placed>, c: seq<Placed>)
    requires all == a + b + c
    requires |a| > 0 && |b| > 0 && |c| > 0
    requires Select(a, HeaderKind) == [a[0]] && Select(b, HeaderKind) == [b[0]] && Select(c, HeaderKind) == [c[0]]
    ensures Select(all, HeaderKind) == [a[0]] + [b[0]] + [c[0]]
  {
    SelectAppend(a, b, HeaderKind);
    SelectAppend(a + b, c, HeaderKind);
  }

  /** Every feedback item is listed, once, in order: strengths, then weaknesses, then recommendations. */
  lemma FeedbackItems(c: Cursor, f: FeedbackData, g: Geometry, wrap: Wrap)
    ensures BulletTexts(FeedbackBlocks(c, f, g, wrap).ops) == f.strengths + f.weaknesses + f.recommendations
  {
    var s := Block(c, StrengthsTitle, f.strengths, g, wrap);
    var w := Block(s.cursor, WeaknessesTitle, f.weaknesses, g, wrap);
    var r := Block(w.cursor, RecommendationsTitle, f.recommendations, g, wrap);
    FeedbackStack(c, f, g, wrap);
    BlockItems(c, StrengthsTitle, f.strengths, g, wrap);
    BlockItems(s.cursor, WeaknessesTitle, f.weaknesses, g, wrap);
    BlockItems(w.cursor, RecommendationsTitle, f.recommendations, g, wrap);
    BulletTextsAppend(s.ops, w.ops);
    BulletTextsAppend(s.ops + w.ops, r.ops);
  }
  // ---------------------------------------------------------------------------
  // Section 5: the checklist table

  /** The status badge of a row; a missing mark reads as NOT_DONE. */
  function BadgeText(s: Status): (t: string)
    ensures s == NotDone <==> t == "NO REALIZADO"
  {
    match s
    case Correct => "CORRECTO"
    case Partial => "PARCIAL"
    case Incorrect => "ERROR"
    case NotDone => "NO REALIZADO"
  }

  /** Different marks show different badges. */
  lemma BadgeInjective(s: Status, t: Status)
    ensures BadgeText(s) == BadgeText(t) <==> s == t
  {
  }

  function ItemText(item: ChecklistItem): string
  {
    "[" + item.category + "] " + item.text
  }

  function RowHeight(lines: nat): real { lines as real * 4.5 + 6.0 }

  /** The row drawn for item number `index`. */
  function RowFor(index: nat, item: ChecklistItem, responses: Responses, g: Geometry, wrap: Wrap): (o: Op)
    ensures o.Row? && o.index == index && o.text == "[" + item.category + "] " + item.text
    ensures o.height == wrap(o.text, ContentWidth(g) - 40.0, RowFontSize(index)) as real * 4.5 + 6.0 && o.height >= 6.0
    ensures o.badge == BadgeText(StatusOf(responses, item.id))
    ensures o.shaded <==> index % 2 == 0
  {
    Row(index, BadgeText(StatusOf(responses, item.id)), ItemText(item),
        RowHeight(wrap(ItemText(item), ContentWidth(g) - 40.0, RowFontSize(index))), index % 2 == 0)
  }

  /**
   One row: if it would pass the bottom margin, a new page starts with the
   table header re-drawn at the top and the row below it at 28.
   */
  function RowStep(c: Cursor, index: nat, item: ChecklistItem, responses: Responses, g: Geometry, wrap: Wrap): (d: Drawn)
    ensures var row := RowFor(index, item, responses, g, wrap);
      c.y + row.height > Bottom(g) ==>
        && d.ops == [Placed(c.page + 1, TopY, TableHeader), Placed(c.page + 1, TableTop, row)]
        && d.cursor == Cursor(c.page + 1, TableTop + row.height)
    ensures var row := RowFor(index, item, responses, g, wrap);
      c.y + row.height <= Bottom(g) ==>
        d.ops == [Placed(c.page, c.y, row)] && d.cursor == Cursor(c.page, c.y + row.height)
  {
    var row := RowFor(index, item, responses, g, wrap);
    if c.y + row.height > Bottom(g) then
      Drawn(Cursor(c.page + 1, TableTop + row.height),
            [Placed(c.page + 1, TopY, TableHeader), Placed(c.page + 1, TableTop, row)])
    else
      Drawn(Cursor(c.page, c.y + row.height), [Placed(c.page, c.y, row)])
  }

  /** The rows of items `from`, `from + 1`, ... in checklist order. */
  function Rows(c: Cursor, items: seq<ChecklistItem>, from: nat, responses: Responses, g: Geometry, wrap: Wrap): (d: Drawn)
    ensures forall p :: p in d.ops ==> p.op.Row? || p.op.TableHeader?
    ensures Continues(c, d)
    ensures items != [] ==> |d.ops| > 0 && d.ops[|d.ops| - 1].op.Row? && d.ops[|d.ops| - 1].page == d.cursor.page
    decreases |items|
  {
    if items == [] then Drawn(c, [])
    else
      var one := RowStep(c, from, items[0], responses, g, wrap);
      var rest := Rows(one.cursor, items[1..], from + 1, responses, g, wrap);
      RowStepShape(c, from, items[0], responses, g, wrap);
      OnPagesAppend(one.ops, rest.ops, c.page, rest.cursor.page);
      Drawn(rest.cursor, one.ops + rest.ops)
  }

  /** One step draws a row, possibly after a header, on the page it leaves the cursor on. */
  lemma RowStepShape(c: Cursor, index: nat, item: ChecklistItem, responses: Responses, g: Geometry, wrap: Wrap)
    ensures var d := RowStep(c, index, item, responses, g, wrap);
      && |d.ops| > 0 && d.ops[|d.ops| - 1].op.Row? && d.ops[|d.ops| - 1].page == d.cursor.page
      && (forall p :: p in d.ops ==> p.op.Row? || p.op.TableHeader?)
      && c.page <= d.cursor.page && OnPages(d.ops, c.page, d.cursor.page)
  {
  }

  /** The drawings of a run of placed ops, without their positions. */
  function OpsOf(ps: seq<Placed>): (r: seq<Op>)
    ensures |r| == |ps|
  {
    if ps == [] then [] else [ps[0].op] + OpsOf(ps[1..])
  }

  lemma {:induction false} OpsOfAppend(a: seq<Placed>, b: seq<Placed>)
    ensures OpsOf(a + b) == OpsOf(a) + OpsOf(b)
  {
    if a == [] {
      EmptyAppend(b);
    } else {
      TailAppend(a, b);
      OpsOfAppend(a[1..], b);
      assert OpsOf(a + b) == [a[0].op] + OpsOf(a[1..] + b);
      Assoc([a[0].op], OpsOf(a[1..]), OpsOf(b));
    }
  }

  /** Reference list of the rows for items `from`, `from + 1`, ...: one per item, in checklist order. */
  function ExpectedRows(items: seq<ChecklistItem>, from: nat, responses: Responses, g: Geometry, wrap: Wrap): (r: seq<Op>)
    decreases |items|
  {
    if items == [] then []
    else [RowFor(from, items[0], responses, g, wrap)] + ExpectedRows(items[1..], from + 1, responses, g, wrap)
  }

  /** The k-th expected row is the row of item k, numbered `from + k`, with that item's badge. */
  lemma {:induction false} ExpectedRowAt(items: seq<ChecklistItem>, from: nat, responses: Responses, g: Geometry, wrap: Wrap, k: nat)
    requires k < |items|
    ensures |ExpectedRows(items, from, responses, g, wrap)| == |items|
    ensures ExpectedRows(items, from, responses, g, wrap)[k] == RowFor(from + k, items[k], responses, g, wrap)
    decreases |items|
  {
    if k == 0 {
      ExpectedRowsLength(items[1..], from + 1, responses, g, wrap);
    } else {
      ExpectedRowAt(items[1..], from + 1, responses, g, wrap, k - 1);
      assert items[1..][k - 1] == items[k];
    }
  }

  lemma {:induction false} ExpectedRowsLength(items: seq<ChecklistItem>, from: nat, responses: Responses, g: Geometry, wrap: Wrap)
    ensures |ExpectedRows(items, from, responses, g, wrap)| == |items|
    decreases |items|
  {
    if items != [] {
      ExpectedRowsLength(items[1..], from + 1, responses, g, wrap);
    }
  }

  /** The rows drawn are exactly the expected rows, in order; the headers re-drawn between pages add none. */
  lemma {:induction false} RowsInOrder(c: Cursor, items: seq<ChecklistItem>, from: nat, responses: Responses, g: Geometry, wrap: Wrap)
    ensures OpsOf(Select(Rows(c, items, from, responses, g, wrap).ops, RowKind)) == ExpectedRows(items, from, responses, g, wrap)
    decreases |items|
  {
    if items != [] {
      var one := RowStep(c, from, items[0], responses, g, wrap);
      var rest := Rows(one.cursor, items[1..], from + 1, responses, g, wrap);
      RowsInOrder(one.cursor, items[1..], from + 1, responses, g, wrap);
      SelectAppend(one.ops, rest.ops, RowKind);
      OpsOfAppend(Select(one.ops, RowKind), Select(rest.ops, RowKind));
      RowStepSelect(c, from, items[0], responses, g, wrap);
    }
  }

  /** One step draws exactly one row, whether or not it re-draws the header. */
  lemma RowStepSelect(c: Cursor, index: nat, item: ChecklistItem, responses: Responses, g: Geometry, wrap: Wrap)
    ensures OpsOf(Select(RowStep(c, index, item, responses, g, wrap).ops, RowKind)) == [RowFor(index, item, responses, g, wrap)]
  {
    var one := RowStep(c, index, item, responses, g, wrap);
    var row := RowFor(index, item, responses, g, wrap);
    if c.y + row.height > Bottom(g) {
      var h, r := Placed(c.page + 1, TopY, TableHeader), Placed(c.page + 1, TableTop, row);
      assert one.ops == [h] + [r];
      SelectAppend([h], [r], RowKind);
      SelectNone([h], RowKind);
      SelectAll([r], RowKind);
    } else {
      SelectAll(one.ops, RowKind);
    }
  }

  /** Each row ends above the bottom margin, unless it is right below a header and taller than the page allows. */
  predicate RowsFit(ops: seq<Placed>, g: Geometry)
  {
    forall p :: p in ops && p.op.Row? ==>
      p.y + p.op.height <= Bottom(g) || (p.y == TableTop && TableTop + p.op.height > Bottom(g))
  }

  lemma {:induction false} RowsNeverSplit(c: Cursor, items: seq<ChecklistItem>, from: nat, responses: Responses, g: Geometry, wrap: Wrap)
    ensures RowsFit(Rows(c, items, from, responses, g, wrap).ops, g)
    decreases |items|
  {
    if items != [] {
      var one := RowStep(c, from, items[0], responses, g, wrap);
      var rest := Rows(one.cursor, items[1..], from + 1, responses, g, wrap);
      RowStepFits(c, from, items[0], responses, g, wrap);
      RowsNeverSplit(one.cursor, items[1..], from + 1, responses, g, wrap);
      RowsFitAppend(one.ops, rest.ops, g);
    }
  }

  /** A row is placed after a check for its own height, so it fits unless it is taller than a page. */
  lemma RowStepFits(c: Cursor, index: nat, item: ChecklistItem, responses: Responses, g: Geometry, wrap: Wrap)
    ensures RowsFit(RowStep(c, index, item, responses, g, wrap).ops, g)
  {
  }

  lemma RowsFitAppend(a: seq<Placed>, b: seq<Placed>, g: Geometry)
    requires RowsFit(a, g) && RowsFit(b, g)
    ensures RowsFit(a + b, g)
  {
  }

  /** A row follows `prev` when both are on one page and `prev` is the table header or another row. */
  predicate RowFollows(prev: Placed, row: Placed)
  {
    prev.page == row.page && (prev.op.Row? || prev.op.TableHeader?)
  }

  /** A header re-drawn between pages is at the top of its page, with a row right below it. */
  predicate HeaderLeads(header: Placed, next: Placed)
  {
    header.y == TopY && next.op.Row? && next.page == header.page && next.y == TableTop
  }

  /**
   A run of rows that continues page `page`: the first op, if a row, is on
   that page; every later row follows the op before it; every header leads
   the op after it.
   */
  ghost predicate HeaderedFrom(ops: seq<Placed>, page: nat)
  {
    && (|ops| > 0 && ops[0].op.Row? ==> ops[0].page == page)
    && (forall i, j :: 0 <= i < j < |ops| && j == i + 1 && ops[j].op.Row? ==> RowFollows(ops[i], ops[j]))
    && (forall i, j :: 0 <= i < j < |ops| && j == i + 1 && ops[i].op.TableHeader? ==> HeaderLeads(ops[i], ops[j]))
    && (|ops| > 0 ==> !ops[|ops| - 1].op.TableHeader?)
  }

  lemma {:induction false} RowsHeadered(c: Cursor, items: seq<ChecklistItem>, from: nat, responses: Responses, g: Geometry, wrap: Wrap)
    ensures HeaderedFrom(Rows(c, items, from, responses, g, wrap).ops, c.page)
    decreases |items|
  {
    if items != [] {
      var one := RowStep(c, from, items[0], responses, g, wrap);
      var rest := Rows(one.cursor, items[1..], from + 1, responses, g, wrap);
      RowStepHeadered(c, from, items[0], responses, g, wrap);
      RowsHeadered(one.cursor, items[1..], from + 1, responses, g, wrap);
      HeaderedJoin(one.ops, rest.ops, c.page, one.cursor.page);
    }
  }

  /** One step continues the cursor's page, or re-draws the header at the top of the next one. */
  lemma RowStepHeadered(c: Cursor, index: nat, item: ChecklistItem, responses: Responses, g: Geometry, wrap: Wrap)
    ensures var d := RowStep(c, index, item, responses, g, wrap);
      && HeaderedFrom(d.ops, c.page)
      && |d.ops| > 0 && d.ops[|d.ops| - 1].op.Row? && d.ops[|d.ops| - 1].page == d.cursor.page
  {
  }

  /** Joining a run ending in a row on page `mid` with a run that continues page `mid`. */
  lemma HeaderedJoin(a: seq<Placed>, b: seq<Placed>, page: nat, mid: nat)
    requires HeaderedFrom(a, page) && HeaderedFrom(b, mid)
    requires |a| > 0 && a[|a| - 1].op.Row? && a[|a| - 1].page == mid
    ensures HeaderedFrom(a + b, page)
  {
    var ab := a + b;
    forall i, j | 0 <= i < j < |ab| && j == i + 1 && ab[j].op.Row? ensures RowFollows(ab[i], ab[j]) {
      if j < |a| {
        assert ab[i] == a[i] && ab[j] == a[j];
      } else if i >= |a| {
        assert ab[i] == b[i - |a|] && ab[j] == b[j - |a|];
      } else {
        assert ab[i] == a[|a| - 1] && ab[j] == b[0];
      }
    }
    forall i, j | 0 <= i < j < |ab| && j == i + 1 && ab[i].op.TableHeader? ensures HeaderLeads(ab[i], ab[j]) {
      if j < |a| {
        assert ab[i] == a[i] && ab[j] == a[j];
      } else {
        assert i >= |a|;
        assert ab[i] == b[i - |a|] && ab[j] == b[j - |a|];
      }
    }
  }

  /** Where the table starts: on a new page when fewer than 60 units remain. */
  function TableStart(c: Cursor, g: Geometry): (start: Cursor)
    ensures c.y > g.pageHeight - 60.0 ==> start == Cursor(c.page + 1, TopY)
    ensures c.y <= g.pageHeight - 60.0 ==> start == c
  {
    if c.y > g.pageHeight - 60.0 then Cursor(c.page + 1, TopY) else c
  }

  /** The table title at `start`, the column header 8 below it, then `rows`. */
  function Headed(start: Cursor, rows: Drawn): (d: Drawn)
    ensures |d.ops| >= 2 && d.ops[0] == Placed(start.page, start.y, TableTitle)
    ensures d.ops[1] == Placed(start.page, start.y + 8.0, TableHeader)
  {
    Drawn(rows.cursor, [Placed(start.page, start.y, TableTitle), Placed(start.page, start.y + 8.0, TableHeader)] + rows.ops)
  }

  /** The table: the title and header, then the rows 16 units below the title. */
  function Table(c: Cursor, req: Session.ReportRequest, g: Geometry, wrap: Wrap): (d: Drawn)
    ensures |d.ops| >= 2 && d.ops[0].op == TableTitle && d.ops[1].op == TableHeader
    ensures d.ops[1].page == d.ops[0].page && d.ops[1].y == d.ops[0].y + 8.0
    ensures c.y > g.pageHeight - 60.0 ==> d.ops[0].page == c.page + 1 && d.ops[0].y == TopY
    ensures c.y <= g.pageHeight - 60.0 ==> d.ops[0].page == c.page && d.ops[0].y == c.y
    ensures Only(d.ops, TableSection) && Continues(c, d)
  {
    var start := TableStart(c, g);
    var rows := Rows(Cursor(start.page, start.y + 16.0), req.caseData.checklist, 0, req.responses, g, wrap);
    HeadedFrame(c, start, rows);
    Headed(start, rows)
  }

  /** Title and header on the start page, then rows that continue it, all drawn by the table. */
  lemma HeadedFrame(c: Cursor, start: Cursor, rows: Drawn)
    requires c.page <= start.page
    requires forall p :: p in rows.ops ==> p.op.Row? || p.op.TableHeader?
    requires Continues(Cursor(start.page, start.y + 16.0), rows)
    ensures Only(Headed(start, rows).ops, TableSection) && Continues(c, Headed(start, rows))
  {
  }

  /**
   Every row is on the same page as the op before it, which is the table
   header or another row: no page's rows start without a header.
   */
  ghost predicate HeaderedRows(ops: seq<Placed>)
  {
    && (|ops| > 0 ==> !ops[0].op.Row?)
    && forall i, j :: 0 <= i < j < |ops| && j == i + 1 && ops[j].op.Row? ==> RowFollows(ops[i], ops[j])
  }

  /** The table holds the expected rows, in checklist order. */
  lemma TableRowsInOrder(c: Cursor, req: Session.ReportRequest, g: Geometry, wrap: Wrap)
    ensures OpsOf(Select(Table(c, req, g, wrap).ops, RowKind))
            == ExpectedRows(req.caseData.checklist, 0, req.responses, g, wrap)
  {
    TableIsHeaded(c, req, g, wrap);
    HeadedRowsInOrder(TableStart(c, g), req.caseData.checklist, req.responses, g, wrap);
  }

  /** Each page of the table's rows starts under a header. */
  lemma TableHeadered(c: Cursor, req: Session.ReportRequest, g: Geometry, wrap: Wrap)
    ensures HeaderedRows(Table(c, req, g, wrap).ops)
  {
    TableIsHeaded(c, req, g, wrap);
    HeadedRowsHeadered(TableStart(c, g), req.caseData.checklist, req.responses, g, wrap);
  }

  /** No row of the table runs past the bottom margin, unless it is taller than a page. */
  lemma TableFits(c: Cursor, req: Session.ReportRequest, g: Geometry, wrap: Wrap)
    ensures RowsFit(Table(c, req, g, wrap).ops, g)
  {
    TableIsHeaded(c, req, g, wrap);
    HeadedRowsFit(TableStart(c, g), req.caseData.checklist, req.responses, g, wrap);
  }

  lemma HeadedRowsInOrder(start: Cursor, items: seq<ChecklistItem>, responses: Responses, g: Geometry, wrap: Wrap)
    ensures var rows := Rows(Cursor(start.page, start.y + 16.0), items, 0, responses, g, wrap);
      OpsOf(Select(Headed(start, rows).ops, RowKind)) == ExpectedRows(items, 0, responses, g, wrap)
  {
    var rows := Rows(Cursor(start.page, start.y + 16.0), items, 0, responses, g, wrap);
    HeadedSelect(start, rows);
    RowsInOrder(Cursor(start.page, start.y + 16.0), items, 0, responses, g, wrap);
  }

  lemma HeadedRowsHeadered(start: Cursor, items: seq<ChecklistItem>, responses: Responses, g: Geometry, wrap: Wrap)
    ensures var rows := Rows(Cursor(start.page, start.y + 16.0), items, 0, responses, g, wrap);
      HeaderedRows(Headed(start, rows).ops)
  {
    var rows := Rows(Cursor(start.page, start.y + 16.0), items, 0, responses, g, wrap);
    RowsHeadered(Cursor(start.page, start.y + 16.0), items, 0, responses, g, wrap);
    HeadedRows(start, rows);
  }

  lemma HeadedRowsFit(start: Cursor, items: seq<ChecklistItem>, responses: Responses, g: Geometry, wrap: Wrap)
    ensures var rows := Rows(Cursor(start.page, start.y + 16.0), items, 0, responses, g, wrap);
      RowsFit(Headed(start, rows).ops, g)
  {
    var rows := Rows(Cursor(start.page, start.y + 16.0), items, 0, responses, g, wrap);
    RowsNeverSplit(Cursor(start.page, start.y + 16.0), items, 0, responses, g, wrap);
    HeadedFit(start, rows, g);
  }

  /** The table is its title and header above the rows of the checklist. */
  lemma TableIsHeaded(c: Cursor, req: Session.ReportRequest, g: Geometry, wrap: Wrap)
    ensures var start := TableStart(c, g);
      Table(c, req, g, wrap)
      == Headed(start, Rows(Cursor(start.page, start.y + 16.0), req.caseData.checklist, 0, req.responses, g, wrap))
  {
  }

  /** The title and header above the rows add no row. */
  lemma HeadedSelect(start: Cursor, rows: Drawn)
    ensures Select(Headed(start, rows).ops, RowKind) == Select(rows.ops, RowKind)
  {
    var head := [Placed(start.page, start.y, TableTitle), Placed(start.page, start.y + 8.0, TableHeader)];
    SelectAppend(head, rows.ops, RowKind);
    SelectNone(head, RowKind);
  }

  lemma HeadedFit(start: Cursor, rows: Drawn, g: Geometry)
    requires RowsFit(rows.ops, g)
    ensures RowsFit(Headed(start, rows).ops, g)
  {
  }

  /** Rows that continue the header's page, below the title and that header, are each headered. */
  lemma HeadedRows(start: Cursor, rows: Drawn)
    requires HeaderedFrom(rows.ops, start.page)
    ensures HeaderedRows(Headed(start, rows).ops)
  {
    var ops := Headed(start, rows).ops;
    forall i, j | 0 <= i < j < |ops| && j == i + 1 && ops[j].op.Row? ensures RowFollows(ops[i], ops[j]) {
      if i >= 2 {
        assert ops[i] == rows.ops[i - 2];
        assert ops[j] == rows.ops[j - 2];
      } else if i == 1 {
        assert ops[j] == rows.ops[0];
      }
    }
  }


  // ---------------------------------------------------------------------------
  // Sections 6-7: notes and signature

  /**
   The evaluator's notes, only when non-empty: 10 units of space, a section
   title, then a box sized to the wrapped lines after a page-break check. As
   written the cursor is not moved past the box.
   */
  function Notes(c: Cursor, notes: string, g: Geometry, wrap: Wrap): (d: Drawn)
    ensures notes == "" ==> d == Drawn(c, [])
    ensures notes != "" ==>
      && |d.ops| == 2 && d.ops[0].op == NotesTitle
      && d.ops[1].op == NotesBox(wrap(notes, ContentWidth(g) - 6.0, NotesFontSize), wrap(notes, ContentWidth(g) - 6.0, NotesFontSize) as real * 5.0 + 10.0)
      && d.cursor == Cursor(d.ops[1].page, d.ops[1].y)
    ensures Only(d.ops, NotesSection) && Continues(c, d)
  {
    if notes == "" then Drawn(c, [])
    else
      var title := SectionTitle(Cursor(c.page, c.y + 10.0), NotesTitle, g);
      var lines := wrap(notes, ContentWidth(g) - 6.0, NotesFontSize);
      var h := lines as real * 5.0 + 10.0;
      var at := CheckPageBreak(title.cursor, h, g);
      Drawn(at, title.ops + [Placed(at.page, at.y, NotesBox(lines, h))])
  }

  /** The signature block: a new page at 40 when 30 units do not fit, else 30 units lower. */
  function SignatureBlock(c: Cursor, evaluator: string, g: Geometry): (d: Drawn)
    ensures c.y + 30.0 > Bottom(g) ==> d.cursor == Cursor(c.page + 1, 40.0)
    ensures c.y + 30.0 <= Bottom(g) ==> d.cursor == Cursor(c.page, c.y + 30.0)
    ensures d.ops == [Placed(d.cursor.page, d.cursor.y, Signature(evaluator))]
    ensures Only(d.ops, SignatureSection) && Continues(c, d)
  {
    var at := if c.y + 30.0 > Bottom(g) then Cursor(c.page + 1, 40.0) else Cursor(c.page, c.y + 30.0);
    Drawn(at, [Placed(at.page, at.y, Signature(evaluator))])
  }

  /**
   Because the notes box does not move the cursor, a box of five or more lines
   on the signature's page is overlapped by the signature line.
   */
  lemma SignatureInsideTallNotes(c: Cursor, notes: string, evaluator: string, g: Geometry, wrap: Wrap)
    requires notes != ""
    requires wrap(notes, ContentWidth(g) - 6.0, NotesFontSize) >= 5
    requires Notes(c, notes, g, wrap).cursor.y + 30.0 <= Bottom(g)
    ensures var n := Notes(c, notes, g, wrap);
      var s := SignatureBlock(n.cursor, evaluator, g);
      && s.ops[0].page == n.ops[1].page
      && n.ops[1].y < s.ops[0].y < n.ops[1].y + n.ops[1].op.height
  {
  }

  // ---------------------------------------------------------------------------
  // The whole report

  /** `Página i de n` on every page i from 1 to n. */
  function Footers(n: nat, g: Geometry): (r: seq<Placed>)
    ensures |r| == n
    ensures forall j :: 0 <= j < n ==> r[j] == Placed(j + 1, g.pageHeight - 10.0, Footer(j + 1, n))
    ensures forall p :: p in r ==> p.op.Footer? && 1 <= p.page <= n
  {
    seq(n, j requires 0 <= j < n => Placed(j + 1, g.pageHeight - 10.0, Footer(j + 1, n)))
  }

  /** The sections of the body, each starting where the one before it left the cursor. */
  datatype Parts = Parts(head: Drawn, just: Drawn, blocks: Drawn, table: Drawn, notes: Drawn, sign: Drawn)

  /** Each part draws only what its section may draw. */
  predicate PartsShape(s: Parts)
  {
    && Only(s.head.ops, HeadingSection)
    && Only(s.just.ops, JustificationSection)
    && Only(s.blocks.ops, FeedbackSection)
    && Only(s.table.ops, TableSection)
    && Only(s.notes.ops, NotesSection)
    && Only(s.sign.ops, SignatureSection)
  }

  /** The parts follow one another down the pages, starting on page 1. */
  predicate Chained(s: Parts)
  {
    && s.head.cursor.page == 1 && OnPages(s.head.ops, 1, 1)
    && Continues(s.head.cursor, s.just)
    && Continues(s.just.cursor, s.blocks)
    && Continues(s.blocks.cursor, s.table)
    && Continues(s.table.cursor, s.notes)
    && Continues(s.notes.cursor, s.sign)
  }

  function Sections(req: Session.ReportRequest, g: Geometry, wrap: Wrap): (s: Parts)
    ensures PartsShape(s) && Chained(s)
  {
    var head := Heading(req, g, wrap);
    var just := Justification(head.cursor, req.feedback, g, wrap);
    var blocks := FeedbackBlocks(just.cursor, req.feedback, g, wrap);
    var table := Table(blocks.cursor, req, g, wrap);
    var notes := Notes(table.cursor, req.evaluatorNotes, g, wrap);
    var sign := SignatureBlock(notes.cursor, req.evaluatorName, g);
    Parts(head, just, blocks, table, notes, sign)
  }

  /** Everything but the footers, in drawing order. */
  function BodyOps(s: Parts): seq<Placed>
  {
    s.head.ops + s.just.ops + s.blocks.ops + s.table.ops + s.notes.ops + s.sign.ops
  }

  /** The body, then a footer stamped on every page; the page count is the page the body ended on. */
  function Assemble(s: Parts, g: Geometry): Pdf
  {
    Pdf(BodyOps(s) + Footers(s.sign.cursor.page, g), s.sign.cursor.page, s.sign.cursor.y)
  }

  /** `generatePDF` without the save. */
  function Generate(req: Session.ReportRequest, g: Geometry, wrap: Wrap): (pdf: Pdf)
    ensures pdf.pages >= 1
  {
    Assemble(Sections(req, g, wrap), g)
  }

  /** Selecting from the report selects from each part in turn, then from the footers. */
  lemma AssembleSum(s: Parts, g: Geometry, k: Kind)
    ensures Select(Assemble(s, g).ops, k)
            == Select(s.head.ops, k) + Select(s.just.ops, k) + Select(s.blocks.ops, k)
               + Select(s.table.ops, k) + Select(s.notes.ops, k) + Select(s.sign.ops, k)
               + Select(Footers(s.sign.cursor.page, g), k)
  {
    SelectAppend(s.head.ops, s.just.ops, k);
    SelectAppend(s.head.ops + s.just.ops, s.blocks.ops, k);
    SelectAppend(s.head.ops + s.just.ops + s.blocks.ops, s.table.ops, k);
    SelectAppend(s.head.ops + s.just.ops + s.blocks.ops + s.table.ops, s.notes.ops, k);
    SelectAppend(s.head.ops + s.just.ops + s.blocks.ops + s.table.ops + s.notes.ops, s.sign.ops, k);
    SelectAppend(BodyOps(s), Footers(s.sign.cursor.page, g), k);
  }

  lemma FootersNone(n: nat, g: Geometry, k: Kind)
    requires k != FooterKind
    ensures Select(Footers(n, g), k) == []
  {
    SelectNone(Footers(n, g), k);
  }

  /** The footers of the assembled report are exactly the ones stamped after the body. */
  lemma AssembleFooters(s: Parts, g: Geometry)
    requires PartsShape(s)
    ensures Select(Assemble(s, g).ops, FooterKind) == Footers(s.sign.cursor.page, g)
  {
    AssembleSum(s, g, FooterKind);
    OnlyNone(s.head.ops, HeadingSection, FooterKind);
    OnlyNone(s.just.ops, JustificationSection, FooterKind);
    OnlyNone(s.blocks.ops, FeedbackSection, FooterKind);
    OnlyNone(s.table.ops, TableSection, FooterKind);
    OnlyNone(s.notes.ops, NotesSection, FooterKind);
    OnlyNone(s.sign.ops, SignatureSection, FooterKind);
    SelectAll(Footers(s.sign.cursor.page, g), FooterKind);
  }

  lemma AssemblePages(s: Parts, g: Geometry)
    requires Chained(s)
    ensures OnPages(Assemble(s, g).ops, 1, Assemble(s, g).pages)
  {
    var last := s.sign.cursor.page;
    assert OnPages(s.head.ops, 1, last);
    assert OnPages(s.just.ops, 1, last);
    assert OnPages(s.blocks.ops, 1, last);
    assert OnPages(s.table.ops, 1, last);
    assert OnPages(s.notes.ops, 1, last);
    assert OnPages(s.sign.ops, 1, last);
    OnPagesAppend(s.head.ops, s.just.ops, 1, last);
    OnPagesAppend(s.head.ops + s.just.ops, s.blocks.ops, 1, last);
    OnPagesAppend(s.head.ops + s.just.ops + s.blocks.ops, s.table.ops, 1, last);
    OnPagesAppend(s.head.ops + s.just.ops + s.blocks.ops + s.table.ops, s.notes.ops, 1, last);
    OnPagesAppend(BodyOps(s)[..|BodyOps(s)| - |s.sign.ops|], s.sign.ops, 1, last);
    assert BodyOps(s)[..|BodyOps(s)| - |s.sign.ops|] + s.sign.ops == BodyOps(s);
    OnPagesAppend(BodyOps(s), Footers(last, g), 1, last);
  }

  /** Parts drawn around a headered, fitting table keep every row headered and fitting. */
  lemma AssembleRows(s: Parts, g: Geometry)
    requires PartsShape(s)
    requires HeaderedRows(s.table.ops) && RowsFit(s.table.ops, g)
    ensures HeaderedRows(Assemble(s, g).ops) && RowsFit(Assemble(s, g).ops, g)
  {
    var f := Footers(s.sign.cursor.page, g);
    var pre := s.head.ops + s.just.ops + s.blocks.ops;
    var post := s.notes.ops + s.sign.ops + f;
    assert forall p :: p in pre ==> !p.op.Row?;
    assert forall p :: p in post ==> !p.op.Row?;
    HeaderedFrame(pre, s.table.ops, post, g);
    assert Assemble(s, g).ops == pre + s.table.ops + post;
  }

  /** Ops without rows around a headered, fitting run keep it headered and fitting. */
  lemma HeaderedFrame(pre: seq<Placed>, mid: seq<Placed>, post: seq<Placed>, g: Geometry)
    requires forall p :: p in pre ==> !p.op.Row?
    requires forall p :: p in post ==> !p.op.Row?
    requires HeaderedRows(mid) && RowsFit(mid, g)
    ensures HeaderedRows(pre + mid + post) && RowsFit(pre + mid + post, g)
  {
    var ops := pre + mid + post;
    var m := |pre|;
    forall i, j | 0 <= i < j < |ops| && j == i + 1 && ops[j].op.Row? ensures RowFollows(ops[i], ops[j]) {
      if m <= j < m + |mid| {
        assert ops[j] == mid[j - m];
        assert ops[i] == mid[i - m];
      }
    }
  }

  // Each kind's ops in the assembled report are those of the one part that draws them.

  lemma AssembleScore(s: Parts, g: Geometry)
    requires PartsShape(s)
    ensures Select(Assemble(s, g).ops, ScoreKind) == Select(s.head.ops, ScoreKind)
  {
    AssembleSum(s, g, ScoreKind);
    OnlyNone(s.just.ops, JustificationSection, ScoreKind);
    OnlyNone(s.blocks.ops, FeedbackSection, ScoreKind);
    OnlyNone(s.table.ops, TableSection, ScoreKind);
    OnlyNone(s.notes.ops, NotesSection, ScoreKind);
    OnlyNone(s.sign.ops, SignatureSection, ScoreKind);
    FootersNone(s.sign.cursor.page, g, ScoreKind);
  }

  lemma AssembleJustification(s: Parts, g: Geometry)
    requires PartsShape(s)
    ensures Select(Assemble(s, g).ops, JustificationKind) == Select(s.just.ops, JustificationKind)
  {
    AssembleSum(s, g, JustificationKind);
    OnlyNone(s.head.ops, HeadingSection, JustificationKind);
    OnlyNone(s.blocks.ops, FeedbackSection, JustificationKind);
    OnlyNone(s.table.ops, TableSection, JustificationKind);
    OnlyNone(s.notes.ops, NotesSection, JustificationKind);
    OnlyNone(s.sign.ops, SignatureSection, JustificationKind);
    FootersNone(s.sign.cursor.page, g, JustificationKind);
  }

  lemma AssembleHeaders(s: Parts, g: Geometry)
    requires PartsShape(s)
    ensures Select(Assemble(s, g).ops, HeaderKind) == Select(s.blocks.ops, HeaderKind)
  {
    AssembleSum(s, g, HeaderKind);
    OnlyNone(s.head.ops, HeadingSection, HeaderKind);
    OnlyNone(s.just.ops, JustificationSection, HeaderKind);
    OnlyNone(s.table.ops, TableSection, HeaderKind);
    OnlyNone(s.notes.ops, NotesSection, HeaderKind);
    OnlyNone(s.sign.ops, SignatureSection, HeaderKind);
    FootersNone(s.sign.cursor.page, g, HeaderKind);
  }

  lemma AssembleRowKind(s: Parts, g: Geometry)
    requires PartsShape(s)
    ensures Select(Assemble(s, g).ops, RowKind) == Select(s.table.ops, RowKind)
  {
    AssembleSum(s, g, RowKind);
    OnlyNone(s.head.ops, HeadingSection, RowKind);
    OnlyNone(s.just.ops, JustificationSection, RowKind);
    OnlyNone(s.blocks.ops, FeedbackSection, RowKind);
    OnlyNone(s.notes.ops, NotesSection, RowKind);
    OnlyNone(s.sign.ops, SignatureSection, RowKind);
    FootersNone(s.sign.cursor.page, g, RowKind);
  }

  lemma AssembleSignature(s: Parts, g: Geometry)
    requires PartsShape(s)
    ensures Select(Assemble(s, g).ops, SignatureKind) == Select(s.sign.ops, SignatureKind)
  {
    AssembleSum(s, g, SignatureKind);
    OnlyNone(s.head.ops, HeadingSection, SignatureKind);
    OnlyNone(s.just.ops, JustificationSection, SignatureKind);
    OnlyNone(s.blocks.ops, FeedbackSection, SignatureKind);
    OnlyNone(s.table.ops, TableSection, SignatureKind);
    OnlyNone(s.notes.ops, NotesSection, SignatureKind);
    FootersNone(s.sign.cursor.page, g, SignatureKind);
  }

  // Each part of the body is the drawing of its section, started where the part before it ended.

  lemma HeadPart(req: Session.ReportRequest, g: Geometry, wrap: Wrap)
    ensures Sections(req, g, wrap).head == Heading(req, g, wrap)
  {
  }

  lemma JustificationPart(req: Session.ReportRequest, g: Geometry, wrap: Wrap)
    ensures var s := Sections(req, g, wrap);
      s.just == Justification(s.head.cursor, req.feedback, g, wrap)
  {
  }

  lemma FeedbackPart(req: Session.ReportRequest, g: Geometry, wrap: Wrap)
    ensures var s := Sections(req, g, wrap);
      s.blocks == FeedbackBlocks(s.just.cursor, req.feedback, g, wrap)
  {
  }

  lemma TablePart(req: Session.ReportRequest, g: Geometry, wrap: Wrap)
    ensures var s := Sections(req, g, wrap);
      s.table == Table(s.blocks.cursor, req, g, wrap)
  {
  }

  lemma SignaturePart(req: Session.ReportRequest, g: Geometry, wrap: Wrap)
    ensures var s := Sections(req, g, wrap);
      s.sign == SignatureBlock(s.notes.cursor, req.evaluatorName, g)
  {
  }

  /** Every page, the last one included, carries exactly one footer, numbered against the page count. */
  lemma FooterOnEveryPage(req: Session.ReportRequest, g: Geometry, wrap: Wrap)
    ensures var pdf := Generate(req, g, wrap);
      Select(pdf.ops, FooterKind) == Footers(pdf.pages, g)
  {
    AssembleFooters(Sections(req, g, wrap), g);
  }

  /** Every op of the report is on a page from 1 to the page count. */
  lemma PagesInRange(req: Session.ReportRequest, g: Geometry, wrap: Wrap)
    ensures var pdf := Generate(req, g, wrap);
      OnPages(pdf.ops, 1, pdf.pages)
  {
    AssemblePages(Sections(req, g, wrap), g);
  }

  /** The score line shows the report's final score, once, on page 1. */
  lemma ScoreShownOnce(req: Session.ReportRequest, g: Geometry, wrap: Wrap)
    ensures Select(Generate(req, g, wrap).ops, ScoreKind) == [Placed(1, ScoreY, ScoreLine(req.feedback.finalScore))]
  {
    AssembleScore(Sections(req, g, wrap), g);
    HeadPart(req, g, wrap);
    HeadingScore(req, g, wrap);
  }

  /** The signature line names the evaluator, once, at the end of the body on the last page. */
  lemma SignedOnce(req: Session.ReportRequest, g: Geometry, wrap: Wrap)
    ensures var pdf := Generate(req, g, wrap);
      Select(pdf.ops, SignatureKind) == [Placed(pdf.pages, pdf.finalY, Signature(req.evaluatorName))]
  {
    var s := Sections(req, g, wrap);
    AssembleSignature(s, g);
    SignaturePart(req, g, wrap);
    SignatureSelect(s.notes.cursor, req.evaluatorName, g);
  }

  lemma SignatureSelect(c: Cursor, evaluator: string, g: Geometry)
    ensures var d := SignatureBlock(c, evaluator, g);
      Select(d.ops, SignatureKind) == d.ops
  {
    SelectAll(SignatureBlock(c, evaluator, g).ops, SignatureKind);
  }

  /** The justification box appears, once, exactly when the report carries a non-empty justification. */
  lemma JustificationShownIff(req: Session.ReportRequest, g: Geometry, wrap: Wrap)
    ensures var j := Select(Generate(req, g, wrap).ops, JustificationKind);
      && (HasJustification(req.feedback) ==>
            |j| == 1 && j[0].op.JustificationBox? && j[0].op.text == req.feedback.justification.value)
      && (!HasJustification(req.feedback) ==> j == [])
  {
    var s := Sections(req, g, wrap);
    AssembleJustification(s, g);
    JustificationPart(req, g, wrap);
    JustificationSelect(s.head.cursor, req.feedback, g, wrap);
  }

  lemma JustificationSelect(c: Cursor, f: FeedbackData, g: Geometry, wrap: Wrap)
    ensures var d := Justification(c, f, g, wrap);
      Select(d.ops, JustificationKind) == d.ops
  {
    SelectAll(Justification(c, f, g, wrap).ops, JustificationKind);
  }

  /** The three feedback headers appear in their fixed order, and no others. */
  lemma FeedbackHeadersInOrder(req: Session.ReportRequest, g: Geometry, wrap: Wrap)
    ensures var h := Select(Generate(req, g, wrap).ops, HeaderKind);
      && |h| == 3
      && h[0].op == BlockHeader(StrengthsTitle)
      && h[1].op == BlockHeader(WeaknessesTitle)
      && h[2].op == BlockHeader(RecommendationsTitle)
  {
    var s := Sections(req, g, wrap);
    AssembleHeaders(s, g);
    FeedbackPart(req, g, wrap);
    FeedbackOrder(s.just.cursor, req.feedback, g, wrap);
  }

  /**
   The report holds one row per checklist item in checklist order, with the
   item's badge; every row sits under a table header or another row on its
   page, and no row runs past the bottom margin unless it is taller than a page.
   */
  lemma ChecklistRows(req: Session.ReportRequest, g: Geometry, wrap: Wrap)
    ensures var pdf := Generate(req, g, wrap);
      && OpsOf(Select(pdf.ops, RowKind)) == ExpectedRows(req.caseData.checklist, 0, req.responses, g, wrap)
      && HeaderedRows(pdf.ops)
      && RowsFit(pdf.ops, g)
  {
    var s := Sections(req, g, wrap);
    TablePart(req, g, wrap);
    TableRowsInOrder(s.blocks.cursor, req, g, wrap);
    TableHeadered(s.blocks.cursor, req, g, wrap);
    TableFits(s.blocks.cursor, req, g, wrap);
    AssembleRowKind(s, g);
    AssembleRows(s, g);
  }

  // ---------------------------------------------------------------------------
  // The file name

  /** The saved file name: white-space runs of the name collapsed to "_", then "_", the id and ".pdf". */
  function FileName(s: Student): (r: string)
    ensures |r| == |CollapseSpaces(s.name)| + 1 + |s.id| + 4
    ensures r[..|CollapseSpaces(s.name)|] == CollapseSpaces(s.name)
    ensures NoSpace(r[..|CollapseSpaces(s.name)|]) && r[|CollapseSpaces(s.name)|] == '_'
    ensures r[|r| - 4 - |s.id|..|r| - 4] == s.id && r[|r| - 4..] == ".pdf"
  {
    CollapseSpaces(s.name) + "_" + s.id + ".pdf"
  }

  /** No character of `s` is white space. */
  predicate NoSpace(s: string)
  {
    forall i :: 0 <= i < |s| ==> !IsJsSpace(s[i])
  }

  /** `name.replace(/\s+/g, '_')`: every maximal run of white space becomes one underscore. */
  function CollapseSpaces(s: string): (r: string)
    ensures NoSpace(r)
    ensures |r| <= |s|
    decreases |s|
  {
    if s == [] then []
    else if IsJsSpace(s[0]) then "_" + CollapseSpaces(TrimStart(s))
    else [s[0]] + CollapseSpaces(s[1..])
  }

  /** A name without white space is kept as it is. */
  lemma {:induction false} CollapseKeepsWords(s: string)
    requires NoSpace(s)
    ensures CollapseSpaces(s) == s
    decreases |s|
  {
    if s != [] {
      assert NoSpace(s[1..]) by {
        forall i | 0 <= i < |s[1..]| ensures !IsJsSpace(s[1..][i]) {
          assert s[1..][i] == s[i + 1];
        }
      }
      CollapseKeepsWords(s[1..]);
      assert s == [s[0]] + s[1..];
    }
  }

  /** Collapsing twice is collapsing once. */
  lemma CollapseIdempotent(s: string)
    ensures CollapseSpaces(CollapseSpaces(s)) == CollapseSpaces(s)
  {
    CollapseKeepsWords(CollapseSpaces(s));
  }

  /** A character that is not white space passes through unchanged. */
  lemma CollapseCons(c: char, s: string)
    requires !IsJsSpace(c)
    ensures CollapseSpaces([c] + s) == [c] + CollapseSpaces(s)
  {
    assert ([c] + s)[0] == c;
    assert ([c] + s)[1..] == s;
  }

  /** A word in front passes through unchanged. */
  lemma {:induction false} CollapseWordPrefix(a: string, s: string)
    requires NoSpace(a)
    ensures CollapseSpaces(a + s) == a + CollapseSpaces(s)
    decreases |a|
  {
    if a == [] {
      EmptyAppend(s);
    } else {
      var t := a[1..];
      NoSpaceTail(a);
      CollapseWordPrefix(t, s);
      Uncons(a);
      Assoc([a[0]], t, s);
      CollapseCons(a[0], t + s);
      Assoc([a[0]], t, CollapseSpaces(s));
    }
  }

  lemma NoSpaceTail(a: string)
    requires a != [] && NoSpace(a)
    ensures !IsJsSpace(a[0]) && NoSpace(a[1..])
  {
    forall i | 0 <= i < |a[1..]| ensures !IsJsSpace(a[1..][i]) {
      assert a[1..][i] == a[i + 1];
    }
  }

  /** Trimming a run of white space off the front leaves what follows it. */
  lemma {:induction false} TrimStartRun(w: string, s: string)
    requires Blank(w) && (s == [] || !IsJsSpace(s[0]))
    ensures TrimStart(w + s) == s
    decreases |w|
  {
    if w == [] {
      assert w + s == s;
    } else {
      TailAppend(w, s);
      assert Blank(w[1..]) by {
        forall i | 0 <= i < |w[1..]| ensures IsJsSpace(w[1..][i]) {
          assert w[1..][i] == w[i + 1];
        }
      }
      TrimStartRun(w[1..], s);
    }
  }

  /**
   A word, a run of white space and a rest that starts with no white space:
   the run becomes a single underscore between the word and the collapsed rest.
   */
  lemma CollapseRun(a: string, w: string, b: string)
    requires NoSpace(a) && w != [] && Blank(w) && (b == [] || !IsJsSpace(b[0]))
    ensures CollapseSpaces(a + w + b) == a + "_" + CollapseSpaces(b)
  {
    CollapseSpaceHead(w, b);
    CollapseWordPrefix(a, w + b);
    Assoc(a, w, b);
    Assoc(a, "_", CollapseSpaces(b));
  }

  /** A leading run of white space becomes one underscore. */
  lemma CollapseSpaceHead(w: string, b: string)
    requires w != [] && Blank(w) && (b == [] || !IsJsSpace(b[0]))
    ensures CollapseSpaces(w + b) == "_" + CollapseSpaces(b)
  {
    assert (w + b)[0] == w[0];
    TrimStartRun(w, b);
  }
}
