/**
 * The sections of the report in their fixed order (KPI cards, executive
 * summary, consumer feedback, photo gallery, detailed results) and the
 * document they assemble, as functions of the layout state.
 */
module Sections {
  import opened Wrappers
  import opened Formatting
  import opened Markup
  import opened Canvas
  import opened Report
  import opened PageBudget
  import opened Pagination

  // ---------------------------------------------------------------------
  // KPI cards: two rows of three, no space check.

  /** `cardW = (W-80)/3`, exact on this canvas. */
  const CardWidth: int := (PageWidth - 80) / 3

  /** `drawKpi(title, val, col, row)` with the cursor at `y`. */
  function CardOps(title: string, value: string, col: int, row: int, y: int): (ops: seq<DrawOp>)
    ensures |ops| == 3 && ops[0].Rect? && ops[0].w == CardWidth && ops[0].h == 55
    ensures ops[0].x == 40 + col * (CardWidth + 10) && ops[0].y + ops[0].h == y - row * 65
    ensures ops[1].Text? && ops[1].content == Literal(title) && ops[1].x == ops[0].x + 8
    ensures ops[2].Text? && ops[2].content == Literal(value) && ops[2].x == ops[0].x + 8
    ensures ops[2].y < ops[1].y
  {
    var x := 40 + col * (CardWidth + 10);
    var y0 := y - row * 65;
    [Rect(x, y0 - 55, CardWidth, 55), Text(Literal(title), x + 8, y0 - 20),
     Text(Literal(value), x + 8, y0 - 38)]
  }

  /** The first `n` cards, card `i` in column `i % 3` of row `i / 3`. */
  function KpiOps(cards: seq<(string, string)>, y: int, n: nat): (ops: seq<DrawOp>)
    requires n <= |cards|
    ensures |ops| == 3 * n
  {
    if n == 0 then []
    else KpiOps(cards, y, n - 1) +
         CardOps(cards[n - 1].0, cards[n - 1].1, (n - 1) % 3, (n - 1) / 3, y)
  }

  /** The KPI section: six cards at the cursor, then `y -= 65*2+20`. */
  function Kpis(d: Doc, meta: ReportMeta): (r: Doc)
    requires |d.pages| > 0
    ensures |r.pages| == |d.pages|
  {
    var cards := KpiCards(meta);
    Doc(Append(d.pages, KpiOps(cards, d.y, |cards|)), d.y - (65 * 2 + 20))
  }

  function CardTexts(cards: seq<(string, string)>): seq<Content> {
    if cards == [] then []
    else CardTexts(cards[..|cards| - 1]) +
         [Literal(cards[|cards| - 1].0), Literal(cards[|cards| - 1].1)]
  }

  /**
   * Placed from a cursor between 120 units above the margin and the bottom
   * of the header band, every card lies inside the page, below the band and
   * above the margin; each card prints its title, then its value.
   */
  lemma KpiCardsFit(cards: seq<(string, string)>, y: int, n: nat)
    requires n <= |cards| && n <= 6
    requires BottomMargin + 65 + 55 <= y <= PageHeight - BandHeight
    ensures var ops := KpiOps(cards, y, n);
      (forall j :: 0 <= j < |ops| && ops[j].Rect? ==>
        0 <= ops[j].x && ops[j].x + ops[j].w <= PageWidth &&
        BottomMargin <= ops[j].y && ops[j].y + ops[j].h <= PageHeight - BandHeight) &&
      Texts(ops) == CardTexts(cards[..n])
  {
    KpiCardsInside(cards, y, n);
    KpiCardsTexts(cards, y, n);
  }

  /** A card of the two-by-three grid lies inside the page, below the band and above the margin. */
  lemma CardInside(title: string, value: string, col: int, row: int, y: int)
    requires 0 <= col < 3 && 0 <= row < 2
    requires BottomMargin + 65 + 55 <= y <= PageHeight - BandHeight
    ensures var r := CardOps(title, value, col, row, y)[0];
      0 <= r.x && r.x + r.w <= PageWidth &&
      BottomMargin <= r.y && r.y + r.h <= PageHeight - BandHeight
  {
  }

  /** Every card rectangle among `ops` lies inside the page, below the band and above the margin. */
  predicate CardsInside(ops: seq<DrawOp>) {
    forall j :: 0 <= j < |ops| && ops[j].Rect? ==>
      0 <= ops[j].x && ops[j].x + ops[j].w <= PageWidth &&
      BottomMargin <= ops[j].y && ops[j].y + ops[j].h <= PageHeight - BandHeight
  }

  lemma {:induction false} KpiCardsInside(cards: seq<(string, string)>, y: int, n: nat)
    requires n <= |cards| && n <= 6
    requires BottomMargin + 65 + 55 <= y <= PageHeight - BandHeight
    ensures CardsInside(KpiOps(cards, y, n))
  {
    if n > 0 {
      KpiCardsInside(cards, y, n - 1);
      var c := cards[n - 1];
      var prev := KpiOps(cards, y, n - 1);
      var card := CardOps(c.0, c.1, (n - 1) % 3, (n - 1) / 3, y);
      assert KpiOps(cards, y, n) == prev + card;
      CardInside(c.0, c.1, (n - 1) % 3, (n - 1) / 3, y);
      assert CardsInside(card);
      InsideConcat(prev, card);
    }
  }

  lemma InsideConcat(a: seq<DrawOp>, b: seq<DrawOp>)
    requires CardsInside(a) && CardsInside(b)
    ensures CardsInside(a + b)
  {
    var ops := a + b;
    forall j | 0 <= j < |ops| && ops[j].Rect?
      ensures 0 <= ops[j].x && ops[j].x + ops[j].w <= PageWidth &&
        BottomMargin <= ops[j].y && ops[j].y + ops[j].h <= PageHeight - BandHeight
    {
      if j < |a| {
        assert ops[j] == a[j];
      } else {
        assert ops[j] == b[j - |a|];
      }
    }
  }

  /** A card prints its title, then its value. */
  lemma CardTextsOne(title: string, value: string, col: int, row: int, y: int)
    ensures Texts(CardOps(title, value, col, row, y)) == [Literal(title), Literal(value)]
  {
    var card := CardOps(title, value, col, row, y);
    assert card == [card[0]] + [card[1]] + [card[2]];
    TextsConcat([card[0]] + [card[1]], [card[2]]);
    TextsConcat([card[0]], [card[1]]);
    TextsSingle(card[0]);
    TextsSingle(card[1]);
    TextsSingle(card[2]);
  }

  lemma {:induction false} KpiCardsTexts(cards: seq<(string, string)>, y: int, n: nat)
    requires n <= |cards|
    ensures Texts(KpiOps(cards, y, n)) == CardTexts(cards[..n])
  {
    if n > 0 {
      KpiCardsTexts(cards, y, n - 1);
      var c := cards[n - 1];
      var card := CardOps(c.0, c.1, (n - 1) % 3, (n - 1) / 3, y);
      assert KpiOps(cards, y, n) == KpiOps(cards, y, n - 1) + card;
      TextsConcat(KpiOps(cards, y, n - 1), card);
      CardTextsOne(c.0, c.1, (n - 1) % 3, (n - 1) / 3, y);
      assert cards[..n][..n - 1] == cards[..n - 1];
      assert CardTexts(cards[..n]) == CardTexts(cards[..n - 1]) + [Literal(c.0), Literal(c.1)];
    }
  }

  /** On the first page, y = H-130, the six cards fit as the source assumes. */
  lemma KpiCardsFitFirstPage(meta: ReportMeta)
    ensures CardWidth * 3 == PageWidth - 80
    ensures var cards := KpiCards(meta);
      var ops := KpiOps(cards, FirstBodyTop, |cards|);
      forall j :: 0 <= j < |ops| && ops[j].Rect? ==>
        0 <= ops[j].x && ops[j].x + ops[j].w <= PageWidth &&
        BottomMargin <= ops[j].y && ops[j].y + ops[j].h <= PageHeight - BandHeight
  {
    KpiCardsFit(KpiCards(meta), FirstBodyTop, |KpiCards(meta)|);
  }

  // ---------------------------------------------------------------------
  // Executive summary and detailed results: the two tables.

  function SummaryTable(rows: seq<SummaryRow>): (t: seq<seq<Content>>)
    ensures |t| == |rows| && RowsFit(t, SummaryWidths)
  {
    seq(|rows|, i requires 0 <= i < |rows| => SummaryCells(rows[i]))
  }

  function DetailTable(rows: seq<DetailRow>): (t: seq<seq<Content>>)
    ensures |t| == |rows| && RowsFit(t, DetailWidths)
  {
    seq(|rows|, i requires 0 <= i < |rows| => DetailCells(rows[i]))
  }

  /**
   * The title of a table at the cursor, `dy` lower the column-header row of
   * height `h`, and the cursor below it.
   */
  function TableHead(e: Doc, title: string, dy: int, labels: seq<string>, widths: seq<int>, h: int): Doc
    requires |e.pages| > 0 && |labels| == |widths|
  {
    var titled := Doc(Append(e.pages, [Text(Literal(title), 40, e.y)]), e.y - dy);
    Doc(Append(titled.pages, ColumnHeaderOps(labels, widths, titled.y, h, |labels|)), titled.y - h)
  }

  /** The head prints the title and then the column labels, on the current page. */
  lemma TableHeadTexts(e: Doc, title: string, dy: int, labels: seq<string>, widths: seq<int>, h: int)
    requires |e.pages| > 0 && |labels| == |widths|
    ensures Texts(Flat(TableHead(e, title, dy, labels, widths, h).pages)) ==
      Texts(Flat(e.pages)) + [Literal(title)] + Labels(labels)
  {
    var op := Text(Literal(title), 40, e.y);
    var titled := Doc(Append(e.pages, [op]), e.y - dy);
    AppendTexts(e.pages, [op]);
    AppendTexts(titled.pages, ColumnHeaderOps(labels, widths, titled.y, h, |labels|));
    ColumnHeaderTexts(labels, widths, titled.y, h, |labels|);
    assert labels[..|labels|] == labels;
    TextsSingle(op);
  }

  lemma TableHeadPages(e: Doc, hdr: DrawOp, title: string, dy: int, labels: seq<string>, widths: seq<int>, h: int)
    requires |e.pages| > 0 && |labels| == |widths|
    ensures var r := TableHead(e, title, dy, labels, widths, h).pages;
      |r| == |e.pages| && Extends(e.pages, r) && (Framed(e.pages, hdr) ==> Framed(r, hdr))
  {
    var op := Text(Literal(title), 40, e.y);
    var titled := Doc(Append(e.pages, [op]), e.y - dy);
    var ops := ColumnHeaderOps(labels, widths, titled.y, h, |labels|);
    AppendExtends(e.pages, [op], hdr);
    AppendExtends(titled.pages, ops, hdr);
    ExtendsTrans(e.pages, titled.pages, Append(titled.pages, ops));
  }

  /** Title and column-header row of the summary, from the cursor after `ensureSpace(100)`. */
  function SummaryHead(e: Doc): (h: Doc)
    requires |e.pages| > 0
  {
    TableHead(e, "Executive Summary", 15, SummaryLabels, SummaryWidths, 16)
  }

  /** The executive summary, always drawn; then `y -= 20`. */
  function Summary(d: Doc, hdr: DrawOp, rows: seq<SummaryRow>): (r: Doc)
    requires |d.pages| > 0
    ensures |r.pages| >= |d.pages|
  {
    var h := SummaryHead(EnsureSpace(d, hdr, 100));
    var t := TableRows(h, hdr, SummaryWidths, 14, 12, SummaryTable(rows));
    Doc(t.pages, t.y - 20)
  }

  /** Title and column-header row of the detail table. */
  function DetailHead(e: Doc): (h: Doc)
    requires |e.pages| > 0
  {
    TableHead(e, "Detailed Results", 14, DetailLabels, DetailWidths, 14)
  }

  /** The detailed results, skipped when the list is absent or empty. */
  function Detail(d: Doc, hdr: DrawOp, rows: Option<seq<DetailRow>>): (r: Doc)
    requires |d.pages| > 0
    ensures |r.pages| >= |d.pages|
    ensures rows.None? || rows == Some([]) ==> r == d
  {
    if rows.None? || rows.value == [] then d
    else TableRows(DetailHead(EnsureSpace(d, hdr, 100)), hdr, DetailWidths, 12, 10,
                   DetailTable(rows.value))
  }

  /**
   * The summary prints its title, its column labels and then every record's
   * cells once, in input order, whatever the page breaks.
   */
  lemma SummaryTexts(d: Doc, hdr: DrawOp, rows: seq<SummaryRow>)
    requires |d.pages| > 0 && hdr.Header?
    ensures Texts(Flat(Summary(d, hdr, rows).pages)) ==
      Texts(Flat(d.pages)) + ([Literal("Executive Summary")] + Labels(SummaryLabels) +
      Concat(SummaryTable(rows)))
  {
    var e := EnsureSpace(d, hdr, 100);
    EnsureSpaceTexts(d, hdr, 100);
    TableHeadTexts(e, "Executive Summary", 15, SummaryLabels, SummaryWidths, 16);
    TableRowsTexts(SummaryHead(e), hdr, SummaryWidths, 14, 12, SummaryTable(rows));
    SeqAssoc(Texts(Flat(d.pages)), [Literal("Executive Summary")], Labels(SummaryLabels),
             Concat(SummaryTable(rows)));
  }

  lemma DetailTexts(d: Doc, hdr: DrawOp, rows: Option<seq<DetailRow>>)
    requires |d.pages| > 0 && hdr.Header?
    ensures Texts(Flat(Detail(d, hdr, rows).pages)) ==
      Texts(Flat(d.pages)) +
      (if rows.None? || rows == Some([]) then []
       else [Literal("Detailed Results")] + Labels(DetailLabels) + Concat(DetailTable(rows.value)))
  {
    if rows.Some? && rows.value != [] {
      var e := EnsureSpace(d, hdr, 100);
      EnsureSpaceTexts(d, hdr, 100);
      TableHeadTexts(e, "Detailed Results", 14, DetailLabels, DetailWidths, 14);
      TableRowsTexts(DetailHead(e), hdr, DetailWidths, 12, 10, DetailTable(rows.value));
      SeqAssoc(Texts(Flat(d.pages)), [Literal("Detailed Results")], Labels(DetailLabels),
               Concat(DetailTable(rows.value)));
    }
  }

  lemma SummaryPages(d: Doc, hdr: DrawOp, rows: seq<SummaryRow>)
    requires |d.pages| > 0
    ensures Extends(d.pages, Summary(d, hdr, rows).pages)
    ensures Framed(d.pages, hdr) ==> Framed(Summary(d, hdr, rows).pages, hdr)
  {
    var e := EnsureSpace(d, hdr, 100);
    EnsureSpaceExtends(d, hdr, 100);
    TableHeadPages(e, hdr, "Executive Summary", 15, SummaryLabels, SummaryWidths, 16);
    TableRowsPages(SummaryHead(e), hdr, SummaryWidths, 14, 12, SummaryTable(rows));
    ExtendsTrans(d.pages, e.pages, SummaryHead(e).pages);
    ExtendsTrans(d.pages, SummaryHead(e).pages, Summary(d, hdr, rows).pages);
  }

  lemma DetailPages(d: Doc, hdr: DrawOp, rows: Option<seq<DetailRow>>)
    requires |d.pages| > 0
    ensures Extends(d.pages, Detail(d, hdr, rows).pages)
    ensures Framed(d.pages, hdr) ==> Framed(Detail(d, hdr, rows).pages, hdr)
  {
    if rows.None? || rows.value == [] {
    } else {
      var e := EnsureSpace(d, hdr, 100);
      EnsureSpaceExtends(d, hdr, 100);
      TableHeadPages(e, hdr, "Detailed Results", 14, DetailLabels, DetailWidths, 14);
      TableRowsPages(DetailHead(e), hdr, DetailWidths, 12, 10, DetailTable(rows.value));
      ExtendsTrans(d.pages, e.pages, DetailHead(e).pages);
      ExtendsTrans(d.pages, DetailHead(e).pages, Detail(d, hdr, rows).pages);
    }
  }

  // ---------------------------------------------------------------------
  // Consumer feedback: one bordered call-out per comment that has text.

  predicate Shown(c: Comment) {
    c.comment.Some? && c.comment.value != []
  }

  /** One comment: skipped without text; else `ensureSpace(50)`, a 40-high box, `y -= 45`. */
  function Callout(d: Doc, hdr: DrawOp, c: Comment): (r: Doc)
    requires |d.pages| > 0
    ensures |r.pages| >= |d.pages|
  {
    if !Shown(c) then d
    else
      var e := EnsureSpace(d, hdr, 50);
      Doc(Append(e.pages, [Rect(40, e.y - 40, PageWidth - 80, 40),
                           Text(Stripped(c.comment.value), 46, e.y - 20)]),
          e.y - 45)
  }

  function Callouts(d: Doc, hdr: DrawOp, cs: seq<Comment>): (r: Doc)
    requires |d.pages| > 0
    ensures |r.pages| >= |d.pages|
    decreases |cs|
  {
    if cs == [] then d else Callout(Callouts(d, hdr, cs[..|cs| - 1]), hdr, cs[|cs| - 1])
  }

  /** The feedback section, skipped when the list is absent or empty. */
  function Feedback(d: Doc, hdr: DrawOp, comments: Option<seq<Comment>>): (r: Doc)
    requires |d.pages| > 0
    ensures |r.pages| >= |d.pages|
    ensures comments.None? || comments == Some([]) ==> r == d
  {
    if comments.None? || comments.value == [] then d
    else
      var e := EnsureSpace(d, hdr, 60);
      var titled := Doc(Append(e.pages, [Text(Literal("Consumer Feedback"), 40, e.y)]), e.y - 14);
      Callouts(titled, hdr, comments.value)
  }

  /** The comments that are drawn, in order. */
  function ShownComments(cs: seq<Comment>): (r: seq<Comment>)
    ensures |r| <= |cs|
    ensures forall i :: 0 <= i < |r| ==> Shown(r[i])
    ensures forall c :: c in r <==> c in cs && Shown(c)
  {
    if cs == [] then []
    else ShownComments(cs[..|cs| - 1]) + (if Shown(cs[|cs| - 1]) then [cs[|cs| - 1]] else [])
  }

  /**
   * Filtering keeps order: the comments shown from a list split in two are
   * those shown from the first part followed by those shown from the second.
   */
  lemma {:induction false} ShownCommentsConcat(a: seq<Comment>, b: seq<Comment>)
    ensures ShownComments(a + b) == ShownComments(a) + ShownComments(b)
  {
    if b == [] {
      assert a + b == a;
    } else {
      var init, c := b[..|b| - 1], b[|b| - 1];
      assert (a + b)[..|a + b| - 1] == a + init;
      ShownCommentsConcat(a, init);
    }
  }

  /** What the drawn call-outs print: the comments with text, in order, each through `stripHtml`. */
  function CalloutTexts(cs: seq<Comment>): seq<Content> {
    if cs == [] then []
    else CalloutTexts(cs[..|cs| - 1]) +
         (if Shown(cs[|cs| - 1]) then [Stripped(cs[|cs| - 1].comment.value)] else [])
  }

  /**
   * A comment without text consumes nothing: the call-outs of a list are the
   * call-outs of its comments that have text, page breaks and cursor included.
   */
  lemma {:induction false} CalloutsSkipEmpty(d: Doc, hdr: DrawOp, cs: seq<Comment>)
    requires |d.pages| > 0
    ensures Callouts(d, hdr, cs) == Callouts(d, hdr, ShownComments(cs))
  {
    if cs != [] {
      var init, c := cs[..|cs| - 1], cs[|cs| - 1];
      CalloutsSkipEmpty(d, hdr, init);
      var s := ShownComments(init);
      if Shown(c) {
        assert ShownComments(cs) == s + [c];
        assert (s + [c])[..|s|] == s;
      } else {
        assert ShownComments(cs) == s + [] == s;
      }
    }
  }

  /** Call-outs break pages like a flow checking 50 and consuming 45 per drawn comment. */
  lemma {:induction false} CalloutsFlow(d: Doc, hdr: DrawOp, cs: seq<Comment>)
    requires |d.pages| > 0
    ensures var r := Callouts(d, hdr, cs);
      var f := Flow(d.y, |ShownComments(cs)|, 50, 45);
      |r.pages| == |d.pages| + f.breaks && r.y == f.y
  {
    if cs != [] {
      var init, c := cs[..|cs| - 1], cs[|cs| - 1];
      CalloutsFlow(d, hdr, init);
      if Shown(c) {
        assert |ShownComments(cs)| == |ShownComments(init)| + 1;
      } else {
        assert ShownComments(cs) == ShownComments(init) + [];
      }
    }
  }

  lemma CalloutStepTexts(d: Doc, hdr: DrawOp, c: Comment)
    requires |d.pages| > 0 && hdr.Header?
    ensures Texts(Flat(Callout(d, hdr, c).pages)) ==
      Texts(Flat(d.pages)) + (if Shown(c) then [Stripped(c.comment.value)] else [])
  {
    if Shown(c) {
      var e := EnsureSpace(d, hdr, 50);
      var t := Text(Stripped(c.comment.value), 46, e.y - 20);
      var box := [Rect(40, e.y - 40, PageWidth - 80, 40), t];
      assert Callout(d, hdr, c).pages == Append(e.pages, box);
      EnsureSpaceTexts(d, hdr, 50);
      AppendTexts(e.pages, box);
      assert box == [box[0]] + [t];
      TextsConcat([box[0]], [t]);
      TextsSingle(box[0]);
      TextsSingle(t);
    }
  }

  lemma CalloutStepPages(d: Doc, hdr: DrawOp, c: Comment)
    requires |d.pages| > 0
    ensures Extends(d.pages, Callout(d, hdr, c).pages)
    ensures Framed(d.pages, hdr) ==> Framed(Callout(d, hdr, c).pages, hdr)
  {
    if Shown(c) {
      var e := EnsureSpace(d, hdr, 50);
      var box := [Rect(40, e.y - 40, PageWidth - 80, 40),
                  Text(Stripped(c.comment.value), 46, e.y - 20)];
      assert Callout(d, hdr, c).pages == Append(e.pages, box);
      EnsureSpaceExtends(d, hdr, 50);
      AppendExtends(e.pages, box, hdr);
      ExtendsTrans(d.pages, e.pages, Append(e.pages, box));
    } else {
    }
  }

  /** Each comment with text is printed exactly once, stripped, in input order. */
  lemma {:induction false} CalloutsTexts(d: Doc, hdr: DrawOp, cs: seq<Comment>)
    requires |d.pages| > 0 && hdr.Header?
    ensures Texts(Flat(Callouts(d, hdr, cs).pages)) == Texts(Flat(d.pages)) + CalloutTexts(cs)
  {
    if cs != [] {
      var init, c := cs[..|cs| - 1], cs[|cs| - 1];
      var prev := Callouts(d, hdr, init);
      CalloutsTexts(d, hdr, init);
      CalloutStepTexts(prev, hdr, c);
      assert Callouts(d, hdr, cs) == Callout(prev, hdr, c);
      assert CalloutTexts(cs) == CalloutTexts(init) +
        (if Shown(c) then [Stripped(c.comment.value)] else []);
    }
  }

  lemma {:induction false} CalloutsPages(d: Doc, hdr: DrawOp, cs: seq<Comment>)
    requires |d.pages| > 0
    ensures Extends(d.pages, Callouts(d, hdr, cs).pages)
    ensures Framed(d.pages, hdr) ==> Framed(Callouts(d, hdr, cs).pages, hdr)
  {
    if cs == [] {
    } else {
      var init, c := cs[..|cs| - 1], cs[|cs| - 1];
      var prev := Callouts(d, hdr, init);
      CalloutsPages(d, hdr, init);
      CalloutStepPages(prev, hdr, c);
      assert Callouts(d, hdr, cs) == Callout(prev, hdr, c);
      ExtendsTrans(d.pages, prev.pages, Callouts(d, hdr, cs).pages);
    }
  }

  lemma FeedbackTexts(d: Doc, hdr: DrawOp, comments: Option<seq<Comment>>)
    requires |d.pages| > 0 && hdr.Header?
    ensures Texts(Flat(Feedback(d, hdr, comments).pages)) ==
      Texts(Flat(d.pages)) +
      (if comments.None? || comments == Some([]) then []
       else [Literal("Consumer Feedback")] + CalloutTexts(comments.value))
  {
    if comments.Some? && comments.value != [] {
      var e := EnsureSpace(d, hdr, 60);
      var op := Text(Literal("Consumer Feedback"), 40, e.y);
      var titled := Doc(Append(e.pages, [op]), e.y - 14);
      assert Texts(Flat(e.pages)) == Texts(Flat(d.pages)) by {
        EnsureSpaceTexts(d, hdr, 60);
      }
      assert Texts(Flat(titled.pages)) == Texts(Flat(e.pages)) + [Literal("Consumer Feedback")] by {
        AppendTexts(e.pages, [op]);
        TextsSingle(op);
      }
      var r := Callouts(titled, hdr, comments.value);
      assert Texts(Flat(r.pages)) == Texts(Flat(titled.pages)) + CalloutTexts(comments.value) by {
        CalloutsTexts(titled, hdr, comments.value);
      }
      assert Feedback(d, hdr, comments) == r;
      SeqAssoc3(Texts(Flat(d.pages)), [Literal("Consumer Feedback")], CalloutTexts(comments.value));
    }
  }

  lemma FeedbackPages(d: Doc, hdr: DrawOp, comments: Option<seq<Comment>>)
    requires |d.pages| > 0
    ensures Extends(d.pages, Feedback(d, hdr, comments).pages)
    ensures Framed(d.pages, hdr) ==> Framed(Feedback(d, hdr, comments).pages, hdr)
  {
    if comments.None? || comments.value == [] {
    } else {
      var e := EnsureSpace(d, hdr, 60);
      var titled := Doc(Append(e.pages, [Text(Literal("Consumer Feedback"), 40, e.y)]), e.y - 14);
      var r := Callouts(titled, hdr, comments.value);
      assert Feedback(d, hdr, comments) == r;
      EnsureSpaceExtends(d, hdr, 60);
      AppendExtends(e.pages, [Text(Literal("Consumer Feedback"), 40, e.y)], hdr);
      CalloutsPages(titled, hdr, comments.value);
      ExtendsTrans(d.pages, e.pages, titled.pages);
      ExtendsTrans(d.pages, titled.pages, r.pages);
    }
  }


  // ---------------------------------------------------------------------
  // Photo gallery: a grid of four columns, rows 100 units apart.

  /** The loop state of the gallery: the document, the column and the top of the current row. */
  datatype Grid = Grid(doc: Doc, col: int, rowTop: int)

  /**
   * The photo at list position `i`: its image (when it loaded) in the current
   * cell; then the next column; after the fourth, the next row and
   * `ensureSpace(100)`; and when the row top has fallen below 100,
   * `ensureSpace(100)` and the row top back at the cursor. The page checks
   * test the cursor `y`, which the grid itself never moves.
   */
  function PhotoStep(g: Grid, hdr: DrawOp, i: nat, p: Photo): (r: Grid)
    requires |g.doc.pages| > 0
    ensures |r.doc.pages| >= |g.doc.pages|
  {
    var drawn := PhotoDrawn(g, i, p);
    var next :=
      if g.col + 1 == 4 then Grid(EnsureSpace(drawn, hdr, 100), 0, g.rowTop - 100)
      else Grid(drawn, g.col + 1, g.rowTop);
    if next.rowTop < 100 then
      var e := EnsureSpace(next.doc, hdr, 100);
      Grid(e, next.col, e.y)
    else next
  }

  function PhotoGrid(g: Grid, hdr: DrawOp, photos: seq<Photo>): (r: Grid)
    requires |g.doc.pages| > 0
    ensures |r.doc.pages| >= |g.doc.pages|
    decreases |photos|
  {
    if photos == [] then g
    else PhotoStep(PhotoGrid(g, hdr, photos[..|photos| - 1]), hdr, |photos| - 1, photos[|photos| - 1])
  }

  /**
   * The gallery, skipped when the list is absent or empty: `ensureSpace(120)`,
   * the title, the grid from the cursor, and the cursor 100 below the last row top.
   */
  function Photos(d: Doc, hdr: DrawOp, photos: Option<seq<Photo>>): (r: Doc)
    requires |d.pages| > 0
    ensures |r.pages| >= |d.pages|
    ensures photos.None? || photos == Some([]) ==> r == d
  {
    if photos.None? || photos.value == [] then d
    else
      var e := EnsureSpace(d, hdr, 120);
      var titled := Doc(Append(e.pages, [Text(Literal("Photo Gallery"), 40, e.y)]), e.y - 14);
      var g := PhotoGrid(Grid(titled, 0, titled.y), hdr, photos.value);
      Doc(g.doc.pages, g.rowTop - 100)
  }

  /**
   * The column counts photos modulo four, and after any photo the row top
   * is at least 100.
   */
  lemma {:induction false} PhotoGridCounters(g: Grid, hdr: DrawOp, photos: seq<Photo>)
    requires |g.doc.pages| > 0 && 0 <= g.col < 4
    ensures var r := PhotoGrid(g, hdr, photos);
      r.col == (g.col + |photos|) % 4 && (photos != [] ==> r.rowTop >= 100)
  {
    if photos != [] {
      PhotoGridCounters(g, hdr, photos[..|photos| - 1]);
    }
  }

  /**
   * One photo moves the column on by one modulo four; the row top stays
   * within a row and drops by 100 after the fourth column, so long as it
   * stays at or above 100.
   */
  lemma PhotoStepRows(g: Grid, hdr: DrawOp, i: nat, p: Photo)
    requires |g.doc.pages| > 0 && 0 <= g.col < 4 && g.rowTop >= 100
    ensures var r := PhotoStep(g, hdr, i, p);
      r.col == (g.col + 1) % 4 &&
      (g.col < 3 ==> r.rowTop == g.rowTop && r.doc.y == g.doc.y) &&
      (g.col == 3 && g.rowTop >= 200 ==> r.rowTop == g.rowTop - 100)
  {
  }

  /**
   * With the cursor at least 100 above the margin, no photo adds a page and
   * the cursor stays where it is: the page checks of the grid never fire.
   * The row top stays at or below the cursor.
   */
  lemma {:induction false} PhotoGridStaysOnPage(g: Grid, hdr: DrawOp, photos: seq<Photo>)
    requires |g.doc.pages| > 0 && g.doc.y >= BottomMargin + 100 && g.rowTop <= g.doc.y
    ensures var r := PhotoGrid(g, hdr, photos);
      |r.doc.pages| == |g.doc.pages| && r.doc.y == g.doc.y && r.rowTop <= g.doc.y
  {
    if photos != [] {
      PhotoGridStaysOnPage(g, hdr, photos[..|photos| - 1]);
    }
  }

  /**
   * When the fourth column of a row is filled and the next row would start
   * below 100 while the cursor is still high, the next row starts at the
   * cursor again, on the same page: the thumbnails of the next rows are drawn
   * over the ones already there.
   */
  lemma PhotoRowWrapsInPlace(g: Grid, hdr: DrawOp, i: nat, p: Photo)
    requires |g.doc.pages| > 0 && g.col == 3 && g.rowTop < 200
    requires g.doc.y >= BottomMargin + 100
    ensures var r := PhotoStep(g, hdr, i, p);
      r.col == 0 && r.rowTop == g.doc.y && r.doc.y == g.doc.y && |r.doc.pages| == |g.doc.pages|
  {
  }

  /** Whether photos loaded changes only which images appear, not where anything goes. */
  lemma {:induction false} PhotoGridGeometry(g1: Grid, g2: Grid, hdr: DrawOp, p1: seq<Photo>, p2: seq<Photo>)
    requires |g1.doc.pages| > 0 && |g2.doc.pages| > 0 && |p1| == |p2|
    requires g1.col == g2.col && g1.rowTop == g2.rowTop && g1.doc.y == g2.doc.y
    requires |g1.doc.pages| == |g2.doc.pages|
    ensures var r1, r2 := PhotoGrid(g1, hdr, p1), PhotoGrid(g2, hdr, p2);
      r1.col == r2.col && r1.rowTop == r2.rowTop && r1.doc.y == r2.doc.y &&
      |r1.doc.pages| == |r2.doc.pages|
  {
    if p1 != [] {
      PhotoGridGeometry(g1, g2, hdr, p1[..|p1| - 1], p2[..|p2| - 1]);
    }
  }

  /** The images drawn, as (photo position, left edge) pairs in drawing order. */
  function Images(ops: seq<DrawOp>): seq<(nat, int)> {
    if ops == [] then []
    else (if ops[0].Image? then [(ops[0].photo, ops[0].x)] else []) + Images(ops[1..])
  }

  lemma {:induction false} ImagesConcat(a: seq<DrawOp>, b: seq<DrawOp>)
    ensures Images(a + b) == Images(a) + Images(b)
  {
    if a == [] {
      assert a + b == b;
    } else {
      assert (a + b)[0] == a[0];
      assert (a + b)[1..] == a[1..] + b;
      ImagesConcat(a[1..], b);
    }
  }

  lemma ImagesSingle(op: DrawOp)
    ensures Images([op]) == if op.Image? then [(op.photo, op.x)] else []
  {
    assert [op][1..] == [];
  }

  lemma AppendImages(pages: seq<seq<DrawOp>>, ops: seq<DrawOp>)
    requires |pages| > 0
    ensures Images(Flat(Append(pages, ops))) == Images(Flat(pages)) + Images(ops)
  {
    FlatAppend(pages, ops);
    ImagesConcat(Flat(pages), ops);
  }

  lemma EnsureSpaceImages(d: Doc, hdr: DrawOp, needed: int)
    requires hdr.Header?
    ensures Images(Flat(EnsureSpace(d, hdr, needed).pages)) == Images(Flat(d.pages))
  {
    if d.y - needed < BottomMargin {
      FlatNewPage(d.pages, [hdr]);
      ImagesConcat(Flat(d.pages), [hdr]);
      ImagesSingle(hdr);
    }
  }

  /**
   * The images the grid draws: each loaded photo once, in list order, photo
   * `i` in column `(col + i) % 4` for a grid starting in column `col`.
   */
  function LoadedImages(col: int, photos: seq<Photo>): seq<(nat, int)> {
    if photos == [] then []
    else LoadedImages(col, photos[..|photos| - 1]) +
         (if photos[|photos| - 1].loaded
          then [(|photos| - 1, 40 + ((col + |photos| - 1) % 4) * 100)] else [])
  }

  /** The document after the photo's own image, before the page checks. */
  function PhotoDrawn(g: Grid, i: nat, p: Photo): (d: Doc)
    requires |g.doc.pages| > 0
    ensures |d.pages| == |g.doc.pages| && d.y == g.doc.y
  {
    if p.loaded then Doc(Append(g.doc.pages, [Image(i, 40 + g.col * 100, g.rowTop - 90, 90, 90)]), g.doc.y)
    else g.doc
  }

  /**
   * A photo step is its image, then the page check after a fourth column,
   * then the page check when the row top has fallen below 100.
   */
  lemma PhotoStepShape(g: Grid, hdr: DrawOp, i: nat, p: Photo)
    requires |g.doc.pages| > 0
    ensures var drawn := PhotoDrawn(g, i, p);
      var wrap := g.col + 1 == 4;
      var first := if wrap then EnsureSpace(drawn, hdr, 100) else drawn;
      var top := if wrap then g.rowTop - 100 else g.rowTop;
      PhotoStep(g, hdr, i, p).doc == if top < 100 then EnsureSpace(first, hdr, 100) else first
  {
  }

  lemma PhotoStepImages(g: Grid, hdr: DrawOp, i: nat, p: Photo)
    requires |g.doc.pages| > 0 && hdr.Header?
    ensures Images(Flat(PhotoStep(g, hdr, i, p).doc.pages)) ==
      Images(Flat(g.doc.pages)) + (if p.loaded then [(i, 40 + g.col * 100)] else [])
  {
    var drawn := PhotoDrawn(g, i, p);
    PhotoDrawnImages(g, i, p);
    var first := if g.col + 1 == 4 then EnsureSpace(drawn, hdr, 100) else drawn;
    assert Images(Flat(first.pages)) == Images(Flat(drawn.pages)) by {
      if g.col + 1 == 4 { EnsureSpaceImages(drawn, hdr, 100); }
    }
    var top := if g.col + 1 == 4 then g.rowTop - 100 else g.rowTop;
    var last := if top < 100 then EnsureSpace(first, hdr, 100) else first;
    PhotoStepShape(g, hdr, i, p);
    assert PhotoStep(g, hdr, i, p).doc == last;
    assert Images(Flat(last.pages)) == Images(Flat(first.pages)) by {
      if top < 100 { EnsureSpaceImages(first, hdr, 100); }
    }
  }

  /** The thumbnail of a loaded photo is the one image the cell adds. */
  lemma PhotoDrawnImages(g: Grid, i: nat, p: Photo)
    requires |g.doc.pages| > 0
    ensures Images(Flat(PhotoDrawn(g, i, p).pages)) ==
      Images(Flat(g.doc.pages)) + (if p.loaded then [(i, 40 + g.col * 100)] else [])
  {
    var img := Image(i, 40 + g.col * 100, g.rowTop - 90, 90, 90);
    if p.loaded {
      AppendImages(g.doc.pages, [img]);
      ImagesSingle(img);
    } else {
      assert Images(Flat(g.doc.pages)) + [] == Images(Flat(g.doc.pages));
    }
  }

  /** A thumbnail is no text. */
  lemma PhotoDrawnTexts(g: Grid, i: nat, p: Photo)
    requires |g.doc.pages| > 0
    ensures Texts(Flat(PhotoDrawn(g, i, p).pages)) == Texts(Flat(g.doc.pages))
  {
    var img := Image(i, 40 + g.col * 100, g.rowTop - 90, 90, 90);
    if p.loaded {
      AppendTexts(g.doc.pages, [img]);
      TextsSingle(img);
      assert Texts(Flat(g.doc.pages)) + [] == Texts(Flat(g.doc.pages));
    }
  }

  lemma PhotoStepTexts(g: Grid, hdr: DrawOp, i: nat, p: Photo)
    requires |g.doc.pages| > 0 && hdr.Header?
    ensures Texts(Flat(PhotoStep(g, hdr, i, p).doc.pages)) == Texts(Flat(g.doc.pages))
  {
    var drawn := PhotoDrawn(g, i, p);
    PhotoDrawnTexts(g, i, p);
    var first := if g.col + 1 == 4 then EnsureSpace(drawn, hdr, 100) else drawn;
    assert Texts(Flat(first.pages)) == Texts(Flat(drawn.pages)) by {
      if g.col + 1 == 4 { EnsureSpaceTexts(drawn, hdr, 100); }
    }
    var top := if g.col + 1 == 4 then g.rowTop - 100 else g.rowTop;
    var last := if top < 100 then EnsureSpace(first, hdr, 100) else first;
    PhotoStepShape(g, hdr, i, p);
    assert PhotoStep(g, hdr, i, p).doc == last;
    assert Texts(Flat(last.pages)) == Texts(Flat(first.pages)) by {
      if top < 100 { EnsureSpaceTexts(first, hdr, 100); }
    }
  }

  lemma PhotoStepPages(g: Grid, hdr: DrawOp, i: nat, p: Photo)
    requires |g.doc.pages| > 0
    ensures Extends(g.doc.pages, PhotoStep(g, hdr, i, p).doc.pages)
    ensures Framed(g.doc.pages, hdr) ==> Framed(PhotoStep(g, hdr, i, p).doc.pages, hdr)
  {
    var drawn := PhotoDrawn(g, i, p);
    PhotoDrawnPages(g, hdr, i, p);
    var wrap := g.col + 1 == 4;
    var first := if wrap then EnsureSpace(drawn, hdr, 100) else drawn;
    MaybeEnsureSpacePages(drawn, hdr, 100, wrap);
    ExtendsTrans(g.doc.pages, drawn.pages, first.pages);
    var top := if wrap then g.rowTop - 100 else g.rowTop;
    var last := if top < 100 then EnsureSpace(first, hdr, 100) else first;
    MaybeEnsureSpacePages(first, hdr, 100, top < 100);
    ExtendsTrans(g.doc.pages, first.pages, last.pages);
    PhotoStepShape(g, hdr, i, p);
  }

  lemma PhotoDrawnPages(g: Grid, hdr: DrawOp, i: nat, p: Photo)
    requires |g.doc.pages| > 0
    ensures Extends(g.doc.pages, PhotoDrawn(g, i, p).pages)
    ensures Framed(g.doc.pages, hdr) ==> Framed(PhotoDrawn(g, i, p).pages, hdr)
  {
    if p.loaded {
      AppendExtends(g.doc.pages, [Image(i, 40 + g.col * 100, g.rowTop - 90, 90, 90)], hdr);
    }
  }

  /** `ensureSpace` when `c` holds, nothing otherwise: either way the pages only grow. */
  lemma MaybeEnsureSpacePages(d: Doc, hdr: DrawOp, needed: int, c: bool)
    requires |d.pages| > 0
    ensures var e := if c then EnsureSpace(d, hdr, needed) else d;
      Extends(d.pages, e.pages) && (Framed(d.pages, hdr) ==> Framed(e.pages, hdr))
  {
    if c {
      EnsureSpaceExtends(d, hdr, needed);
    }
  }

    lemma {:induction false} PhotoGridImages(g: Grid, hdr: DrawOp, photos: seq<Photo>)
    requires |g.doc.pages| > 0 && hdr.Header? && 0 <= g.col < 4
    ensures Images(Flat(PhotoGrid(g, hdr, photos).doc.pages)) ==
      Images(Flat(g.doc.pages)) + LoadedImages(g.col, photos)
  {
    if photos != [] {
      var init := photos[..|photos| - 1];
      var prev := PhotoGrid(g, hdr, init);
      PhotoGridImages(g, hdr, init);
      PhotoGridCounters(g, hdr, init);
      var i, last := |photos| - 1, photos[|photos| - 1];
      assert PhotoGrid(g, hdr, photos) == PhotoStep(prev, hdr, i, last);
      PhotoStepImages(prev, hdr, i, last);
      var add := if last.loaded then [(i, 40 + prev.col * 100)] else [];
      assert LoadedImages(g.col, photos) == LoadedImages(g.col, init) + add;
      SeqAssoc3(Images(Flat(g.doc.pages)), LoadedImages(g.col, init), add);
    }
  }

  lemma {:induction false} PhotoGridTexts(g: Grid, hdr: DrawOp, photos: seq<Photo>)
    requires |g.doc.pages| > 0 && hdr.Header?
    ensures Texts(Flat(PhotoGrid(g, hdr, photos).doc.pages)) == Texts(Flat(g.doc.pages))
  {
    if photos != [] {
      var init := photos[..|photos| - 1];
      var prev := PhotoGrid(g, hdr, init);
      PhotoGridTexts(g, hdr, init);
      var i, last := |photos| - 1, photos[|photos| - 1];
      assert PhotoGrid(g, hdr, photos) == PhotoStep(prev, hdr, i, last);
      PhotoStepTexts(prev, hdr, i, last);
    }
  }

  /** The grid only adds to the document, and every page it opens is framed. */
  lemma {:induction false} PhotoGridPages(g: Grid, hdr: DrawOp, photos: seq<Photo>)
    requires |g.doc.pages| > 0
    ensures Extends(g.doc.pages, PhotoGrid(g, hdr, photos).doc.pages)
    ensures Framed(g.doc.pages, hdr) ==> Framed(PhotoGrid(g, hdr, photos).doc.pages, hdr)
  {
    if photos == [] {
    } else {
      var init := photos[..|photos| - 1];
      var prev := PhotoGrid(g, hdr, init);
      PhotoGridPages(g, hdr, init);
      PhotoStepPages(prev, hdr, |photos| - 1, photos[|photos| - 1]);
      ExtendsTrans(g.doc.pages, prev.doc.pages, PhotoGrid(g, hdr, photos).doc.pages);
    }
  }

  /**
   * The gallery adds at most one page, the one `ensureSpace(120)` may open
   * before its title, however many photos it holds.
   */
  lemma PhotosAddAtMostOnePage(d: Doc, hdr: DrawOp, photos: Option<seq<Photo>>)
    requires |d.pages| > 0
    ensures |Photos(d, hdr, photos).pages| <= |d.pages| + 1
    ensures photos.Some? && photos.value != [] ==>
      |Photos(d, hdr, photos).pages| == |EnsureSpace(d, hdr, 120).pages| &&
      Photos(d, hdr, photos).y >= 0
  {
    if photos.Some? && photos.value != [] {
      var e := EnsureSpace(d, hdr, 120);
      var titled := Doc(Append(e.pages, [Text(Literal("Photo Gallery"), 40, e.y)]), e.y - 14);
      PhotoGridStaysOnPage(Grid(titled, 0, titled.y), hdr, photos.value);
      PhotoGridCounters(Grid(titled, 0, titled.y), hdr, photos.value);
    }
  }

  lemma PhotosTexts(d: Doc, hdr: DrawOp, photos: Option<seq<Photo>>)
    requires |d.pages| > 0 && hdr.Header?
    ensures Texts(Flat(Photos(d, hdr, photos).pages)) == Texts(Flat(d.pages)) +
      (if photos.None? || photos == Some([]) then [] else [Literal("Photo Gallery")])
  {
    if photos.Some? && photos.value != [] {
      var e := EnsureSpace(d, hdr, 120);
      var title := Text(Literal("Photo Gallery"), 40, e.y);
      var titled := Doc(Append(e.pages, [title]), e.y - 14);
      assert Texts(Flat(e.pages)) == Texts(Flat(d.pages)) by {
        EnsureSpaceTexts(d, hdr, 120);
      }
      assert Texts(Flat(titled.pages)) == Texts(Flat(e.pages)) + [Literal("Photo Gallery")] by {
        AppendTexts(e.pages, [title]);
        TextsSingle(title);
      }
      var g := PhotoGrid(Grid(titled, 0, titled.y), hdr, photos.value);
      assert Texts(Flat(g.doc.pages)) == Texts(Flat(titled.pages)) by {
        PhotoGridTexts(Grid(titled, 0, titled.y), hdr, photos.value);
      }
      assert Photos(d, hdr, photos).pages == g.doc.pages;
    }
  }

  lemma PhotosImages(d: Doc, hdr: DrawOp, photos: Option<seq<Photo>>)
    requires |d.pages| > 0 && hdr.Header?
    ensures Images(Flat(Photos(d, hdr, photos).pages)) == Images(Flat(d.pages)) +
      (if photos.None? then [] else LoadedImages(0, photos.value))
  {
    if photos.Some? && photos.value != [] {
      var e := EnsureSpace(d, hdr, 120);
      var title := Text(Literal("Photo Gallery"), 40, e.y);
      var titled := Doc(Append(e.pages, [title]), e.y - 14);
      assert Images(Flat(e.pages)) == Images(Flat(d.pages)) by {
        EnsureSpaceImages(d, hdr, 120);
      }
      assert Images(Flat(titled.pages)) == Images(Flat(e.pages)) by {
        AppendImages(e.pages, [title]);
        ImagesSingle(title);
      }
      var g := PhotoGrid(Grid(titled, 0, titled.y), hdr, photos.value);
      assert Images(Flat(g.doc.pages)) == Images(Flat(titled.pages)) + LoadedImages(0, photos.value) by {
        PhotoGridImages(Grid(titled, 0, titled.y), hdr, photos.value);
      }
      assert Photos(d, hdr, photos).pages == g.doc.pages;
    }
  }

  lemma PhotosPages(d: Doc, hdr: DrawOp, photos: Option<seq<Photo>>)
    requires |d.pages| > 0
    ensures Extends(d.pages, Photos(d, hdr, photos).pages)
    ensures Framed(d.pages, hdr) ==> Framed(Photos(d, hdr, photos).pages, hdr)
  {
    if photos.None? || photos.value == [] {
    } else {
      var e := EnsureSpace(d, hdr, 120);
      var title := Text(Literal("Photo Gallery"), 40, e.y);
      var titled := Doc(Append(e.pages, [title]), e.y - 14);
      var g := PhotoGrid(Grid(titled, 0, titled.y), hdr, photos.value);
      assert Photos(d, hdr, photos).pages == g.doc.pages;
      EnsureSpaceExtends(d, hdr, 120);
      AppendExtends(e.pages, [title], hdr);
      ExtendsTrans(d.pages, e.pages, titled.pages);
      PhotoGridPages(Grid(titled, 0, titled.y), hdr, photos.value);
      ExtendsTrans(d.pages, titled.pages, g.doc.pages);
    }
  }
}
