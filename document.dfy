/**
 * The whole document `generateReportPdf` lays out: the first page and its
 * header, then the five sections in their fixed order.
 */
module ReportPdf {
  import opened Wrappers
  import opened Formatting
  import opened Canvas
  import opened Report
  import opened PageBudget
  import opened Pagination
  import opened Sections

  /** The first page as the header leaves it: the band drawn, the cursor at `H-130`. */
  function FirstPage(input: ReportInput): Doc {
    Doc([[Furniture(input.report)]], FirstBodyTop)
  }

  /** The pages of the report, in order. */
  function Generate(input: ReportInput): (r: Doc)
    ensures |r.pages| >= 1
  {
    var hdr := Furniture(input.report);
    var kpis := Kpis(FirstPage(input), input.report);
    var summary := Summary(kpis, hdr, input.executiveSummary.GetOr([]));
    var feedback := Feedback(summary, hdr, input.comments);
    var photos := Photos(feedback, hdr, input.photos);
    Detail(photos, hdr, input.tastings)
  }

  predicate Empty<T>(xs: Option<seq<T>>) {
    xs.None? || xs == Some([])
  }

  /**
   * What the report prints, in reading order, from the input alone: the six
   * cards, the summary and its records, the comments with text, the gallery
   * title and the detail records, each section only when it is drawn.
   */
  function ReadingOrder(input: ReportInput): seq<Content> {
    CardTexts(KpiCards(input.report)) +
    ([Literal("Executive Summary")] + Labels(SummaryLabels) +
     Concat(SummaryTable(input.executiveSummary.GetOr([])))) +
    (if Empty(input.comments) then []
     else [Literal("Consumer Feedback")] + CalloutTexts(input.comments.value)) +
    (if Empty(input.photos) then [] else [Literal("Photo Gallery")]) +
    (if Empty(input.tastings) then []
     else [Literal("Detailed Results")] + Labels(DetailLabels) + Concat(DetailTable(input.tastings.value)))
  }

  lemma KpisTexts(d: Doc, meta: ReportMeta)
    requires |d.pages| > 0
    ensures Texts(Flat(Kpis(d, meta).pages)) == Texts(Flat(d.pages)) + CardTexts(KpiCards(meta))
  {
    var cards := KpiCards(meta);
    AppendTexts(d.pages, KpiOps(cards, d.y, |cards|));
    KpiCardsTexts(cards, d.y, |cards|);
    assert cards[..|cards|] == cards;
  }

  lemma KpisPages(d: Doc, meta: ReportMeta, hdr: DrawOp)
    requires |d.pages| > 0
    ensures Extends(d.pages, Kpis(d, meta).pages)
    ensures Framed(d.pages, hdr) ==> Framed(Kpis(d, meta).pages, hdr)
  {
    var cards := KpiCards(meta);
    AppendExtends(d.pages, KpiOps(cards, d.y, |cards|), hdr);
  }

  /**
   * The document prints exactly the reading order of its input: every
   * record once, in input order, sections in their fixed order, whatever the
   * page breaks.
   */
  lemma GenerateTexts(input: ReportInput)
    ensures Texts(Flat(Generate(input).pages)) == ReadingOrder(input)
  {
    var hdr := Furniture(input.report);
    var first := FirstPage(input);
    assert Flat(first.pages) == [hdr] by {
      assert first.pages[..0] == [];
    }
    TextsSingle(hdr);
    var kpis := Kpis(first, input.report);
    var rows := input.executiveSummary.GetOr([]);
    var summary := Summary(kpis, hdr, rows);
    var feedback := Feedback(summary, hdr, input.comments);
    var photos := Photos(feedback, hdr, input.photos);
    var detail := Detail(photos, hdr, input.tastings);
    var k := CardTexts(KpiCards(input.report));
    var sm := [Literal("Executive Summary")] + Labels(SummaryLabels) + Concat(SummaryTable(rows));
    var f := if Empty(input.comments) then []
      else [Literal("Consumer Feedback")] + CalloutTexts(input.comments.value);
    var g := if Empty(input.photos) then [] else [Literal("Photo Gallery")];
    var dt := if Empty(input.tastings) then []
      else [Literal("Detailed Results")] + Labels(DetailLabels) + Concat(DetailTable(input.tastings.value));
    assert Texts(Flat(kpis.pages)) == k by {
      KpisTexts(first, input.report);
    }
    assert Texts(Flat(summary.pages)) == k + sm by {
      SummaryTexts(kpis, hdr, rows);
    }
    assert Texts(Flat(feedback.pages)) == k + sm + f by {
      FeedbackTexts(summary, hdr, input.comments);
    }
    assert Texts(Flat(photos.pages)) == k + sm + f + g by {
      PhotosTexts(feedback, hdr, input.photos);
    }
    assert Texts(Flat(detail.pages)) == k + sm + f + g + dt by {
      DetailTexts(photos, hdr, input.tastings);
    }
    assert ReadingOrder(input) == k + sm + f + g + dt;
    assert Generate(input) == detail;
  }

  /** Every page of the document starts with the header band. */
  lemma GenerateFramed(input: ReportInput)
    ensures |Generate(input).pages| >= 1
    ensures Framed(Generate(input).pages, Furniture(input.report))
  {
    var hdr := Furniture(input.report);
    var first := FirstPage(input);
    assert Framed(first.pages, hdr);
    var kpis := Kpis(first, input.report);
    KpisPages(first, input.report, hdr);
    var summary := Summary(kpis, hdr, input.executiveSummary.GetOr([]));
    SummaryPages(kpis, hdr, input.executiveSummary.GetOr([]));
    var feedback := Feedback(summary, hdr, input.comments);
    FeedbackPages(summary, hdr, input.comments);
    var photos := Photos(feedback, hdr, input.photos);
    PhotosPages(feedback, hdr, input.photos);
    var detail := Detail(photos, hdr, input.tastings);
    DetailPages(photos, hdr, input.tastings);
    assert Generate(input) == detail;
  }

  /** An empty summary below the cards of the first page: its title and column labels. */
  lemma EmptySummaryOnFirstPage(page: seq<DrawOp>, hdr: DrawOp)
    ensures Summary(Doc([page], 315), hdr, []) == Doc(
      [page + [Text(Literal("Executive Summary"), 40, 315)] +
       ColumnHeaderOps(SummaryLabels, SummaryWidths, 300, 16, |SummaryLabels|)], 264)
  {
    var d := Doc([page], 315);
    var title := [Text(Literal("Executive Summary"), 40, 315)];
    var labels := ColumnHeaderOps(SummaryLabels, SummaryWidths, 300, 16, |SummaryLabels|);
    assert EnsureSpace(d, hdr, 100) == d;
    assert Append([page], title) == [page + title];
    assert Append([page + title], labels) == [page + title + labels];
    assert SummaryHead(d) == Doc([page + title + labels], 284);
    assert SummaryTable([]) == [];
  }

  /**
   * A report with no records is one page: the header band, the six cards,
   * the summary title at 315 and its column labels below it.
   */
  lemma BareReport(input: ReportInput)
    requires Empty(input.executiveSummary) && Empty(input.comments)
    requires Empty(input.photos) && Empty(input.tastings)
    ensures var hdr, cards := Furniture(input.report), KpiCards(input.report);
      Generate(input) == Doc(
        [[hdr] + KpiOps(cards, FirstBodyTop, |cards|) +
         [Text(Literal("Executive Summary"), 40, 315)] +
         ColumnHeaderOps(SummaryLabels, SummaryWidths, 300, 16, |SummaryLabels|)],
        264)
  {
    var hdr := Furniture(input.report);
    var cards := KpiCards(input.report);
    var kops := KpiOps(cards, FirstBodyTop, |cards|);
    var kpis := Kpis(FirstPage(input), input.report);
    assert kpis == Doc([[hdr] + kops], 315);
    assert input.executiveSummary.GetOr([]) == [];
    EmptySummaryOnFirstPage([hdr] + kops, hdr);
  }

  /**
   * With only summary records, the first page holds 16 of them and each
   * further page 35, so `n` records need `1 + ceil((n - 16) / 35)` pages.
   */
  lemma SummaryOnlyPageCount(input: ReportInput)
    requires Empty(input.comments) && Empty(input.photos) && Empty(input.tastings)
    ensures var n := |input.executiveSummary.GetOr([])|;
      |Generate(input).pages| == 1 + (if n <= 16 then 0 else (n - 17) / 35 + 1)
  {
    var hdr := Furniture(input.report);
    var rows := input.executiveSummary.GetOr([]);
    var kpis := Kpis(FirstPage(input), input.report);
    var e := EnsureSpace(kpis, hdr, 100);
    assert e == kpis;
    var h := SummaryHead(e);
    assert |h.pages| == 1 && h.y == 284;
    TableRowsFlow(h, hdr, SummaryWidths, 14, 12, SummaryTable(rows));
    FitsRows(284, 14);
    ChunksPerFreshPage();
    ClosedForm(284, |rows|, 14, 14);
  }
}
