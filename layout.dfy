/**
 * The drawing state of `generateReportPdf` and the code that changes it:
 * the current page list and cursor `y`, updated in place by `newPage`,
 * `ensureSpace`, `drawHeader` and the loops of each section. Every method is
 * proved to leave the state its specification function in `Pagination`,
 * `Sections` or `ReportPdf` describes.
 */
module Renderer {
  import opened Wrappers
  import opened Canvas
  import opened Report
  import opened Pagination
  import opened Sections
  import opened ReportPdf

  class Layout {
    /** The pages drawn so far; the last one is the current `page`. */
    var pages: seq<seq<DrawOp>>
    /** The cursor: the height at which the next element starts. */
    var y: int
    /** The header band `drawHeader` puts on every page. */
    const header: DrawOp

    function State(): Doc
      reads this
    {
      Doc(pages, y)
    }

    /** The first `pdf.addPage`, with `y = H-40`; the header is not drawn yet. */
    constructor(header: DrawOp)
      ensures this.header == header && State() == Doc([[]], ContinuationTop)
    {
      this.header := header;
      pages := [[]];
      y := ContinuationTop;
    }

    /** Draw commands on the current page. */
    method Draw(ops: seq<DrawOp>)
      requires |pages| > 0
      modifies this
      ensures pages == Append(old(pages), ops) && y == old(y)
    {
      pages := pages[..|pages| - 1] + [pages[|pages| - 1] + ops];
    }

    method DrawHeader()
      requires |pages| > 0
      modifies this
      ensures pages == Append(old(pages), [header]) && y == old(y)
    {
      Draw([header]);
    }

    /** `newPage`: add a page, cursor to `H-40`, draw the header on the new page. */
    method NewPage()
      modifies this
      ensures State() == Pagination.NewPage(old(State()), header)
    {
      pages := pages + [[]];
      y := ContinuationTop;
      ghost var before := pages;
      DrawHeader();
      assert before[..|before| - 1] == old(pages);
      assert before[|before| - 1] + [header] == [header];
    }

    /** `ensureSpace(needed)`: a new page when `y - needed` would fall below the margin. */
    method EnsureSpace(needed: int)
      requires |pages| > 0
      modifies this
      ensures State() == Pagination.EnsureSpace(old(State()), header, needed)
    {
      if y - needed < BottomMargin {
        NewPage();
      }
    }

    /** The cells of one record, the `x` accumulator starting at 40. */
    method DrawCells(cells: seq<Content>, widths: seq<int>, ty: int)
      requires |pages| > 0 && |cells| == |widths|
      modifies this
      ensures pages == Append(old(pages), CellOps(cells, widths, ty, |cells|)) && y == old(y)
    {
      var x := 40;
      var i := 0;
      assert widths[..0] == [];
      AppendNothing(pages);
      while i < |cells|
        invariant 0 <= i <= |cells| && |pages| > 0 && y == old(y)
        invariant x == ColumnX(widths, i)
        invariant pages == Append(old(pages), CellOps(cells, widths, ty, i))
      {
        AppendAppend(old(pages), CellOps(cells, widths, ty, i), [Text(cells[i], x + 2, ty)]);
        Draw([Text(cells[i], x + 2, ty)]);
        ColumnXNext(widths, i);
        x := x + widths[i];
        i := i + 1;
      }
    }

    /** The column-header row of a table, `h` high, below the cursor. */
    method DrawColumnHeaders(labels: seq<string>, widths: seq<int>, h: int)
      requires |pages| > 0 && |labels| == |widths|
      modifies this
      ensures pages == Append(old(pages), ColumnHeaderOps(labels, widths, y, h, |labels|))
      ensures y == old(y)
    {
      var x := 40;
      var i := 0;
      assert widths[..0] == [];
      AppendNothing(pages);
      while i < |labels|
        invariant 0 <= i <= |labels| && |pages| > 0 && y == old(y)
        invariant x == ColumnX(widths, i)
        invariant pages == Append(old(pages), ColumnHeaderOps(labels, widths, y, h, i))
      {
        var cell := [Rect(x, y - h, widths[i], h), Text(Literal(labels[i]), x + 2, y - 4)];
        AppendAppend(old(pages), ColumnHeaderOps(labels, widths, y, h, i), cell);
        Draw(cell);
        ColumnXNext(widths, i);
        x := x + widths[i];
        i := i + 1;
      }
    }

    /** One record: `ensureSpace(rowH)`, its cells `textDy` below the cursor, `y -= rowH`. */
    method DrawRow(widths: seq<int>, rowH: int, textDy: int, cells: seq<Content>)
      requires |pages| > 0 && |cells| == |widths|
      modifies this
      ensures State() == RowStep(old(State()), header, widths, rowH, textDy, cells)
    {
      EnsureSpace(rowH);
      DrawCells(cells, widths, y - textDy);
      y := y - rowH;
    }

    /** The record loop of a table: per record `ensureSpace(rowH)`, its cells, `y -= rowH`. */
    method DrawRows(widths: seq<int>, rowH: int, textDy: int, rows: seq<seq<Content>>)
      requires |pages| > 0 && RowsFit(rows, widths)
      modifies this
      ensures State() == TableRows(old(State()), header, widths, rowH, textDy, rows)
    {
      ghost var start := State();
      var i := 0;
      while i < |rows|
        invariant 0 <= i <= |rows| && |pages| > 0
        invariant State() == TableRows(start, header, widths, rowH, textDy, rows[..i])
      {
        DrawRow(widths, rowH, textDy, rows[i]);
        assert rows[..i + 1][..i] == rows[..i];
        i := i + 1;
      }
      assert rows[..i] == rows;
    }

    /** `drawKpi(title, val, col, row)`: a card and its two lines. */
    method DrawKpi(title: string, value: string, col: int, row: int)
      requires |pages| > 0
      modifies this
      ensures pages == Append(old(pages), CardOps(title, value, col, row, y)) && y == old(y)
    {
      var x := 40 + col * (CardWidth + 10);
      var y0 := y - row * 65;
      var card := [Rect(x, y0 - 55, CardWidth, 55)];
      var name := [Text(Literal(title), x + 8, y0 - 20)];
      var figure := [Text(Literal(value), x + 8, y0 - 38)];
      Draw(card);
      Draw(name);
      AppendAppend(old(pages), card, name);
      Draw(figure);
      AppendAppend(old(pages), card + name, figure);
      assert card + name + figure == CardOps(title, value, col, row, y);
    }

    /** The six KPI cards, then `y -= 65*2+20`. */
    method DrawKpis(meta: ReportMeta)
      requires |pages| > 0
      modifies this
      ensures State() == Kpis(old(State()), meta)
    {
      var cards := KpiCards(meta);
      var n := 0;
      AppendNothing(pages);
      while n < 6
        invariant 0 <= n <= 6 && |pages| > 0 && y == old(y)
        invariant pages == Append(old(pages), KpiOps(cards, y, n))
      {
        AppendAppend(old(pages), KpiOps(cards, y, n), CardOps(cards[n].0, cards[n].1, n % 3, n / 3, y));
        DrawKpi(cards[n].0, cards[n].1, n % 3, n / 3);
        n := n + 1;
      }
      y := y - (65 * 2 + 20);
    }

    /** Title and column-header row of one of the two tables. */
    method DrawTableHead(title: string, titleDy: int, labels: seq<string>, widths: seq<int>, h: int)
      requires |pages| > 0 && |labels| == |widths|
      modifies this
      ensures pages == Append(Append(old(pages), [Text(Literal(title), 40, old(y))]),
                              ColumnHeaderOps(labels, widths, old(y) - titleDy, h, |labels|))
      ensures y == old(y) - titleDy - h
    {
      Draw([Text(Literal(title), 40, y)]);
      y := y - titleDy;
      DrawColumnHeaders(labels, widths, h);
      y := y - h;
    }

    /** The executive summary, then `y -= 20`. */
    method DrawSummary(rows: seq<SummaryRow>)
      requires |pages| > 0
      modifies this
      ensures State() == Summary(old(State()), header, rows)
    {
      EnsureSpace(100);
      ghost var e := State();
      DrawTableHead("Executive Summary", 15, SummaryLabels, SummaryWidths, 16);
      assert State() == SummaryHead(e);
      DrawRows(SummaryWidths, 14, 12, SummaryTable(rows));
      y := y - 20;
    }

    /** One comment: skipped without text, else a bordered box with its text, `y -= 45`. */
    method DrawCallout(c: Comment)
      requires |pages| > 0
      modifies this
      ensures State() == Callout(old(State()), header, c)
    {
      if c.comment.Some? && c.comment.value != [] {
        EnsureSpace(50);
        Draw([Rect(40, y - 40, PageWidth - 80, 40), Text(Stripped(c.comment.value), 46, y - 20)]);
        y := y - 45;
      }
    }

    method DrawCallouts(cs: seq<Comment>)
      requires |pages| > 0
      modifies this
      ensures State() == Callouts(old(State()), header, cs)
    {
      ghost var start := State();
      var i := 0;
      while i < |cs|
        invariant 0 <= i <= |cs| && |pages| > 0
        invariant State() == Callouts(start, header, cs[..i])
      {
        DrawCallout(cs[i]);
        assert cs[..i + 1][..i] == cs[..i];
        i := i + 1;
      }
      assert cs[..i] == cs;
    }

    /** The consumer feedback, when there are comments. */
    method DrawFeedback(comments: Option<seq<Comment>>)
      requires |pages| > 0
      modifies this
      ensures State() == Feedback(old(State()), header, comments)
    {
      if comments.Some? && comments.value != [] {
        EnsureSpace(60);
        Draw([Text(Literal("Consumer Feedback"), 40, y)]);
        y := y - 14;
        DrawCallouts(comments.value);
      }
    }

    /** One photo of the gallery at column `col` of the row whose top is `rowTop`. */
    method DrawPhoto(i: nat, p: Photo, col: int, rowTop: int) returns (col': int, rowTop': int)
      requires |pages| > 0
      modifies this
      ensures Grid(State(), col', rowTop') == PhotoStep(Grid(old(State()), col, rowTop), header, i, p)
    {
      if p.loaded {
        Draw([Image(i, 40 + col * 100, rowTop - 90, 90, 90)]);
      }
      col', rowTop' := col + 1, rowTop;
      if col' == 4 {
        col', rowTop' := 0, rowTop' - 100;
        EnsureSpace(100);
      }
      if rowTop' < 100 {
        EnsureSpace(100);
        rowTop' := y;
      }
    }

    /** The photo gallery, when there are photos; `loaded[i]` tells whether photo `i` was fetched. */
    method DrawPhotos(photos: Option<seq<Photo>>)
      requires |pages| > 0
      modifies this
      ensures State() == Photos(old(State()), header, photos)
    {
      if photos.Some? && photos.value != [] {
        var ps := photos.value;
        EnsureSpace(120);
        Draw([Text(Literal("Photo Gallery"), 40, y)]);
        y := y - 14;
        var col, rowTop := 0, y;
        ghost var start := Grid(State(), col, rowTop);
        var i := 0;
        while i < |ps|
          invariant 0 <= i <= |ps| && |pages| > 0
          invariant Grid(State(), col, rowTop) == PhotoGrid(start, header, ps[..i])
        {
          col, rowTop := DrawPhoto(i, ps[i], col, rowTop);
          assert ps[..i + 1][..i] == ps[..i];
          i := i + 1;
        }
        assert ps[..i] == ps;
        y := rowTop - 100;
      }
    }

    /** The detailed results, when there are tastings. */
    method DrawDetail(tastings: Option<seq<DetailRow>>)
      requires |pages| > 0
      modifies this
      ensures State() == Detail(old(State()), header, tastings)
    {
      if tastings.Some? && tastings.value != [] {
        EnsureSpace(100);
        ghost var e := State();
        DrawTableHead("Detailed Results", 14, DetailLabels, DetailWidths, 14);
        assert State() == DetailHead(e);
        DrawRows(DetailWidths, 12, 10, DetailTable(tastings.value));
      }
    }
  }

  /** The pages `generateReportPdf` lays out for a request body. */
  method GenerateReportPdf(input: ReportInput) returns (pages: seq<seq<DrawOp>>)
    ensures pages == Generate(input).pages
  {
    var layout := new Layout(Furniture(input.report));
    layout.DrawHeader();
    layout.y := FirstBodyTop;
    assert [] + [layout.header] == [layout.header];
    assert layout.State() == FirstPage(input);
    layout.DrawKpis(input.report);
    layout.DrawSummary(input.executiveSummary.GetOr([]));
    layout.DrawFeedback(input.comments);
    layout.DrawPhotos(input.photos);
    layout.DrawDetail(input.tastings);
    pages := layout.pages;
  }
}
