/**
 * The single-pass layout of `generateReportPdf`, as functions of the layout
 * state: the pages drawn so far (each a list of draw commands; the last one
 * is the current `page`) and the vertical cursor `y`. The `Layout` class
 * runs the same steps imperatively and is proved equal to these functions.
 */
module Pagination {
  import opened Wrappers
  import opened Formatting
  import opened Markup
  import opened Canvas
  import opened Report
  import opened PageBudget

  datatype Doc = Doc(pages: seq<seq<DrawOp>>, y: int)

  /** `ops` drawn on the current page. */
  function Append(pages: seq<seq<DrawOp>>, ops: seq<DrawOp>): seq<seq<DrawOp>>
    requires |pages| > 0
  {
    pages[..|pages| - 1] + [pages[|pages| - 1] + ops]
  }

  /** `newPage`: a fresh page with the header band on it, cursor at `H-40`. */
  function NewPage(d: Doc, hdr: DrawOp): (r: Doc)
    ensures |r.pages| == |d.pages| + 1 && r.pages[|d.pages|] == [hdr]
    ensures forall i :: 0 <= i < |d.pages| ==> r.pages[i] == d.pages[i]
    ensures r.y == ContinuationTop
  {
    Doc(d.pages + [[hdr]], ContinuationTop)
  }

  /**
   * `ensureSpace(needed)`: nothing when `y - needed` is at or above the bottom
   * margin; otherwise one new page, header first, cursor at 555. Either way a
   * chunk of up to 495 units then fits above the margin.
   */
  function EnsureSpace(d: Doc, hdr: DrawOp, needed: int): (e: Doc)
    ensures d.y - needed >= BottomMargin ==> e == d
    ensures d.y - needed < BottomMargin ==>
      e.pages == d.pages + [[hdr]] && e.y == ContinuationTop
    ensures needed <= ContinuationTop - BottomMargin ==> e.y - needed >= BottomMargin
  {
    if d.y - needed < BottomMargin then NewPage(d, hdr) else d
  }

  /** Every page starts with the header band. */
  predicate Framed(pages: seq<seq<DrawOp>>, hdr: DrawOp) {
    forall k :: 0 <= k < |pages| ==> |pages[k]| > 0 && pages[k][0] == hdr
  }

  /**
   * `after` only added to what `before` drew: earlier pages untouched, the
   * current page extended, new pages after it.
   */
  predicate Extends(before: seq<seq<DrawOp>>, after: seq<seq<DrawOp>>) {
    |before| > 0 && |after| >= |before| &&
    (forall k :: 0 <= k < |before| - 1 ==> after[k] == before[k]) &&
    before[|before| - 1] <= after[|before| - 1]
  }

  lemma ExtendsTrans(a: seq<seq<DrawOp>>, b: seq<seq<DrawOp>>, c: seq<seq<DrawOp>>)
    requires Extends(a, b) && Extends(b, c)
    ensures Extends(a, c)
  {
    if |b| > |a| {
      assert c[|a| - 1] == b[|a| - 1];
    }
  }

  lemma AppendExtends(pages: seq<seq<DrawOp>>, ops: seq<DrawOp>, hdr: DrawOp)
    requires |pages| > 0
    ensures Extends(pages, Append(pages, ops))
    ensures Framed(pages, hdr) ==> Framed(Append(pages, ops), hdr)
  {
    var r := Append(pages, ops);
    if Framed(pages, hdr) {
      forall k | 0 <= k < |r| ensures |r[k]| > 0 && r[k][0] == hdr {
        if k < |pages| - 1 { assert r[k] == pages[k]; }
      }
    }
  }

  lemma EnsureSpaceExtends(d: Doc, hdr: DrawOp, needed: int)
    requires |d.pages| > 0
    ensures Extends(d.pages, EnsureSpace(d, hdr, needed).pages)
    ensures Framed(d.pages, hdr) ==> Framed(EnsureSpace(d, hdr, needed).pages, hdr)
  {
    var e := EnsureSpace(d, hdr, needed);
    if d.y - needed < BottomMargin {
      assert e.pages[|d.pages| - 1] == d.pages[|d.pages| - 1];
    }
  }

  lemma AppendNothing(pages: seq<seq<DrawOp>>)
    requires |pages| > 0
    ensures Append(pages, []) == pages
  {
    assert pages[|pages| - 1] + [] == pages[|pages| - 1];
  }

  lemma AppendAppend(pages: seq<seq<DrawOp>>, a: seq<DrawOp>, b: seq<DrawOp>)
    requires |pages| > 0
    ensures Append(Append(pages, a), b) == Append(pages, a + b)
  {
    var p := Append(pages, a);
    var last := pages[|pages| - 1];
    assert p[..|p| - 1] == pages[..|pages| - 1];
    assert p[|p| - 1] == last + a;
    assert (last + a) + b == last + (a + b);
  }

  /** All commands of all pages, in drawing order. */
  function Flat(pages: seq<seq<DrawOp>>): seq<DrawOp> {
    if pages == [] then [] else Flat(pages[..|pages| - 1]) + pages[|pages| - 1]
  }

  /** What the text commands print, in drawing order. */
  function Texts(ops: seq<DrawOp>): seq<Content> {
    if ops == [] then []
    else (if ops[0].Text? then [ops[0].content] else []) + Texts(ops[1..])
  }

  function Concat(rows: seq<seq<Content>>): seq<Content> {
    if rows == [] then [] else Concat(rows[..|rows| - 1]) + rows[|rows| - 1]
  }

  lemma {:induction false} TextsConcat(a: seq<DrawOp>, b: seq<DrawOp>)
    ensures Texts(a + b) == Texts(a) + Texts(b)
  {
    if a == [] {
      assert a + b == b;
    } else {
      assert (a + b)[0] == a[0];
      assert (a + b)[1..] == a[1..] + b;
      TextsConcat(a[1..], b);
    }
  }

  lemma SeqAssoc3<T>(a: seq<T>, b: seq<T>, c: seq<T>)
    ensures a + b + c == a + (b + c)
  {
  }

  lemma SeqAssoc<T>(a: seq<T>, b: seq<T>, c: seq<T>, d: seq<T>)
    ensures a + b + c + d == a + (b + c + d)
  {
  }

  lemma TextsSingle(op: DrawOp)
    ensures Texts([op]) == if op.Text? then [op.content] else []
  {
    assert [op][1..] == [];
  }

  lemma FlatNewPage(pages: seq<seq<DrawOp>>, page: seq<DrawOp>)
    ensures Flat(pages + [page]) == Flat(pages) + page
  {
    assert (pages + [page])[..|pages|] == pages;
  }

  lemma FlatLast(pages: seq<seq<DrawOp>>)
    requires |pages| > 0
    ensures Flat(pages) == Flat(pages[..|pages| - 1]) + pages[|pages| - 1]
  {
  }

  lemma FlatAppend(pages: seq<seq<DrawOp>>, ops: seq<DrawOp>)
    requires |pages| > 0
    ensures Flat(Append(pages, ops)) == Flat(pages) + ops
  {
    var init, last := pages[..|pages| - 1], pages[|pages| - 1];
    FlatNewPage(init, last + ops);
    FlatLast(pages);
    SeqAssoc3(Flat(init), last, ops);
  }

  /** What a step adds to the document's text is the text of the commands it adds. */
  lemma AppendTexts(pages: seq<seq<DrawOp>>, ops: seq<DrawOp>)
    requires |pages| > 0
    ensures Texts(Flat(Append(pages, ops))) == Texts(Flat(pages)) + Texts(ops)
  {
    FlatAppend(pages, ops);
    TextsConcat(Flat(pages), ops);
  }

  /** A page break adds no text: the header band is not a text command. */
  lemma EnsureSpaceTexts(d: Doc, hdr: DrawOp, needed: int)
    requires !hdr.Text?
    ensures Texts(Flat(EnsureSpace(d, hdr, needed).pages)) == Texts(Flat(d.pages))
  {
    if d.y - needed < BottomMargin {
      FlatNewPage(d.pages, [hdr]);
      TextsConcat(Flat(d.pages), [hdr]);
    }
  }

  // ---------------------------------------------------------------------
  // Tables: one header row, then one row per record.

  function Sum(w: seq<int>): int {
    if w == [] then 0 else Sum(w[..|w| - 1]) + w[|w| - 1]
  }

  /** The left edge of column `i`: the `x` accumulator, starting at 40. */
  function ColumnX(widths: seq<int>, i: nat): int
    requires i <= |widths|
  {
    40 + Sum(widths[..i])
  }

  lemma ColumnXNext(widths: seq<int>, i: nat)
    requires i < |widths|
    ensures ColumnX(widths, i + 1) == ColumnX(widths, i) + widths[i]
  {
    assert widths[..i + 1][..i] == widths[..i];
  }

  /** The text commands of the first `n` cells of a row, baseline `ty`. */
  function CellOps(cells: seq<Content>, widths: seq<int>, ty: int, n: nat): seq<DrawOp>
    requires n <= |cells| == |widths|
  {
    if n == 0 then []
    else CellOps(cells, widths, ty, n - 1) + [Text(cells[n - 1], ColumnX(widths, n - 1) + 2, ty)]
  }

  /** A row prints its cells, in column order, and draws nothing else. */
  lemma {:induction false} CellOpsTexts(cells: seq<Content>, widths: seq<int>, ty: int, n: nat)
    requires n <= |cells| == |widths|
    ensures Texts(CellOps(cells, widths, ty, n)) == cells[..n]
    ensures forall j :: 0 <= j < |CellOps(cells, widths, ty, n)| ==>
      CellOps(cells, widths, ty, n)[j].Text? && CellOps(cells, widths, ty, n)[j].y == ty
    ensures |CellOps(cells, widths, ty, n)| == n
  {
    if n > 0 {
      CellOpsTexts(cells, widths, ty, n - 1);
      TextsConcat(CellOps(cells, widths, ty, n - 1), [Text(cells[n - 1], ColumnX(widths, n - 1) + 2, ty)]);
      assert cells[..n] == cells[..n - 1] + [cells[n - 1]];
    }
  }

  /** The column-header row: a shaded rectangle and a label per column. */
  function ColumnHeaderOps(labels: seq<string>, widths: seq<int>, top: int, h: int, n: nat)
    : seq<DrawOp>
    requires n <= |labels| == |widths|
  {
    if n == 0 then []
    else ColumnHeaderOps(labels, widths, top, h, n - 1) +
         [Rect(ColumnX(widths, n - 1), top - h, widths[n - 1], h),
          Text(Literal(labels[n - 1]), ColumnX(widths, n - 1) + 2, top - 4)]
  }

  function Labels(labels: seq<string>): seq<Content> {
    seq(|labels|, i requires 0 <= i < |labels| => Literal(labels[i]))
  }

  /** The header row prints the column labels in order. */
  lemma {:induction false} ColumnHeaderTexts(labels: seq<string>, widths: seq<int>, top: int, h: int, n: nat)
    requires n <= |labels| == |widths|
    ensures Texts(ColumnHeaderOps(labels, widths, top, h, n)) == Labels(labels[..n])
  {
    if n > 0 {
      var x := ColumnX(widths, n - 1);
      var pair := [Rect(x, top - h, widths[n - 1], h), Text(Literal(labels[n - 1]), x + 2, top - 4)];
      assert ColumnHeaderOps(labels, widths, top, h, n) == ColumnHeaderOps(labels, widths, top, h, n - 1) + pair;
      ColumnHeaderTexts(labels, widths, top, h, n - 1);
      TextsConcat(ColumnHeaderOps(labels, widths, top, h, n - 1), pair);
      HeaderCellTexts(pair[0], pair[1]);
      LabelsSnoc(labels, n);
    }
  }

  /** A header cell prints its label only. */
  lemma HeaderCellTexts(r: DrawOp, t: DrawOp)
    requires r.Rect? && t.Text?
    ensures Texts([r, t]) == [t.content]
  {
    assert [r, t][1..] == [t];
    assert Texts([r, t]) == Texts([t]);
    TextsSingle(t);
  }

  lemma LabelsSnoc(labels: seq<string>, n: nat)
    requires 0 < n <= |labels|
    ensures Labels(labels[..n]) == Labels(labels[..n - 1]) + [Literal(labels[n - 1])]
  {
    var a, b := Labels(labels[..n]), Labels(labels[..n - 1]) + [Literal(labels[n - 1])];
    assert |a| == |b|;
    forall i | 0 <= i < |a| ensures a[i] == b[i] {
      if i < n - 1 { assert b[i] == Labels(labels[..n - 1])[i]; }
    }
  }

  predicate RowsFit(rows: seq<seq<Content>>, widths: seq<int>) {
    forall i :: 0 <= i < |rows| ==> |rows[i]| == |widths|
  }

  /** One record: `ensureSpace(rowH)`, its cells at `y - textDy`, then `y -= rowH`. */
  function RowStep(d: Doc, hdr: DrawOp, widths: seq<int>, rowH: int, textDy: int, cells: seq<Content>)
    : (r: Doc)
    requires |d.pages| > 0 && |cells| == |widths|
    ensures |r.pages| >= |d.pages|
  {
    var e := EnsureSpace(d, hdr, rowH);
    Doc(Append(e.pages, CellOps(cells, widths, e.y - textDy, |cells|)), e.y - rowH)
  }

  /** The record loop of a table, over the rows' cells. */
  function TableRows(d: Doc, hdr: DrawOp, widths: seq<int>, rowH: int, textDy: int,
                     rows: seq<seq<Content>>): (r: Doc)
    requires |d.pages| > 0 && RowsFit(rows, widths)
    ensures |r.pages| >= |d.pages|
    decreases |rows|
  {
    if rows == [] then d
    else RowStep(TableRows(d, hdr, widths, rowH, textDy, rows[..|rows| - 1]),
                 hdr, widths, rowH, textDy, rows[|rows| - 1])
  }

  /**
   * A record is never split: its cells are the last commands of the current
   * page after the space check, one per column, all on one baseline, and no
   * other page changes.
   */
  lemma RowOnOnePage(d: Doc, hdr: DrawOp, widths: seq<int>, rowH: int, textDy: int,
                     cells: seq<Content>)
    requires |d.pages| > 0 && |cells| == |widths|
    ensures var e := EnsureSpace(d, hdr, rowH);
      var r := RowStep(d, hdr, widths, rowH, textDy, cells);
      var page := r.pages[|r.pages| - 1];
      |r.pages| == |e.pages| && (forall k :: 0 <= k < |r.pages| - 1 ==> r.pages[k] == e.pages[k]) &&
      |page| >= |cells| && Texts(page[|page| - |cells|..]) == cells &&
      forall j :: |page| - |cells| <= j < |page| ==> page[j].Text? && page[j].y == e.y - textDy
  {
    var e := EnsureSpace(d, hdr, rowH);
    var ops := CellOps(cells, widths, e.y - textDy, |cells|);
    var r := Append(e.pages, ops);
    assert RowStep(d, hdr, widths, rowH, textDy, cells).pages == r;
    AppendLast(e.pages, ops);
    CellOpsTexts(cells, widths, e.y - textDy, |cells|);
    assert cells[..|cells|] == cells;
    SuffixOps(e.pages[|e.pages| - 1], ops, e.y - textDy);
  }

  /** `Append` changes only the current page, by adding `ops` at its end. */
  lemma AppendLast(pages: seq<seq<DrawOp>>, ops: seq<DrawOp>)
    requires |pages| > 0
    ensures var r := Append(pages, ops);
      |r| == |pages| && r[|r| - 1] == pages[|pages| - 1] + ops &&
      forall k :: 0 <= k < |r| - 1 ==> r[k] == pages[k]
  {
  }

  /** The commands added last to a page are its suffix. */
  lemma SuffixOps(page: seq<DrawOp>, ops: seq<DrawOp>, ty: int)
    requires forall j :: 0 <= j < |ops| ==> ops[j].Text? && ops[j].y == ty
    ensures var p := page + ops;
      p[|p| - |ops|..] == ops &&
      forall j :: |p| - |ops| <= j < |p| ==> p[j].Text? && p[j].y == ty
  {
    var p := page + ops;
    assert p[|p| - |ops|..] == ops;
    forall j | |p| - |ops| <= j < |p| ensures p[j].Text? && p[j].y == ty {
      assert p[j] == ops[j - |page|];
    }
  }

  /**
   * Page breaks in a table follow the flow of equal rows: the page count grows
   * by the flow's breaks and the cursor ends where the flow ends.
   */
  lemma {:induction false} TableRowsFlow(d: Doc, hdr: DrawOp, widths: seq<int>, rowH: int,
                                         textDy: int, rows: seq<seq<Content>>)
    requires |d.pages| > 0 && RowsFit(rows, widths)
    ensures var r := TableRows(d, hdr, widths, rowH, textDy, rows);
      var f := Flow(d.y, |rows|, rowH, rowH);
      |r.pages| == |d.pages| + f.breaks && r.y == f.y
  {
    if rows != [] {
      TableRowsFlow(d, hdr, widths, rowH, textDy, rows[..|rows| - 1]);
    }
  }

  /** One record adds exactly its cells to the document's text. */
  lemma RowStepTexts(d: Doc, hdr: DrawOp, widths: seq<int>, rowH: int, textDy: int,
                     cells: seq<Content>)
    requires |d.pages| > 0 && |cells| == |widths| && !hdr.Text?
    ensures Texts(Flat(RowStep(d, hdr, widths, rowH, textDy, cells).pages))
            == Texts(Flat(d.pages)) + cells
  {
    var e := EnsureSpace(d, hdr, rowH);
    var ops := CellOps(cells, widths, e.y - textDy, |cells|);
    EnsureSpaceTexts(d, hdr, rowH);
    AppendTexts(e.pages, ops);
    CellOpsTexts(cells, widths, e.y - textDy, |cells|);
    assert cells[..|cells|] == cells;
  }

  /**
   * Every record is printed exactly once and in input order: the table adds
   * to the document's text exactly the cells of its rows, one row after the
   * other.
   */
  lemma {:induction false} TableRowsTexts(d: Doc, hdr: DrawOp, widths: seq<int>, rowH: int,
                                          textDy: int, rows: seq<seq<Content>>)
    requires |d.pages| > 0 && RowsFit(rows, widths) && !hdr.Text?
    ensures Texts(Flat(TableRows(d, hdr, widths, rowH, textDy, rows).pages))
            == Texts(Flat(d.pages)) + Concat(rows)
  {
    if rows != [] {
      var init := rows[..|rows| - 1];
      var prev := TableRows(d, hdr, widths, rowH, textDy, init);
      var last := rows[|rows| - 1];
      TableRowsTexts(d, hdr, widths, rowH, textDy, init);
      RowStepTexts(prev, hdr, widths, rowH, textDy, last);
      var r := RowStep(prev, hdr, widths, rowH, textDy, last);
      assert TableRows(d, hdr, widths, rowH, textDy, rows) == r;
      SeqAssoc3(Texts(Flat(d.pages)), Concat(init), last);
    }
  }

  /** A page the table started: the header band, then row cells only. */
  predicate IsContinuation(page: seq<DrawOp>, hdr: DrawOp) {
    |page| > 0 && page[0] == hdr && forall j :: 1 <= j < |page| ==> page[j].Text?
  }

  /** Row cells added to a continuation page leave it one. */
  lemma ContinuationAppend(page: seq<DrawOp>, ops: seq<DrawOp>, hdr: DrawOp)
    requires IsContinuation(page, hdr) && forall j :: 0 <= j < |ops| ==> ops[j].Text?
    ensures IsContinuation(page + ops, hdr)
  {
    forall j | 1 <= j < |page + ops| ensures (page + ops)[j].Text? {
      if j >= |page| { assert (page + ops)[j] == ops[j - |page|]; }
    }
  }

  /** Every page from `base` on holds the header band and row cells only. */
  predicate ContinuationsFrom(pages: seq<seq<DrawOp>>, hdr: DrawOp, base: nat) {
    forall k :: base <= k < |pages| ==> IsContinuation(pages[k], hdr)
  }

  /** A page break adds a continuation page. */
  lemma EnsureSpaceContinuations(d: Doc, hdr: DrawOp, needed: int, base: nat)
    requires ContinuationsFrom(d.pages, hdr, base)
    ensures ContinuationsFrom(EnsureSpace(d, hdr, needed).pages, hdr, base)
  {
    var e := EnsureSpace(d, hdr, needed);
    if d.y - needed < BottomMargin {
      forall k | base <= k < |e.pages| ensures IsContinuation(e.pages[k], hdr) {
        if k < |d.pages| { assert e.pages[k] == d.pages[k]; }
        else { assert e.pages[k] == [hdr]; }
      }
    }
  }

  /** Text added to the current page keeps the pages from `base` continuation pages. */
  lemma AppendContinuations(pages: seq<seq<DrawOp>>, ops: seq<DrawOp>, hdr: DrawOp, base: nat)
    requires 0 < base <= |pages| && ContinuationsFrom(pages, hdr, base)
    requires forall j :: 0 <= j < |ops| ==> ops[j].Text?
    ensures ContinuationsFrom(Append(pages, ops), hdr, base)
  {
    var r := Append(pages, ops);
    var last := |pages| - 1;
    if last >= base {
      ContinuationAppend(pages[last], ops, hdr);
    }
    forall k | base <= k < |r| ensures IsContinuation(r[k], hdr) {
      if k < last { assert r[k] == pages[k]; }
      else { assert r[k] == pages[last] + ops; }
    }
  }

  /** One row keeps every page from `base` on a continuation page. */
  lemma RowStepPages(d: Doc, hdr: DrawOp, widths: seq<int>, rowH: int, textDy: int,
                     cells: seq<Content>, base: nat)
    requires |d.pages| > 0 && |cells| == |widths| && 0 < base <= |d.pages|
    requires forall k :: base <= k < |d.pages| ==> IsContinuation(d.pages[k], hdr)
    ensures var r := RowStep(d, hdr, widths, rowH, textDy, cells);
      Extends(d.pages, r.pages) &&
      (forall k :: base <= k < |r.pages| ==> IsContinuation(r.pages[k], hdr)) &&
      (Framed(d.pages, hdr) ==> Framed(r.pages, hdr))
  {
    var e := EnsureSpace(d, hdr, rowH);
    var ops := CellOps(cells, widths, e.y - textDy, |cells|);
    var r := Append(e.pages, ops);
    assert RowStep(d, hdr, widths, rowH, textDy, cells).pages == r;
    CellOpsTexts(cells, widths, e.y - textDy, |cells|);
    EnsureSpaceExtends(d, hdr, rowH);
    AppendExtends(e.pages, ops, hdr);
    ExtendsTrans(d.pages, e.pages, r);
    assert ContinuationsFrom(d.pages, hdr, base);
    EnsureSpaceContinuations(d, hdr, rowH, base);
    AppendContinuations(e.pages, ops, hdr, base);
    assert ContinuationsFrom(r, hdr, base);
  }

  /**
   * A table only adds to the document; each page it starts holds the header
   * band and row cells and nothing else, so the column-header row is never
   * drawn again on a continuation page.
   */
  lemma {:induction false} TableRowsPages(d: Doc, hdr: DrawOp, widths: seq<int>, rowH: int,
                                          textDy: int, rows: seq<seq<Content>>)
    requires |d.pages| > 0 && RowsFit(rows, widths)
    ensures var r := TableRows(d, hdr, widths, rowH, textDy, rows);
      Extends(d.pages, r.pages) &&
      (forall k :: |d.pages| <= k < |r.pages| ==> IsContinuation(r.pages[k], hdr)) &&
      (Framed(d.pages, hdr) ==> Framed(r.pages, hdr))
  {
    if rows == [] {
    } else {
      var prev := TableRows(d, hdr, widths, rowH, textDy, rows[..|rows| - 1]);
      TableRowsPages(d, hdr, widths, rowH, textDy, rows[..|rows| - 1]);
      RowStepPages(prev, hdr, widths, rowH, textDy, rows[|rows| - 1], |d.pages|);
      ExtendsTrans(d.pages, prev.pages, TableRows(d, hdr, widths, rowH, textDy, rows).pages);
    }
  }

  /**
   * A row drawn right after a break prints at `555 - textDy`, inside the
   * 90-unit header band that covers the top of the page from `H-90` up.
   */
  lemma ContinuationRowInBand(d: Doc, hdr: DrawOp, widths: seq<int>, rowH: int, textDy: int,
                              cells: seq<Content>)
    requires |d.pages| > 0 && |cells| == |widths| && cells != []
    requires d.y - rowH < BottomMargin && 0 <= textDy < BandHeight - 40
    ensures var r := RowStep(d, hdr, widths, rowH, textDy, cells);
      var page := r.pages[|r.pages| - 1];
      page[0] == hdr && page[1].Text? &&
      PageHeight - BandHeight < page[1].y <= PageHeight
  {
    var e := EnsureSpace(d, hdr, rowH);
    CellOpsTexts(cells, widths, e.y - textDy, |cells|);
  }
}
