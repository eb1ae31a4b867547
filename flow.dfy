/**
 * The arithmetic of a forward-only flow of equal chunks: before each chunk
 * `ensureSpace(check)` starts a new page when the cursor would pass the
 * bottom margin, then the chunk moves the cursor down by `advance`. Tables
 * use `check == advance` (one row height); feedback call-outs check 50 and
 * consume 45.
 */
module PageBudget {
  import opened Canvas

  /** Pages started so far and the cursor. */
  datatype Budget = Budget(breaks: nat, y: int)

  /** One chunk: a break exactly when `y - check` is below the margin. */
  function Place(b: Budget, check: int, advance: int): Budget {
    if b.y - check < BottomMargin then Budget(b.breaks + 1, ContinuationTop - advance)
    else Budget(b.breaks, b.y - advance)
  }

  /** `n` chunks placed from cursor `y`. */
  function Flow(y: int, n: nat, check: int, advance: int): Budget
    decreases n
  {
    if n == 0 then Budget(0, y) else Place(Flow(y, n - 1, check, advance), check, advance)
  }

  /** How many chunks fit below cursor `y` before a break is needed. */
  function Fits(y: int, check: int, advance: int): nat
    requires advance > 0
  {
    if y - check < BottomMargin then 0 else (y - check - BottomMargin) / advance + 1
  }

  lemma MulAtLeast(a: int, h: int)
    requires a >= 1 && h > 0
    ensures a * h >= h
  {
    assert a * h == (a - 1) * h + h;
  }

  lemma DivUnique(x: int, h: int, q: int, r: int)
    requires h > 0 && 0 <= r < h && x == q * h + r
    ensures x / h == q && x % h == r
  {
    var q', r' := x / h, x % h;
    assert x == q' * h + r';
    assert (q' - q) * h == r - r' by {
      assert (q' - q) * h == q' * h - q * h;
    }
    if q' > q {
      MulAtLeast(q' - q, h);
    } else if q' < q {
      assert (q - q') * h == r' - r;
      MulAtLeast(q - q', h);
    }
  }

  lemma MulAtMostDiv(a: int, x: int, h: int)
    requires h > 0 && x >= 0 && 0 <= a <= x / h
    ensures a * h <= x
  {
    assert a * h <= (x / h) * h;
    assert x == (x / h) * h + x % h;
  }

  lemma MulPastDiv(x: int, h: int)
    requires h > 0 && x >= 0
    ensures (x / h + 1) * h > x
  {
    assert x == (x / h) * h + x % h;
  }

  /** With `check == advance` this is `floor((y-60)/h)` rows (none below the margin). */
  lemma FitsRows(y: int, h: int)
    requires h > 0
    ensures Fits(y, h, h) == if y < BottomMargin then 0 else (y - BottomMargin) / h
  {
    if y - h >= BottomMargin {
      DivUnique(y - BottomMargin, h, (y - h - BottomMargin) / h + 1, (y - h - BottomMargin) % h);
    } else if y >= BottomMargin {
      DivUnique(y - BottomMargin, h, 0, y - BottomMargin);
    }
  }

  /** The first `Fits` chunks go on the current page, each `advance` lower. */
  lemma {:induction false} FillsCurrentPage(y: int, n: nat, check: int, advance: int)
    requires advance > 0 && n <= Fits(y, check, advance)
    ensures Flow(y, n, check, advance) == Budget(0, y - n * advance)
  {
    if n > 0 {
      FillsCurrentPage(y, n - 1, check, advance);
      MulAtMostDiv(n - 1, y - check - BottomMargin, advance);
    }
  }

  /** The next chunk starts a page and is drawn at its top. */
  lemma FirstBreak(y: int, check: int, advance: int)
    requires advance > 0
    ensures Flow(y, Fits(y, check, advance) + 1, check, advance)
            == Budget(1, ContinuationTop - advance)
  {
    var f := Fits(y, check, advance);
    FillsCurrentPage(y, f, check, advance);
    if y - check >= BottomMargin {
      MulPastDiv(y - check - BottomMargin, advance);
    }
  }

  /** Placing `a` chunks and then `b` more is placing `a + b`. */
  lemma {:induction false} FlowSplit(y: int, a: nat, b: nat, check: int, advance: int)
    ensures var f := Flow(y, a, check, advance);
      var g := Flow(f.y, b, check, advance);
      Flow(y, a + b, check, advance) == Budget(f.breaks + g.breaks, g.y)
  {
    if b > 0 {
      FlowSplit(y, a, b - 1, check, advance);
    }
  }

  /** One more chunk on a fresh page that already holds `r + 1` chunks. */
  lemma FreshStep(q: nat, r: nat, check: int, advance: int)
    requires advance > 0 && check <= ContinuationTop - BottomMargin
    requires r < Fits(ContinuationTop, check, advance)
    ensures var b := Place(Budget(q, ContinuationTop - (r + 1) * advance), check, advance);
      if r + 1 < Fits(ContinuationTop, check, advance)
      then b == Budget(q, ContinuationTop - (r + 2) * advance)
      else b == Budget(q + 1, ContinuationTop - advance)
  {
    var x := ContinuationTop - check - BottomMargin;
    var y := ContinuationTop - (r + 1) * advance;
    if r + 1 < Fits(ContinuationTop, check, advance) {
      MulAtMostDiv(r + 1, x, advance);
      assert y - check >= BottomMargin;
      assert y - advance == ContinuationTop - (r + 2) * advance;
    } else {
      MulPastDiv(x, advance);
      assert r + 1 == x / advance + 1;
      assert y - check < BottomMargin;
    }
  }

  /**
   * After a break has drawn its chunk at the top, a fresh page takes
   * `Fits(ContinuationTop, …)` chunks: `m` more chunks started `m / P` further
   * pages and leave `m % P + 1` chunks on the last one.
   */
  lemma {:induction false} FreshPages(m: nat, check: int, advance: int)
    requires advance > 0 && check <= ContinuationTop - BottomMargin
    ensures var p := Fits(ContinuationTop, check, advance);
      p >= 1 &&
      Flow(ContinuationTop - advance, m, check, advance)
        == Budget(m / p, ContinuationTop - (m % p + 1) * advance)
  {
    var p := Fits(ContinuationTop, check, advance);
    if m == 0 {
      DivUnique(0, p, 0, 0);
    } else {
      var start := ContinuationTop - advance;
      FreshPages(m - 1, check, advance);
      var q, r := (m - 1) / p, (m - 1) % p;
      assert Flow(start, m - 1, check, advance) == Budget(q, ContinuationTop - (r + 1) * advance);
      assert Flow(start, m, check, advance) == Place(Budget(q, ContinuationTop - (r + 1) * advance), check, advance);
      FreshStep(q, r, check, advance);
      NextQuotient(m, p);
    }
  }

  /** Counting one more chunk moves the remainder on, or wraps it to a new quotient. */
  lemma NextQuotient(m: nat, p: nat)
    requires m >= 1 && p >= 1
    ensures var q, r := (m - 1) / p, (m - 1) % p;
      if r + 1 < p then m / p == q && m % p == r + 1 else m / p == q + 1 && m % p == 0
  {
    var q, r := (m - 1) / p, (m - 1) % p;
    assert m - 1 == q * p + r;
    if r + 1 < p {
      DivUnique(m, p, q, r + 1);
    } else {
      assert m == (q + 1) * p + 0;
      DivUnique(m, p, q + 1, 0);
    }
  }

  /**
   * The closed form of a flow from cursor `y`: the first `Fits(y, …)` chunks
   * stay on the current page; after that the chunks fill fresh pages of
   * `Fits(ContinuationTop, …)` each.
   */
  lemma ClosedForm(y: int, n: nat, check: int, advance: int)
    requires advance > 0 && check <= ContinuationTop - BottomMargin
    ensures var f := Fits(y, check, advance);
      var p := Fits(ContinuationTop, check, advance);
      p >= 1 &&
      Flow(y, n, check, advance) ==
        if n <= f then Budget(0, y - n * advance)
        else Budget((n - f - 1) / p + 1, ContinuationTop - ((n - f - 1) % p + 1) * advance)
  {
    var f := Fits(y, check, advance);
    FreshPages(0, check, advance);
    if n <= f {
      FillsCurrentPage(y, n, check, advance);
    } else {
      FirstBreak(y, check, advance);
      FlowSplit(y, f + 1, n - f - 1, check, advance);
      FreshPages(n - f - 1, check, advance);
    }
  }

  /** A fresh page holds 35 summary rows, 41 detail rows and 10 call-outs. */
  lemma ChunksPerFreshPage()
    ensures Fits(ContinuationTop, 14, 14) == 35 == (ContinuationTop - BottomMargin) / 14
    ensures Fits(ContinuationTop, 12, 12) == 41 == (ContinuationTop - BottomMargin) / 12
    ensures Fits(ContinuationTop, 50, 45) == 10
  {
  }

  /**
   * 60 detail rows below a cursor with 445 units left above the margin: 37 on
   * the current page, the other 23 on one new page.
   */
  lemma SixtyDetailRows()
    ensures Fits(BottomMargin + 445, 12, 12) == 37
    ensures Flow(BottomMargin + 445, 60, 12, 12) == Budget(1, ContinuationTop - 23 * 12)
  {
    DivUnique(433, 12, 36, 1);
    DivUnique(483, 12, 40, 3);
    DivUnique(22, 41, 0, 22);
    ClosedForm(BottomMargin + 445, 60, 12, 12);
  }
}
