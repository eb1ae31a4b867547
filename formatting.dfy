/**
 * Value formatting used on the page: the date parse of `fmtDate`, the
 * percent text of a conversion ratio, and the `-` placeholder of table cells.
 */
module Formatting {
  import opened Wrappers
  import opened Text

  /**
   * What `fmtDate` prints. `Today` is the clock's date (no date given),
   * `Raw` the input passed through unchanged, `Calendar` a parsed
   * month/day/year handed to the "MMM D, YYYY" formatter.
   */
  datatype DateText = Today | Raw(text: string) | Calendar(month: int, day: int, year: int)

  /** Two-digit years (any year below 100) are read as 20xx. */
  function PivotYear(y: int): int {
    if y < 100 then y + 2000 else y
  }

  /** `date.split("/").map(Number)` read as month, day, year; `None` when one is NaN or missing. */
  function DateFields(s: string): (r: Option<(int, int, int)>)
    ensures var parts := Split(s, '/');
      r.Some? <==> |parts| >= 3 && ParseNumber(parts[0]).Some? &&
                   ParseNumber(parts[1]).Some? && ParseNumber(parts[2]).Some?
    ensures r.Some? ==> var parts := Split(s, '/');
      r.value == (ParseNumber(parts[0]).value, ParseNumber(parts[1]).value, ParseNumber(parts[2]).value)
  {
    var parts := Split(s, '/');
    if |parts| < 3 then None
    else match (ParseNumber(parts[0]), ParseNumber(parts[1]), ParseNumber(parts[2])) {
      case (Some(m), Some(d), Some(y)) => Some((m, d, y))
      case _ => None
    }
  }

  /**
   * `fmtDate`: no date or an empty one means today; a date whose first three
   * `/`-separated fields are not all numbers is passed through unchanged;
   * otherwise the parsed fields, with the year pivoted.
   */
  function FmtDate(date: Option<string>): (r: DateText)
    ensures r.Today? <==> date.None? || date == Some([])
    ensures r.Raw? ==> date.Some? && r.text == date.value
  {
    if date.None? || date.value == [] then Today
    else match DateFields(date.value) {
      case None => Raw(date.value)
      case Some((m, d, y)) => Calendar(m, d, PivotYear(y))
    }
  }

  /**
   * The raw string comes back exactly when fewer than three fields exist or
   * one of the first three is not a number.
   */
  lemma FmtDateRaw(s: string)
    requires s != []
    ensures var parts := Split(s, '/');
      FmtDate(Some(s)) == Raw(s) <==>
        (|parts| < 3 || ParseNumber(parts[0]).None? || ParseNumber(parts[1]).None? ||
         ParseNumber(parts[2]).None?)
  {
  }

  /** `m/d/y` written with decimal digits parses back to its fields, the year pivoted. */
  lemma FmtDateRoundTrip(m: nat, d: nat, y: nat)
    ensures FmtDate(Some(NatToString(m) + "/" + NatToString(d) + "/" + NatToString(y)))
            == Calendar(m, d, PivotYear(y))
  {
    var sm, sd, sy := NatToString(m), NatToString(d), NatToString(y);
    var rest := sd + ['/'] + sy;
    var s := sm + "/" + sd + "/" + sy;
    DigitsHaveNoSlash(sm);
    DigitsHaveNoSlash(sd);
    DigitsHaveNoSlash(sy);
    SplitNoSeparator(sy, '/');
    SplitAtSeparator(sd, '/', sy);
    assert Split(rest, '/') == [sd, sy];
    assert s == sm + ['/'] + rest;
    SplitAtSeparator(sm, '/', rest);
    assert Split(s, '/') == [sm, sd, sy];
    ParseNumberOfNatToString(m);
    ParseNumberOfNatToString(d);
    ParseNumberOfNatToString(y);
    assert DateFields(s) == Some((m, d, y));
  }

  lemma DigitsHaveNoSlash(s: string)
    requires AllDigits(s)
    ensures '/' !in s
  {
  }

  /** An example from the field: a US date with a two-digit year. */
  lemma FmtDateTwoDigitYear()
    ensures FmtDate(Some("3/7/24")) == Calendar(3, 7, 2024)
  {
    assert NatToString(24) == NatToString(2) + [DigitChar(4)] == "24";
    assert "3/7/24" == NatToString(3) + "/" + NatToString(7) + "/" + NatToString(24);
    FmtDateRoundTrip(3, 7, 24);
  }

  /** A table cell: a missing (`null` or `undefined`) value prints as `-`. */
  function CellText(v: Option<string>): (s: string)
    ensures v.None? ==> s == "-"
    ensures v.Some? ==> s == v.value
  {
    v.GetOr("-")
  }

  /**
   * A conversion value: a JavaScript number, given here in thousandths
   * (0.456 is `Ratio(456)`) so that `(x*100).toFixed(1)` is exact, or any
   * value that is not a number.
   */
  datatype Conversion = Ratio(thousandths: int) | NotNumber

  function Abs(t: int): nat { if t < 0 then -t else t }

  /** `(x*100).toFixed(1) + '%'` for `x` = `t` thousandths: `t` tenths of a percent. */
  function PercentText(t: int): string {
    (if t < 0 then "-" else "") + NatToString(Abs(t) / 10) + "." + [DigitChar(Abs(t) % 10)] + "%"
  }

  /** The conversion cell: a percent for a number, the placeholder otherwise. */
  function ConversionText(c: Conversion): (s: string)
    ensures c.NotNumber? <==> s == "-"
  {
    match c
    case Ratio(t) => PercentText(t)
    case NotNumber => "-"
  }

  /** Reads a percent text `[-]D+.D%` back into tenths of a percent. */
  function TenthsOf(s: string): Option<int> {
    if |s| >= 4 && s[|s| - 1] == '%' && s[|s| - 3] == '.' && IsDigit(s[|s| - 2]) then
      var body := s[..|s| - 3];
      var negative := body != [] && body[0] == '-';
      var digits := if negative then body[1..] else body;
      var frac := s[|s| - 2] as int - '0' as int;
      if digits != [] && AllDigits(digits) then
        var v := DigitsValue(digits) * 10 + frac;
        Some(if negative then -v else v)
      else None
    else None
  }

  /** The percent text loses nothing: it reads back to the same tenths. */
  lemma PercentTextRoundTrip(t: int)
    ensures TenthsOf(PercentText(t)) == Some(t)
  {
    var n := NatToString(Abs(t) / 10);
    var sign: string := if t < 0 then "-" else "";
    var s := PercentText(t);
    assert s == sign + n + "." + [DigitChar(Abs(t) % 10)] + "%";
    assert |s| == |sign| + |n| + 3;
    assert s[..|s| - 3] == sign + n;
    assert s[|s| - 2] == DigitChar(Abs(t) % 10);
    NatToStringRoundTrip(Abs(t) / 10);
    if t < 0 {
      assert (sign + n)[1..] == n;
    } else {
      assert sign + n == n;
      assert n[0] != '-';
    }
  }

  /**
   * The percent text is an optional minus sign (exactly for a negative
   * value), the whole tenths, a point, the last tenth and `%`.
   */
  lemma PercentTextShape(t: int)
    ensures var s := PercentText(t);
      |s| >= 4 && s[|s| - 1] == '%' && s[|s| - 3] == '.' &&
      s[|s| - 2] == DigitChar(Abs(t) % 10) && (s[0] == '-' <==> t < 0)
  {
    var n := NatToString(Abs(t) / 10);
    assert n[0] != '-';
  }

  /** The ratio 0.456 prints as 45.6%. */
  lemma PercentExample()
    ensures ConversionText(Ratio(456)) == "45.6%"
  {
    assert NatToString(45) == NatToString(4) + [DigitChar(5)] == "45";
  }
}
