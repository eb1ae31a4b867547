/**
 * The report the program is given, every field optional, and how each record
 * becomes the cells of its table row. A value field holds `String(value)` of
 * the JSON value, `None` when the value is `null` or `undefined`.
 */
module Report {
  import opened Wrappers
  import opened Formatting
  import opened Canvas

  datatype ReportMeta = ReportMeta(
    reportName: Option<string>,
    clientIdentifier: Option<string>,
    reportDate: Option<string>,
    count: Option<string>,
    sampledAuto: Option<string>,
    totalSalesAuto: Option<string>,
    averageSampled: Option<string>,
    averageSales: Option<string>,
    conversion: Option<string>)

  datatype SummaryRow = SummaryRow(
    conditionalName: Option<string>,
    tastingsCount: Option<string>,
    totalSampled: Option<string>,
    averageSampled: Option<string>,
    totalSold: Option<string>,
    averageSold: Option<string>,
    conversionPercent: Conversion)

  /** A consumer comment; `None` or the empty text is skipped. */
  datatype Comment = Comment(comment: Option<string>)

  /** A photo; `loaded` says whether its image was fetched and embedded. */
  datatype Photo = Photo(loaded: bool)

  datatype DetailRow = DetailRow(
    tastingNumber: Option<string>,
    store: Option<string>,
    scheduledDate: Option<string>,
    scheduledTime: Option<string>,
    city: Option<string>,
    totalConsumersSampledR: Option<string>,
    totalSales: Option<string>,
    conversion: Conversion)

  /** The request body; an absent list (or, for the last three, one that is not an array) is `None`. */
  datatype ReportInput = ReportInput(
    report: ReportMeta,
    executiveSummary: Option<seq<SummaryRow>>,
    comments: Option<seq<Comment>>,
    photos: Option<seq<Photo>>,
    tastings: Option<seq<DetailRow>>)

  /**
   * The header band of every page: the report name or `Tasting Report`, the
   * client's identifier or `Client` after `Prepared for: `, and the report date
   * through `fmtDate`.
   */
  function Furniture(meta: ReportMeta): (h: DrawOp)
    ensures h.Header?
    ensures h.title == (if meta.reportName.Some? then meta.reportName.value else "Tasting Report")
    ensures h.client == "Prepared for: " +
      (if meta.clientIdentifier.Some? then meta.clientIdentifier.value else "Client")
    ensures h.date == FmtDate(meta.reportDate)
  {
    Header(meta.reportName.GetOr("Tasting Report"),
           "Prepared for: " + meta.clientIdentifier.GetOr("Client"),
           FmtDate(meta.reportDate))
  }

  /**
   * The six KPI cards as (title, value) pairs, left to right and top to bottom;
   * an absent value shows `0`, and the conversion card adds `%`.
   */
  function KpiCards(meta: ReportMeta): (cards: seq<(string, string)>)
    ensures |cards| == 6
    ensures forall i :: 0 <= i < 6 ==>
      cards[i].0 == ["Total Tastings", "Total Sampled", "Total Sold", "Avg Sampled", "Avg Sold",
                     "Conversion Rate"][i]
    ensures forall i :: 0 <= i < 5 ==>
      var v := [meta.count, meta.sampledAuto, meta.totalSalesAuto, meta.averageSampled, meta.averageSales][i];
      cards[i].1 == (if v.None? then "0" else v.value)
    ensures cards[5].1 == (if meta.conversion.None? then "0" else meta.conversion.value) + "%"
  {
    [("Total Tastings", meta.count.GetOr("0")),
     ("Total Sampled", meta.sampledAuto.GetOr("0")),
     ("Total Sold", meta.totalSalesAuto.GetOr("0")),
     ("Avg Sampled", meta.averageSampled.GetOr("0")),
     ("Avg Sold", meta.averageSales.GetOr("0")),
     ("Conversion Rate", meta.conversion.GetOr("0") + "%")]
  }

  const SummaryLabels: seq<string> :=
    ["Brand/Region", "#Tastings", "Total Samp.", "Avg Samp.", "Total Sold", "Avg Sold", "Conv.%"]
  const SummaryWidths: seq<int> := [150, 60, 70, 70, 60, 60, 60]
  const DetailLabels: seq<string> :=
    ["#", "Store", "Date", "Time", "City", "Sampled", "Sold", "Conv.%"]
  const DetailWidths: seq<int> := [20, 100, 60, 40, 80, 50, 40, 40]

  /** The seven cells of an executive-summary row. */
  function SummaryCells(row: SummaryRow): (cells: seq<Content>)
    ensures |cells| == |SummaryWidths|
  {
    [Literal(CellText(row.conditionalName)), Literal(CellText(row.tastingsCount)),
     Literal(CellText(row.totalSampled)), Literal(CellText(row.averageSampled)),
     Literal(CellText(row.totalSold)), Literal(CellText(row.averageSold)),
     Literal(ConversionText(row.conversionPercent))]
  }

  /** The eight cells of a detailed-results row; the date cell is `fmtDate`'s. */
  function DetailCells(row: DetailRow): (cells: seq<Content>)
    ensures |cells| == |DetailWidths|
  {
    [Literal(CellText(row.tastingNumber)), Literal(CellText(row.store)),
     Date(FmtDate(row.scheduledDate)), Literal(CellText(row.scheduledTime)),
     Literal(CellText(row.city)), Literal(CellText(row.totalConsumersSampledR)),
     Literal(CellText(row.totalSales)), Literal(ConversionText(row.conversion))]
  }

  /**
   * In both tables, every absent value and a conversion that is not a number
   * print as `-`; a present value prints as itself; the date cell is `fmtDate`
   * of the scheduled date (today's date when it is absent).
   */
  lemma CellPlaceholders(s: SummaryRow, d: DetailRow)
    ensures forall i :: 0 <= i < 6 ==>
      var v := [s.conditionalName, s.tastingsCount, s.totalSampled, s.averageSampled,
                s.totalSold, s.averageSold][i];
      SummaryCells(s)[i] == Literal(if v.None? then "-" else v.value)
    ensures SummaryCells(s)[6] == Literal("-") <==> s.conversionPercent.NotNumber?
    ensures forall i :: 0 <= i < 7 && i != 2 ==>
      var v := [d.tastingNumber, d.store, d.scheduledDate, d.scheduledTime, d.city,
                d.totalConsumersSampledR, d.totalSales][i];
      DetailCells(d)[i] == Literal(if v.None? then "-" else v.value)
    ensures DetailCells(d)[2] == Date(FmtDate(d.scheduledDate))
    ensures d.scheduledDate.None? ==> DetailCells(d)[2] == Date(Today)
    ensures DetailCells(d)[7] == Literal("-") <==> d.conversion.NotNumber?
  {
  }
}
