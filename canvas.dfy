/**
 * The fixed canvas and the draw commands. `DrawOp` stands for the calls the
 * program makes on a pdf-lib page; fonts, sizes and colours are not kept.
 */
module Canvas {
  import opened Formatting

  /** Every page is 842 x 595 units, landscape. */
  const PageWidth: int := 842
  const PageHeight: int := 595
  /** No content row may start below this height. */
  const BottomMargin: int := 60
  /** The coloured header band covers the top 90 units of a page. */
  const BandHeight: int := 90
  /** Where `newPage` leaves the cursor: `H-40`. */
  const ContinuationTop: int := PageHeight - 40
  /** Where the first page's content starts, below its header: `H-130`. */
  const FirstBodyTop: int := PageHeight - 130

  /**
   * A text drawn on the page: literal text, the output of `fmtDate`, or a
   * feedback comment, whose markup is drawn as plain text through `stripHtml`
   * (`Markup.StripHtml` of it).
   */
  datatype Content = Literal(text: string) | Date(date: DateText) | Stripped(html: string)

  datatype DrawOp =
    /** The header band: a full-width rectangle at height H-90 holding title, client and date. */
    | Header(title: string, client: string, date: DateText)
    | Rect(x: int, y: int, w: int, h: int)
    | Text(content: Content, x: int, y: int)
    /** The image of the photo at position `photo` of the photo list. */
    | Image(photo: nat, x: int, y: int, w: int, h: int)
}
