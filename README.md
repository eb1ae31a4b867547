# Tasting report PDF layout, modelled in Dafny

`generateReportPdf` is an HTTP cloud function. It takes a tasting report as
JSON and lays it out on landscape pages of 842 x 595 units:

- a coloured header band on every page;
- six KPI cards;
- the executive-summary table;
- the consumer-feedback call-outs;
- a photo gallery;
- a detailed-results table.

A single cursor `y` moves down the page. Before each section, each table
record, each call-out and each row of the photo grid, `ensureSpace(n)` starts
a new page whenever `y - n` would drop below the 60-unit bottom margin. The
KPI cards, the table heads and the thumbnails themselves are drawn without
their own check.

This project models the layout engine and the text helpers it relies on:

- `stripHtml`;
- the `split("/").map(Number)` parse behind `fmtDate`;
- the table-cell formatting, with its `-` placeholder and the conversion
  percentage.

The document is a list of pages. Each page is a list of draw commands
(`Canvas.DrawOp`), and the cursor is `Pagination.Doc.y`.

The model has two layers:

- The layout as functions. Each section is a function from a `Doc` to a
  `Doc` (`Pagination`, `Sections`, `ReportPdf`). Each loop of the source is a
  function over a prefix of its list.
- The code as it runs. `Renderer.Layout` is a class whose `pages` and `y`
  fields change in place. Its methods have the source's loops, and each
  method's postcondition is the matching function.

What is proved:

- the behaviour of `ensureSpace`;
- that every table record is drawn exactly once, in order, on a single page;
- that the column-header row never reappears on a continuation page;
- the closed form of how many records fit on each page;
- that absent sections and empty comments are skipped;
- the counters of the photo grid;
- that every page begins with the header band;
- that the whole report prints its texts in reading order.

Modules:

- `Wrappers`: `Option`.
- `Text`: JavaScript white space, `trim`, one-character `split`, and
  `Number()` on integer strings.
- `Markup`: `stripHtml` as its list of replace rules.
- `Formatting`: `fmtDate`'s parse and the cell texts.
- `Canvas`: the page constants and the draw commands.
- `Report`: the input record, the header band, the KPI values and the table
  cells.
- `PageBudget`: the arithmetic of how records flow across pages.
- `Pagination`: `newPage`, `ensureSpace` and the generic table loop.
- `Sections`: the five sections.
- `ReportPdf`: the whole document.
- `Renderer`: the imperative layout.

Behaviour of the code that the model keeps as written:

- Photo rows are not deferred to a new page: a gallery row that would cross
  the bottom margin is not moved to the next page in full. In the
  code (generate_report_pdf.ts:103), the check before each row is
  `ensureSpace(100)`, and it tests `y`, not `rowTop`. On entry `y` is at least
  166, because `ensureSpace(120)` came first and then `y -= 14`. The grid never
  changes `y`, so the check never fires. When `rowTop` falls below 100 it is
  reset to `y` on the same page, so later rows overdraw the first row.
  `Sections.PhotoGridStaysOnPage`, `Sections.PhotoRowWrapsInPlace` and
  `Sections.PhotosAddAtMostOnePage` state this.
- A continuation page set up by `newPage` starts its cursor at `H-40` = 555,
  which is inside the 90-unit header band. The first record drawn after a
  break is printed over the band (`Pagination.ContinuationRowInBand`).
- The executive-summary title and column headers are drawn even when there are
  no summary rows, while the other three list sections are skipped when their
  list is absent or empty.

## Model

| member | source | states |
|---|---|---|
| Text.Trim | generate_report_pdf.ts:31 | `trim()`: the result is the slice of the input that starts right after the leading white space; everything cut off at either end is white space; the result has no white space at either end, and is the input itself when the input has none at its ends |
| Text.TrimStart | generate_report_pdf.ts:31 | a suffix of the input that does not start with white space, and everything cut off before it is white space |
| Text.TrimEnd | generate_report_pdf.ts:31 | a prefix of the input that drops only trailing white space and does not end with white space |
| Text.Split | generate_report_pdf.ts:40 | `split("/")`: at least one part, no part holds the separator, and joining the parts with the separator gives back the input |
| Text.SplitAtSeparator | generate_report_pdf.ts:40 | the first part of a split is the text up to the first separator, and the remaining parts split the rest |
| Text.ParseNumber | generate_report_pdf.ts:40 | `Number()` on this alphabet is a number exactly when the trimmed text is empty, all digits, or a sign followed by digits |
| Text.NatToStringRoundTrip | generate_report_pdf.ts:40 | the decimal text of `n` reads back as `n` |
| Text.ParseNumberOfNatToString | generate_report_pdf.ts:40 | `Number()` of the decimal text of `n` is `n`, never NaN |
| Markup.IndexOfGt | generate_report_pdf.ts:23-29 | the first `>` of a text, absent exactly when the text has none |
| Markup.MatchLength | generate_report_pdf.ts:22-30 | a regular-expression match at a position consumes at least one character and no more than what is left |
| Markup.ReplaceAll | generate_report_pdf.ts:22-30 | a global `replace` only keeps characters of the input or of the replacement |
| Markup.StripHtmlClean | generate_report_pdf.ts:19-32 | `stripHtml` gives `""` for an absent or empty comment; its result has no white space at either end, never two white-space characters in a row, and no `<` followed later by a `>` |
| Markup.StripHtml | generate_report_pdf.ts:19-32 | `stripHtml` of an absent or empty comment is `""`; what any other result looks like is `StripHtmlClean` |
| Markup.RulesLeaveCleanText | generate_report_pdf.ts:22-30 | after the whole replacement chain no tag is left and no two white-space characters are adjacent |
| Markup.TrimKeepsClean | generate_report_pdf.ts:31 | `trim()` keeps a text free of tags and of double white space |
| Markup.TagRemovalLeavesNoTag | generate_report_pdf.ts:29 | after `replace(/<[^>]*>/g, "")` no `<` is followed later by a `>` |
| Markup.CollapseKeepsNoTag | generate_report_pdf.ts:30 | collapsing white-space runs creates no tag |
| Markup.CollapseLeavesNoDoubleSpace | generate_report_pdf.ts:30 | after `replace(/\s{2,}/g, " ")` no two white-space characters are adjacent; the text is empty exactly when the input was, and starts with white space exactly when the input did |
| Markup.CollapseKeepsSingleSpaces | generate_report_pdf.ts:30 | the collapse leaves a text without double white space unchanged |
| Markup.TagPatternKeepsPlainText | generate_report_pdf.ts:22-29 | a tag pattern leaves a text without `<` unchanged |
| Markup.TagRulesKeepPlainText | generate_report_pdf.ts:22-29 | the eight tag rules in sequence leave a text without `<` unchanged |
| Markup.StripHtmlKeepsPlainText | generate_report_pdf.ts:19-32 | `stripHtml` returns a trimmed plain text without `<` or double white space unchanged |
| Formatting.FmtDate | generate_report_pdf.ts:40 | "today" exactly for an absent or empty date; a raw result is the input string itself |
| Formatting.FmtDateRaw | generate_report_pdf.ts:40 | a non-empty date is passed through unchanged exactly when it has fewer than three `/` fields or one of the first three is NaN |
| Formatting.FmtDateRoundTrip | generate_report_pdf.ts:40 | `m/d/y` written in decimal parses back to month `m`, day `d` and year `y`, with 2000 added to a year below 100 |
| Formatting.FmtDateTwoDigitYear | generate_report_pdf.ts:40 | `3/7/24` is read as 7 March 2024 |
| Formatting.DigitsHaveNoSlash | generate_report_pdf.ts:40 | a decimal field holds no separator |
| Formatting.DateFields | generate_report_pdf.ts:40 | `split("/").map(Number)` gives month, day and year exactly when there are at least three fields and the first three are numbers, and then they are those three numbers |
| Formatting.ConversionText | generate_report_pdf.ts:95 | the conversion cell is `-` exactly when the value is not a number |
| Formatting.CellText | generate_report_pdf.ts:95 | `x ?? "-"`: an absent value prints as `-`, a present one as itself; the same at line 106 |
| Formatting.PercentTextRoundTrip | generate_report_pdf.ts:95 | `(x*100).toFixed(1)+'%'` reads back to the same tenths of a percent, so the text loses nothing |
| Formatting.PercentTextShape | generate_report_pdf.ts:95 | the percent text is a minus sign exactly for a negative ratio, the whole tenths, a point, the last tenth and `%` |
| Formatting.PercentExample | generate_report_pdf.ts:95 | 0.456 prints as `45.6%` |
| Report.Furniture | generate_report_pdf.ts:67-71 | the header band's title is the report name, `Tasting Report` when absent; its client line is `Prepared for: ` and the client's identifier, `Client` when absent; its date is `fmtDate` of the report date |
| Report.KpiCards | generate_report_pdf.ts:80-85 | exactly six cards with the titles `Total Tastings`, `Total Sampled`, `Total Sold`, `Avg Sampled`, `Avg Sold`, `Conversion Rate` in that order; each value is the field or `0` when absent, and the conversion card adds `%` |
| Report.SummaryCells | generate_report_pdf.ts:95 | a summary record has one cell per summary column |
| Report.DetailCells | generate_report_pdf.ts:106 | a detail record has one cell per detail column |
| Report.CellPlaceholders | generate_report_pdf.ts:93-106 | each of the six value cells of a summary row and the seven value cells of a detail row is `-` when absent and the value itself when present; the detail date cell is `fmtDate` of the scheduled date, today's date when absent; in both tables the conversion cell is `-` exactly when the value is not a number |
| PageBudget.FitsRows | generate_report_pdf.ts:94-95 | from cursor `y`, `floor((y-60)/h)` records of height `h` fit before the first break; the detail loop at line 106 and the check at line 64 are the same |
| PageBudget.FillsCurrentPage | generate_report_pdf.ts:94-95 | records that fit cause no break and move the cursor down by their total height; the check is at line 64 |
| PageBudget.FirstBreak | generate_report_pdf.ts:63-64 | the first record that does not fit starts one new page and is drawn at its top |
| PageBudget.FlowSplit | generate_report_pdf.ts:93-96 | laying out `a + b` records is laying out `a` records, then `b` records from where they left off |
| PageBudget.FreshPages | generate_report_pdf.ts:93-96 | after a break, records fill fresh pages `p` at a time; the break is at lines 63-64 |
| PageBudget.ClosedForm | generate_report_pdf.ts:93-96 | the page breaks and the final cursor of `n` records as a closed form: none while they fit, then one break per `p` records; the break is at lines 63-64, the detail loop at line 106 |
| PageBudget.ChunksPerFreshPage | generate_report_pdf.ts:63-64 | a fresh page holds 35 summary rows, 41 detail rows (`floor(495/12)`) or 10 call-outs; the row heights are at lines 95, 100 and 106 |
| PageBudget.SixtyDetailRows | generate_report_pdf.ts:106 | 60 detail rows from 445 above the margin: 37 fit, then one break, and the cursor ends 23 rows below the top |
| Pagination.NewPage | generate_report_pdf.ts:63 | `newPage` adds exactly one page, holding only the header band, keeps every earlier page and sets the cursor to `H-40` |
| Pagination.EnsureSpace | generate_report_pdf.ts:63-64 | `ensureSpace(n)` does nothing when `y-n >= 60`; otherwise it adds exactly one page with the header first and sets `y = 555`; either way `y-n >= 60` afterwards when `n <= 495` |
| Pagination.EnsureSpaceExtends | generate_report_pdf.ts:63-64 | `ensureSpace` keeps every page drawn so far, and keeps every page starting with the header |
| Pagination.AppendExtends | generate_report_pdf.ts:68-106 | drawing on the current page leaves earlier pages alone and keeps every page starting with the header |
| Pagination.ExtendsTrans | generate_report_pdf.ts:59-107 | drawing only ever adds: two steps that each keep what was drawn together keep it |
| Pagination.FlatAppend | generate_report_pdf.ts:68-106 | what is drawn on the current page comes after everything drawn before |
| Pagination.EnsureSpaceTexts | generate_report_pdf.ts:63-64 | a page break prints no text |
| Pagination.CellOpsTexts | generate_report_pdf.ts:95 | a record's cells print its values in column order, all on one baseline; the same at line 106 |
| Pagination.ColumnHeaderTexts | generate_report_pdf.ts:92 | the column-header row prints the labels in order; the same at line 106 |
| Pagination.RowStep | generate_report_pdf.ts:94-95 | one record never removes a page |
| Pagination.RowOnOnePage | generate_report_pdf.ts:94-95 | a record is never split: after the space check its cells are the last commands of the current page, one per column on one baseline, and no other page changes; the same at line 106 |
| Pagination.TableRows | generate_report_pdf.ts:93-96 | the record loop never removes a page; the same at line 106 |
| Pagination.TableRowsFlow | generate_report_pdf.ts:93-96 | the record loop's page breaks and final cursor are those of `PageBudget.Flow`; the same at line 106 |
| Pagination.RowStepTexts | generate_report_pdf.ts:94-95 | one record adds exactly its cells to the printed text |
| Pagination.TableRowsTexts | generate_report_pdf.ts:93-96 | every record is printed exactly once, in input order; the same at line 106 |
| Pagination.RowStepPages | generate_report_pdf.ts:94-95 | a record keeps every continuation page holding only record text |
| Pagination.EnsureSpaceContinuations | generate_report_pdf.ts:63-64 | a page break adds a page holding the header band only |
| Pagination.AppendContinuations | generate_report_pdf.ts:95 | record cells drawn on a continuation page leave it holding the header band and record cells only; the same at line 106 |
| Pagination.TableRowsPages | generate_report_pdf.ts:92-96 | pages started by the record loop hold the header band and record cells only, never the column-header row, and earlier pages are kept; the same at line 106 |
| Pagination.ContinuationRowInBand | generate_report_pdf.ts:61-68 | the first record after a break is printed inside the header band of its page, because the cursor restarts at `H-40`; the record is drawn at lines 94-95 |
| Sections.Kpis | generate_report_pdf.ts:79-86 | the KPI cards add no page |
| Sections.CardOps | generate_report_pdf.ts:79 | `drawKpi` draws a `CardWidth` x 55 box at column `col` and row `row` of the grid, then the title and, below it, the value, both 8 units in from the box's left edge |
| Sections.KpiOps | generate_report_pdf.ts:80-85 | the first `n` cards are three draw commands each |
| Sections.KpiCardsFit | generate_report_pdf.ts:79-86 | from a cursor between 120 above the margin and the band, every card lies inside the page, below the band and above the margin, and the cards print each title then its value, in order |
| Sections.KpiCardsInside | generate_report_pdf.ts:76-86 | every card rectangle lies inside the page, below the band and above the margin |
| Sections.KpiCardsTexts | generate_report_pdf.ts:76-86 | the cards print each title, then its value, in card order |
| Sections.KpiCardsFitFirstPage | generate_report_pdf.ts:76-86 | on the first page three card widths are the page width less 80; with the two 10-unit gaps the grid runs from 40 units from the left edge to 20 units from the right edge, and every card fits |
| Sections.SummaryTable | generate_report_pdf.ts:93-95 | one row of seven cells per summary record |
| Sections.DetailTable | generate_report_pdf.ts:106 | one row of eight cells per detail record |
| Sections.Summary | generate_report_pdf.ts:89-97 | the summary section never removes a page |
| Sections.Detail | generate_report_pdf.ts:106 | an absent or empty detail list leaves the document and cursor untouched |
| Sections.TableHeadTexts | generate_report_pdf.ts:90-92 | a table head prints its title and then its column labels; the same at line 106 |
| Sections.TableHeadPages | generate_report_pdf.ts:90-92 | a table head adds no page, keeps earlier pages and the header first; the same at line 106 |
| Sections.SummaryTexts | generate_report_pdf.ts:89-97 | the summary prints its title, the labels, then every record's cells once, in order |
| Sections.DetailTexts | generate_report_pdf.ts:106 | the detail section prints nothing when the list is absent or empty, else its title, the labels and every record once, in order |
| Sections.SummaryPages | generate_report_pdf.ts:89-97 | the summary keeps earlier pages and every page starting with the header |
| Sections.DetailPages | generate_report_pdf.ts:106 | as `SummaryPages`, for the detail table |
| Sections.Callout | generate_report_pdf.ts:100 | a call-out never removes a page |
| Sections.Feedback | generate_report_pdf.ts:100 | absent or empty feedback leaves the document and cursor untouched |
| Sections.Callouts | generate_report_pdf.ts:100 | the comment loop never removes a page |
| Sections.ShownComments | generate_report_pdf.ts:100 | the comments that are drawn: each has text, and a comment is among them exactly when it is in the list and has text |
| Sections.ShownCommentsConcat | generate_report_pdf.ts:100 | the filter keeps order: the drawn comments of `a + b` are those of `a`, then those of `b` |
| Sections.CalloutsSkipEmpty | generate_report_pdf.ts:100 | a comment without text consumes nothing: the call-outs of a list are those of its comments with text, breaks and cursor included |
| Sections.CalloutsFlow | generate_report_pdf.ts:100 | the call-outs' page breaks and final cursor are `PageBudget.Flow` with check 50 and step 45, counting only comments with text |
| Sections.CalloutStepTexts | generate_report_pdf.ts:100 | one comment prints its markup-stripped text when it has text, else nothing |
| Sections.CalloutStepPages | generate_report_pdf.ts:100 | one call-out keeps earlier pages and the header first |
| Sections.CalloutsTexts | generate_report_pdf.ts:100 | the call-outs print every comment with text once, in order |
| Sections.CalloutsPages | generate_report_pdf.ts:100 | the call-outs keep earlier pages and the header first |
| Sections.FeedbackTexts | generate_report_pdf.ts:100 | feedback prints nothing when the list is absent or empty, else its title and the comments with text, in order |
| Sections.FeedbackPages | generate_report_pdf.ts:100 | feedback keeps earlier pages and the header first |
| Sections.PhotoStep | generate_report_pdf.ts:103 | one photo never removes a page |
| Sections.PhotoGrid | generate_report_pdf.ts:103 | the photo loop never removes a page |
| Sections.Photos | generate_report_pdf.ts:103 | an absent or empty photo list leaves the document and cursor untouched |
| Sections.PhotoGridCounters | generate_report_pdf.ts:103 | after `n` photos `col` is the start column plus `n`, modulo 4, whether or not each image loaded; after at least one photo `rowTop >= 100` |
| Sections.PhotoStepRows | generate_report_pdf.ts:103 | within a row `rowTop` and `y` stay put; after the fourth column `rowTop` drops by 100 while that keeps it at or above 100 |
| Sections.PhotoGridStaysOnPage | generate_report_pdf.ts:103 | with `y` at least 100 above the margin, the grid adds no page and leaves `y` unchanged: its `ensureSpace(100)` never fires |
| Sections.PhotoRowWrapsInPlace | generate_report_pdf.ts:103 | a row that would end below 100 restarts at `y` on the same page instead of on a new page |
| Sections.PhotoGridGeometry | generate_report_pdf.ts:103 | the grid's positions and page breaks do not depend on which images loaded |
| Sections.PhotoDrawn | generate_report_pdf.ts:103 | drawing a thumbnail moves neither the cursor nor the page |
| Sections.PhotoStepImages | generate_report_pdf.ts:103 | one photo adds its image at `x = 40+col*100` exactly when it loaded |
| Sections.PhotoStepTexts | generate_report_pdf.ts:103 | a photo prints no text |
| Sections.PhotoStepPages | generate_report_pdf.ts:103 | a photo keeps earlier pages and the header first |
| Sections.PhotoGridImages | generate_report_pdf.ts:103 | the grid draws every loaded photo once, in order, at `x = 40+((col+i) mod 4)*100` |
| Sections.PhotoGridTexts | generate_report_pdf.ts:103 | the grid prints no text |
| Sections.PhotoGridPages | generate_report_pdf.ts:103 | the grid keeps earlier pages and the header first |
| Sections.PhotosAddAtMostOnePage | generate_report_pdf.ts:103 | the gallery adds at most the one page its own `ensureSpace(120)` starts, however many photos there are, and leaves `y = rowTop-100 >= 0` |
| Sections.PhotosTexts | generate_report_pdf.ts:103 | the gallery prints its title, and only when it has photos |
| Sections.PhotosImages | generate_report_pdf.ts:103 | the gallery draws exactly the loaded images, in order, from column 0 |
| Sections.PhotosPages | generate_report_pdf.ts:103 | the gallery keeps earlier pages and the header first |
| ReportPdf.KpisTexts | generate_report_pdf.ts:79-86 | the KPI cards print each title and then its value, card by card, in order |
| ReportPdf.KpisPages | generate_report_pdf.ts:79-86 | the KPI cards stay on the current page, keep earlier pages and keep the header first on every page |
| ReportPdf.Generate | generate_report_pdf.ts:59-107 | the report has at least one page |
| ReportPdf.GenerateTexts | generate_report_pdf.ts:59-107 | the whole report prints exactly the reading order computed from the input: the cards, the summary and its records, the comments with text, the gallery title and the detail records, each section only when drawn; the header band's own texts belong to the `Header` command and are not among these texts |
| ReportPdf.GenerateFramed | generate_report_pdf.ts:59-107 | the report has at least one page and every page starts with the header band |
| ReportPdf.EmptySummaryOnFirstPage | generate_report_pdf.ts:89-97 | an empty summary on the first page draws its title and header row at the KPI cursor, with no break |
| ReportPdf.BareReport | generate_report_pdf.ts:59-97 | with every list empty the report is exactly one page: header, six cards, summary title and column headers |
| ReportPdf.SummaryOnlyPageCount | generate_report_pdf.ts:88-97 | with only summary rows, `n` rows take one page when `n <= 16`, else `2 + (n-17)/35` pages |
| Renderer.Layout.constructor | generate_report_pdf.ts:59-61 | the first page is empty and the cursor at `H-40` |
| Renderer.Layout.Draw | generate_report_pdf.ts:68-106 | commands go onto the current page only and the cursor stays |
| Renderer.Layout.DrawHeader | generate_report_pdf.ts:67-71 | the header band is drawn on the current page |
| Renderer.Layout.NewPage | generate_report_pdf.ts:63 | the state becomes `Pagination.NewPage` of the old one: a page holding only the header, cursor at 555 |
| Renderer.Layout.EnsureSpace | generate_report_pdf.ts:64 | the state becomes `Pagination.EnsureSpace` of the old one |
| Renderer.Layout.DrawCells | generate_report_pdf.ts:95 | the cell loop with its `x` accumulator draws `Pagination.CellOps` of the record; the same at line 106 |
| Renderer.Layout.DrawColumnHeaders | generate_report_pdf.ts:92 | the column-header loop draws `Pagination.ColumnHeaderOps` of the labels; the same at line 106 |
| Renderer.Layout.DrawRow | generate_report_pdf.ts:94-95 | one record leaves `Pagination.RowStep` of the old state; the same at line 106 |
| Renderer.Layout.DrawRows | generate_report_pdf.ts:93-96 | the record loop leaves `Pagination.TableRows` of the old state; the same at line 106 |
| Renderer.Layout.DrawKpi | generate_report_pdf.ts:79 | `drawKpi` draws `Sections.CardOps` of the card |
| Renderer.Layout.DrawKpis | generate_report_pdf.ts:80-86 | the six cards and `y -= 150` leave `Sections.Kpis` of the old state |
| Renderer.Layout.DrawTableHead | generate_report_pdf.ts:90-92 | title and column headers, cursor down by both; the same at line 106 |
| Renderer.Layout.DrawSummary | generate_report_pdf.ts:89-97 | leaves `Sections.Summary` of the old state |
| Renderer.Layout.DrawCallout | generate_report_pdf.ts:100 | leaves `Sections.Callout` of the old state |
| Renderer.Layout.DrawCallouts | generate_report_pdf.ts:100 | the comment loop leaves `Sections.Callouts` of the old state |
| Renderer.Layout.DrawFeedback | generate_report_pdf.ts:100 | leaves `Sections.Feedback` of the old state |
| Renderer.Layout.DrawPhoto | generate_report_pdf.ts:103 | one photo of the loop leaves `Sections.PhotoStep` of the old grid |
| Renderer.Layout.DrawPhotos | generate_report_pdf.ts:103 | the photo loop with `col` and `rowTop` leaves `Sections.Photos` of the old state |
| Renderer.Layout.DrawDetail | generate_report_pdf.ts:106 | leaves `Sections.Detail` of the old state |
| Renderer.GenerateReportPdf | generate_report_pdf.ts:59-107 | the pages drawn in place are exactly `ReportPdf.Generate` of the input |

## Left out

- HTTP handling is not modelled: the `POST` check (405), the missing-body check (400), the `reportJsonParam` unwrapping, the response headers and the 500 on an exception (lines 47-50, 127-129). They concern transport, not layout.
- The serialising of the document (`pdf.save`) is not modelled, nor is the branch that uploads a result over 9 MB to Cloud Storage and returns a signed URL (lines 109-125). These are external services.
- pdf-lib itself, the fonts, font sizes and colours are not modelled. A draw command keeps only its position, size and content.
- `fetchBytes` and image decoding are not modelled. Each photo carries a `loaded` flag saying whether its bytes were fetched and embedded. The loop awaits each fetch in order, so the flags are taken in list order.
- The logo is not modelled. Its fetch in `drawHeader` (line 72) is never awaited, and it draws on whatever page is current when it resolves, so its placement depends on timing.
- Canvas.Header stands for the band rectangle and its three texts as one command, including the `Date: ` prefix.
- Formatting.FmtDate: dayjs's `MMM D, YYYY` text is not modelled. It returns the parsed fields (`Calendar(m, d, y)`) or `Today` (the clock is not read). JavaScript's `Date` roll-over of an out-of-range month or day is not applied to those fields.
- Text.ParseNumber handles `Number()` only for optional white space, an optional sign and decimal digits. Fractions, exponents, hexadecimal and `Infinity` are read as NaN, although JavaScript reads them as numbers.
- Formatting.ConversionText takes the conversion ratio in whole thousandths. Ratios with finer digits and `toFixed`'s binary rounding are not modelled.
- Wrapping of a call-out's text at `maxWidth` is not modelled. A call-out prints its stripped comment as a single text (`Stripped`, which stands for `Markup.StripHtml` of the comment).
- Markup.StripHtml treats as white space the characters JavaScript's `\s` matches, and `trim()` uses the same set. Regular expressions are modelled only for the nine patterns the function uses.
- Sections.Photos: the gallery's `ensureSpace(100)` checks run as written and never fire, so no gallery row is moved to a new page (see above).
- Concurrency is not modelled: the logo's `then` callback may run during a later `await`.
