# Invoice history view: filter, CSV export and view state

This project models the logic inside the admin panel's invoice-history
view (`src/pages/Admin-Panel/InvoiceHistory.jsx`) and proves properties of it:

- the `visible` filter over the fetched invoices (sent-only toggle plus a
  case-insensitive search over serial, contact e-mail, authorizer name and
  product descriptions);
- the CSV text `exportCSV` builds: a fixed 12-column header, one row per
  invoice, every cell quoted as in section 2 of RFC 4180;
- the `short` truncation helper;
- the view's state (`invoices`, `loading`, `error`, `search`,
  `showSentOnly`, `selected`, `modalOpen`) and the handlers that change it:
  the synchronous parts of `fetchInvoices`, the search box, the toggle,
  `openDetails` and `closeModal`.

Modules, leaf first: `Wrappers` (Option), `Text` (trim, lower-case,
includes), `Invoices` (the records), `Filter`, `Csv` (the writer),
`CsvReader` (a reader for fully quoted CSV, the inverse that the export's
round trip is stated against), `Format` (`short`) and `View` (the component
state as a class).

Abstractions:

- A text field the record lacks is `""`, which is how every `x || ""` in
  the view reads it. `grandTotal` is read with `??`, so it is
  `Option<string>` holding the text `String(amount)` would give. A present
  `0` is `Some("0")` and is kept.
- `toLowerCase` maps only the ASCII letters A-Z. `trim` removes exactly the
  ECMAScript white-space and line-terminator characters.
- Strings are sequences of code points.
- The record's `id` field stands for `_id`, which the view uses only as a
  React list key (lines 250, 315) and never reads otherwise.
- The network request is not modelled. `fetchInvoices` receives what the
  request settled with, as a `FetchOutcome`.

With standard CSV quoting, an address `He said "hi"` would be written as
`He said ""hi""`. The code escapes the address twice, once at line 125 and
again at line 135, so the file holds `He said """"hi""""`. The model
follows the code: `Csv.CsvText` and `Csv.ExportCsv` produce the doubly
escaped text. An export of N invoices always has N + 1 CSV records. When no
field contains a line break it also has exactly N + 1 line breaks
(`Csv.CsvTextLineCount`); quoted fields keep their own line breaks unchanged,
so a field that holds one adds to the count.

## Model

| member | source | states |
|---|---|---|
| `Text.LowerChar` | src/pages/Admin-Panel/InvoiceHistory.jsx:87 | the lower-cased character is never an upper-case letter; A-Z move by 32, every other character is unchanged; white space is preserved both ways |
| `Text.Lower` | src/pages/Admin-Panel/InvoiceHistory.jsx:92-96 | `toLowerCase` keeps the length and lower-cases each position |
| `Text.TrimStart` | src/pages/Admin-Panel/InvoiceHistory.jsx:87 | the result is a suffix of the input, everything cut is white space, and it does not start with white space |
| `Text.TrimEnd` | src/pages/Admin-Panel/InvoiceHistory.jsx:87 | the result is a prefix of the input, everything cut is white space, and it does not end with white space |
| `Text.Trim` | src/pages/Admin-Panel/InvoiceHistory.jsx:87 | `trim` never lengthens the text, and a non-empty result neither starts nor ends with white space (`Text.TrimIsSlice` adds that it is a contiguous slice of the input) |
| `Text.TrimIsSlice` | src/pages/Admin-Panel/InvoiceHistory.jsx:87 | `trim` returns a contiguous slice of its input, only white space is removed on either side, and the result neither starts nor ends with white space |
| `Text.TrimEmptyIff` | src/pages/Admin-Panel/InvoiceHistory.jsx:87-90 | a query trims to empty exactly when it is all white space |
| `Text.LowerTrimStart` | src/pages/Admin-Panel/InvoiceHistory.jsx:87 | lower-casing commutes with removing leading white space |
| `Text.LowerTrimEnd` | src/pages/Admin-Panel/InvoiceHistory.jsx:87 | lower-casing commutes with removing trailing white space |
| `Text.LowerTrimCommute` | src/pages/Admin-Panel/InvoiceHistory.jsx:87 | `trim().toLowerCase()` equals `toLowerCase().trim()` |
| `Text.Contains` | src/pages/Admin-Panel/InvoiceHistory.jsx:92-96 | `includes` finds the empty needle in every text and never finds a needle longer than the text; `Text.ContainsIffOccurs` gives its full meaning |
| `Text.ContainsIffOccurs` | src/pages/Admin-Panel/InvoiceHistory.jsx:92-96 | `includes` holds exactly when the needle occurs at some offset of the text (the empty needle is found everywhere) |
| `Filter.Normalize` | src/pages/Admin-Panel/InvoiceHistory.jsx:87 | the query the filter uses is no longer than the search text, holds no upper-case letter, and neither starts nor ends with white space |
| `Filter.SentAllowed` | src/pages/Admin-Panel/InvoiceHistory.jsx:89 | the sent-only test; `Filter.Visible` ensures that with the toggle on every visible invoice was sent, and `Filter.SearchSemantics` and `Filter.KeepIsToggleAndSearch` use it as the toggle half of the filter |
| `Filter.SearchHit` | src/pages/Admin-Panel/InvoiceHistory.jsx:91-98 | the empty query matches every invoice; with a non-empty one the match is stated by `Filter.SearchSemantics` |
| `Filter.AnyDescription` | src/pages/Admin-Panel/InvoiceHistory.jsx:95-97 | the `some` over the products; what it means is stated by `Filter.AnyDescriptionIff` |
| `Filter.Keep` | src/pages/Admin-Panel/InvoiceHistory.jsx:88-99 | the filter callback; `Filter.KeepIsToggleAndSearch` and `Filter.SearchSemantics` state what it accepts |
| `Filter.KeepIsToggleAndSearch` | src/pages/Admin-Panel/InvoiceHistory.jsx:88-98 | the early `return true` for an empty query agrees with the search itself: an invoice passes exactly when it passes the toggle and the search |
| `Filter.Kept` | src/pages/Admin-Panel/InvoiceHistory.jsx:88-99 | the filtered list is no longer than the input, and each kept invoice is from the input and passes the filter callback |
| `Filter.Visible` | src/pages/Admin-Panel/InvoiceHistory.jsx:86-100 | every visible invoice is a fetched one; with the sent-only toggle on, every visible invoice was sent by e-mail |
| `Filter.KeptOrder` | src/pages/Admin-Panel/InvoiceHistory.jsx:88-99 | the filter result is the input read at an increasing list of positions, and these are exactly the positions whose invoice passes |
| `Filter.VisibleOrder` | src/pages/Admin-Panel/InvoiceHistory.jsx:86-100 | `visible` is an order-preserving subsequence of `invoices` made of exactly the invoices that pass the toggle and the search |
| `Filter.KeptMembers` | src/pages/Admin-Panel/InvoiceHistory.jsx:88-99 | an invoice is in the result exactly when it is in the input and passes the filter |
| `Filter.KeptAll` | src/pages/Admin-Panel/InvoiceHistory.jsx:88-90 | when every invoice passes, the filter returns its input unchanged |
| `Filter.VisibleIdentity` | src/pages/Admin-Panel/InvoiceHistory.jsx:87-90 | a search of only white space (or none) with the toggle off shows the fetched list exactly |
| `Filter.BlankSearchIsEmpty` | src/pages/Admin-Panel/InvoiceHistory.jsx:87-90 | a search of only white space normalises to the empty query |
| `Filter.AnyDescriptionIff` | src/pages/Admin-Panel/InvoiceHistory.jsx:95-97 | the `some` over products holds exactly when the query occurs in some lower-cased description |
| `Filter.SearchSemantics` | src/pages/Admin-Panel/InvoiceHistory.jsx:87-97 | with a non-blank query, an invoice passes exactly when it passes the toggle and the normalised query occurs in its lower-cased serial, contact e-mail, authorizer name or some product description |
| `Filter.NormalizeByLower` | src/pages/Admin-Panel/InvoiceHistory.jsx:87 | the normalised query depends on the search text only through its lower-cased form |
| `Filter.CaseInsensitive` | src/pages/Admin-Panel/InvoiceHistory.jsx:87-97 | two searches with the same lower-cased text show the same invoices |
| `Csv.HeaderColumns` | src/pages/Admin-Panel/InvoiceHistory.jsx:104-117 | the header has 12 names, and the column positions the lemmas read are those of Serial, GrandTotal, Address and SentViaEmail |
| `Csv.EscapeQuotes` | src/pages/Admin-Panel/InvoiceHistory.jsx:125 | `replaceAll('"', '""')` adds one character per quote, doubles the number of quotes and keeps the count of every other character |
| `Csv.Quote` | src/pages/Admin-Panel/InvoiceHistory.jsx:135 | a quoted cell is at least two characters long and starts and ends with a double quote; `CsvReader.ReadFieldQuoted` proves it reads back as the cell text |
| `Csv.QuoteAll` | src/pages/Admin-Panel/InvoiceHistory.jsx:135 | one quoted cell per cell, in order: cell k becomes the quoted form of cell k |
| `Csv.Join` | src/pages/Admin-Panel/InvoiceHistory.jsx:135-137 | `join` itself; its shape (first part, separator, join of the rest) is stated by `Csv.RecordCons` and `Csv.DocumentCons` |
| `Csv.Record` | src/pages/Admin-Panel/InvoiceHistory.jsx:135 | one record of the file; `CsvReader.ReadRecordRoundTrip` proves it reads back as its cells and `Csv.RecordOnOneLine` that it holds no line break of its own |
| `Csv.Records` | src/pages/Admin-Panel/InvoiceHistory.jsx:134-136 | one record per row, in order: record k is the record of row k |
| `Csv.RecordCons` | src/pages/Admin-Panel/InvoiceHistory.jsx:135 | a record of several cells is the first quoted cell, ",", and the record of the remaining cells |
| `Csv.DocumentCons` | src/pages/Admin-Panel/InvoiceHistory.jsx:137 | the text of several records is the first record, a line break, and the text of the remaining records |
| `Csv.Document` | src/pages/Admin-Panel/InvoiceHistory.jsx:132-137 | the file text is never empty and ends with a line break |
| `Csv.RowCells` | src/pages/Admin-Panel/InvoiceHistory.jsx:118-131 | each row has as many cells as the header |
| `Csv.Rows` | src/pages/Admin-Panel/InvoiceHistory.jsx:118-131 | one row per invoice, in list order |
| `Csv.SentCell` | src/pages/Admin-Panel/InvoiceHistory.jsx:126 | the SentViaEmail cell is "Yes" exactly for a sent invoice and "No" exactly for one not sent |
| `Csv.CsvText` | src/pages/Admin-Panel/InvoiceHistory.jsx:132-137 | the export text ends with a line break; `CsvReader.CsvTextRoundTrip` proves it reads back as the header and one row per invoice, and `Csv.CsvTextLineCount` counts its line breaks |
| `Csv.ExportCsv` | src/pages/Admin-Panel/InvoiceHistory.jsx:102-103 | the export does nothing exactly when the list is empty, and otherwise produces the CSV text of the list |
| `Csv.CsvTextLineCount` | src/pages/Admin-Panel/InvoiceHistory.jsx:132-137 | when no field holds a line break, the text of N invoices has exactly N + 1 line breaks |
| `Csv.HeaderOnOneLine` | src/pages/Admin-Panel/InvoiceHistory.jsx:104-117 | no header name holds a line break |
| `Csv.SingleEscapeRowCells` | src/pages/Admin-Panel/InvoiceHistory.jsx:125 | the corrected row holds the raw address and agrees with the written row in every other column |
| `Csv.SingleEscapeRows` | src/pages/Admin-Panel/InvoiceHistory.jsx:118-131 | one corrected row per invoice, in list order |
| `Csv.CsvTextSingleEscape` | src/pages/Admin-Panel/InvoiceHistory.jsx:118-137 | the export text with the address escaped once; `CsvReader.SingleEscapeTextRoundTrip` and `CsvReader.SingleEscapeRoundTrip` prove it reads back as the header and the invoices' cells unchanged, address included |
| `CsvReader.ReadQuotedEscaped` | src/pages/Admin-Panel/InvoiceHistory.jsx:135 | the escaped cell text followed by a closing quote reads back as the cell text |
| `CsvReader.ReadFieldQuoted` | src/pages/Admin-Panel/InvoiceHistory.jsx:135 | every quoted cell reads back as its text, whatever non-quote character follows it |
| `CsvReader.ReadRecordRoundTrip` | src/pages/Admin-Panel/InvoiceHistory.jsx:134-136 | a line of quoted cells joined by "," reads back as exactly those cells |
| `CsvReader.ReadDocumentRoundTrip` | src/pages/Admin-Panel/InvoiceHistory.jsx:132-137 | a file of non-empty records joined by "\n" with a closing "\n" reads back as exactly those records |
| `CsvReader.CsvTextRoundTrip` | src/pages/Admin-Panel/InvoiceHistory.jsx:103-137 | the export reads back as the header record followed by one row per invoice in list order |
| `CsvReader.ExportedFields` | src/pages/Admin-Panel/InvoiceHistory.jsx:119-130 | in the read-back export there are N + 1 records and the first is the header. The serial comes back as it was, an absent grand total as "" and a present one as its text. SentViaEmail is "Yes" exactly for a sent invoice and "No" otherwise. The address comes back with its quotes doubled |
| `CsvReader.RowFieldRules` | src/pages/Admin-Panel/InvoiceHistory.jsx:119-130 | the per-field defaulting of one row: serial, `??` on the grand total, the Yes/No cell and the pre-escaped address |
| `CsvReader.AddressNotRoundTripped` | src/pages/Admin-Panel/InvoiceHistory.jsx:125 | an address of one double quote reads back from the export as two double quotes |
| `CsvReader.AddressQuoteWritten` | src/pages/Admin-Panel/InvoiceHistory.jsx:125 | the address cell of an address `"` is written as six quote characters |
| `CsvReader.AddressQuotesWritten` | src/pages/Admin-Panel/InvoiceHistory.jsx:125-135 | as written, every double quote of an address becomes four double quotes in the file, plus the two delimiting the cell |
| `CsvReader.AddressQuotesWrittenOnce` | src/pages/Admin-Panel/InvoiceHistory.jsx:125-135 | escaped once, every double quote of an address becomes two double quotes in the file, plus the two delimiting the cell |
| `CsvReader.SingleEscapeTextRoundTrip` | src/pages/Admin-Panel/InvoiceHistory.jsx:118-137 | with the address escaped once, the text reads back as the header followed by the corrected rows |
| `CsvReader.SingleEscapeRoundTrip` | src/pages/Admin-Panel/InvoiceHistory.jsx:125 | with the address escaped once, every invoice's cells read back unchanged, address included |
| `Format.Short` | src/pages/Admin-Panel/InvoiceHistory.jsx:43 | a text of at most `n` characters is returned unchanged; a longer one becomes its first `n` characters followed by "...", `n + 3` characters in all |
| `Format.ShortKeepsPrefix` | src/pages/Admin-Panel/InvoiceHistory.jsx:43 | the result starts with as much of the text as fits and is at most `n + 3` long |
| `Format.ShortIdempotent` | src/pages/Admin-Panel/InvoiceHistory.jsx:43 | shortening an already shortened text with the same bound changes nothing |
| `View.LoadedInvoices` | src/pages/Admin-Panel/InvoiceHistory.jsx:70 | a response's `data` becomes the list, and a missing `data` becomes the empty list |
| `View.ErrorMessage` | src/pages/Admin-Panel/InvoiceHistory.jsx:73-75 | the banner text is never empty: the server's message when it is present and non-empty, otherwise "Unable to load invoice history" |
| `View.InvoiceHistory.constructor` | src/pages/Admin-Panel/InvoiceHistory.jsx:46-52 | the initial state: no invoices, not loading, no error, empty search, toggle off, nothing selected, modal closed |
| `View.InvoiceHistory.Visible` | src/pages/Admin-Panel/InvoiceHistory.jsx:86-100 | the listed invoices are fetched ones, no more of them than were fetched, and all sent by e-mail while the toggle is on |
| `View.InvoiceHistory.ModalShown` | src/pages/Admin-Panel/InvoiceHistory.jsx:364 | the dialog condition; `View.InvoiceHistory.OpenDetails` ensures it holds after opening and `View.InvoiceHistory.CloseModal` that it fails after closing |
| `View.InvoiceHistory.Screen` | src/pages/Admin-Panel/InvoiceHistory.jsx:217-222 | the spinner shows exactly while loading; the error banner shows exactly when not loading and there is an error, and it shows the error text; otherwise the visible list shows |
| `View.InvoiceHistory.SetSearch` | src/pages/Admin-Panel/InvoiceHistory.jsx:171 | typing replaces the search text and nothing else |
| `View.InvoiceHistory.ToggleSentOnly` | src/pages/Admin-Panel/InvoiceHistory.jsx:180-182 | the button flips the sent-only toggle and nothing else |
| `View.InvoiceHistory.BeginFetch` | src/pages/Admin-Panel/InvoiceHistory.jsx:59-60 | a fetch starts by turning loading on and clearing the error, so the spinner shows |
| `View.InvoiceHistory.SettleFetch` | src/pages/Admin-Panel/InvoiceHistory.jsx:70-78 | a response replaces the whole list; a failure keeps the list and sets the message; loading ends on both paths |
| `View.InvoiceHistory.FetchInvoices` | src/pages/Admin-Panel/InvoiceHistory.jsx:58-79 | after a fetch, loading is off. A response leaves no error and shows the loaded list. A failure keeps the earlier list and shows the server message or the fallback. Search, toggle and modal are untouched |
| `View.InvoiceHistory.OpenDetails` | src/pages/Admin-Panel/InvoiceHistory.jsx:150-153 | opening selects the given invoice (replacing any earlier one) and shows the modal |
| `View.InvoiceHistory.CloseModal` | src/pages/Admin-Panel/InvoiceHistory.jsx:155-158 | closing clears the selection and the open flag, so the modal is not shown |
| `View.InvoiceHistory.ExportVisible` | src/pages/Admin-Panel/InvoiceHistory.jsx:102-103 | the toolbar export does nothing exactly when nothing is visible, and otherwise produces the CSV text of the visible list |
| `View.InvoiceHistory.ExportSelected` | src/pages/Admin-Panel/InvoiceHistory.jsx:399 | the dialog's export always produces the one-row CSV text of the selected invoice |
| `View.OneSentInvoice` | src/pages/Admin-Panel/InvoiceHistory.jsx:86-137 | one fetched invoice that was sent, with a blank search and the toggle off, is listed. Its export reads back as two records, and the second has "Yes" under SentViaEmail |
| `View.OneSentExport` | src/pages/Admin-Panel/InvoiceHistory.jsx:118-137 | the export of one sent invoice reads back as two records, and the second has "Yes" under SentViaEmail |
| `View.OneLineExport` | src/pages/Admin-Panel/InvoiceHistory.jsx:132-137 | the export of one invoice whose fields hold no line break has exactly two line breaks |
| `View.FirstLoadOneSent` | src/pages/Admin-Panel/InvoiceHistory.jsx:46-137 | a fresh view that fetches one sent invoice lists exactly it; its toolbar export reads back with "Yes" under SentViaEmail and has two line breaks when no field holds one |

## Left out

- `dateFmt` and `moneyFmt` (lines 15-41): they wrap `Intl.DateTimeFormat`, `Intl.NumberFormat` and `Date`, whose output depends on the locale.
- The request itself (lines 54-69): the axios call, its headers, `localStorage` and `import.meta.env` are I/O. Their result enters as a `FetchOutcome`.
- `console.error` on a failed fetch (line 72): logging to the host console.
- The download (lines 138-147): the Blob, the object URL, the anchor element and the timestamped file name built from `new Date()` are host side effects.
- Copying the serial to the clipboard and `window.print` (lines 405-411, 492-500): foreign calls.
- The per-line product total and the conversion of a numeric `grandTotal` to text (lines 121, 135, 441): JavaScript floating point. `grandTotal` enters as text.
- Rendering, animation, and the scheduling of `useMemo` and `useEffect`: presentation. The initial fetch on mount and the race between overlapping refreshes are not modelled. `FetchInvoices` models one fetch from start to settlement.
- Full Unicode case mapping in `toLowerCase`: only A-Z are lower-cased.
- UTF-16 code units: `short` and `slice` count UTF-16 code units in JavaScript. The model counts code points, so the two agree only on text without astral characters.
- Field values that are not text, such as a numeric serial: the model types every text field as a string.
- `Format.Short`: negative `n` is not modelled. `slice` with a negative bound counts from the end, and the view calls `short` only once, with 120 (line 330); 80 is the unused default.
- `Csv.CsvTextLineCount`: it is stated only for invoices whose fields contain no line break. A line break inside a quoted field is kept as it is, so the physical line count is then higher. The record count stays N + 1 in every case (`CsvReader.CsvTextRoundTrip`).

## Findings

| source | as written | input that shows it | evidently intended | confidence | as-written member | corrected member |
|---|---|---|---|---|---|---|
| src/pages/Admin-Panel/InvoiceHistory.jsx:125 | the address is escaped with `replaceAll('"', '""')` while the row is built, and again when every cell is quoted at line 135 | an invoice whose address is `"` is written as `""""""`, which a CSV reader reads back as `""` | the address reads back as the invoice's address, like every other column | not executed; high | `CsvReader.AddressNotRoundTripped` | `CsvReader.SingleEscapeRoundTrip` |

The view's export (`Csv.ExportCsv`, `View.InvoiceHistory.ExportVisible`)
keeps the code's double escape, because it models the shipped behaviour. The
corrected text is `Csv.CsvTextSingleEscape`, built from
`Csv.SingleEscapeRowCells`.
