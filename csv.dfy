/**
 * The text `exportCSV` builds before handing it to the download: a fixed
 * header record, then one record per invoice, every cell quoted as in
 * section 2 of RFC 4180 (the cell between double quotes, each inner double
 * quote doubled), cells separated by ",", records by "\n", and a final "\n".
 *
 * As the view is written, the address cell is escaped twice: once while the
 * row is built and again when every cell is quoted.
 */
module Csv {
  import opened Wrappers
  import opened Invoices

  const Header: seq<string> := [
    "Serial", "IssueDate", "GrandTotal", "AuthorizerName", "ContactEmail", "ContactPhone",
    "Address", "SentViaEmail", "SentAt", "DownloadedAt", "CreatedAt", "UpdatedAt"
  ]

  /** Column positions used by the lemmas. */
  const SerialColumn := 0
  const GrandTotalColumn := 2
  const AddressColumn := 6
  const SentColumn := 7

  /** The column positions the lemmas use name the right header columns. */
  lemma HeaderColumns()
    ensures |Header| == 12
    ensures Header[SerialColumn] == "Serial" && Header[GrandTotalColumn] == "GrandTotal"
    ensures Header[AddressColumn] == "Address" && Header[SentColumn] == "SentViaEmail"
  {
  }

  /** Occurrences of `c` in `s`. */
  function Count(s: string, c: char): nat
    decreases |s|
  {
    if s == [] then 0 else (if s[0] == c then 1 else 0) + Count(s[1..], c)
  }

  /** Doubles every double quote. */
  function EscapeQuotes(s: string): (r: string)
    ensures |r| == |s| + Count(s, '"')
    ensures Count(r, '"') == 2 * Count(s, '"')
    ensures forall c :: c != '"' ==> Count(r, c) == Count(s, c)
    decreases |s|
  {
    if s == [] then []
    else (if s[0] == '"' then "\"\"" else [s[0]]) + EscapeQuotes(s[1..])
  }

  /** One quoted cell: a double quote, the escaped text, a double quote. */
  function Quote(c: string): (r: string)
    ensures |r| >= 2 && r[0] == '"' && r[|r| - 1] == '"'
  {
    "\"" + EscapeQuotes(c) + "\""
  }

  /** The parts with `sep` between each two of them. */
  function Join(parts: seq<string>, sep: string): (r: string)
    decreases |parts|
  {
    if |parts| == 0 then ""
    else if |parts| == 1 then parts[0]
    else parts[0] + sep + Join(parts[1..], sep)
  }

  function QuoteAll(cells: seq<string>): (r: seq<string>)
    ensures |r| == |cells|
    ensures forall k :: 0 <= k < |cells| ==> r[k] == Quote(cells[k])
    decreases |cells|
  {
    if cells == [] then [] else [Quote(cells[0])] + QuoteAll(cells[1..])
  }

  /** One line of the file: the quoted cells separated by ",". */
  function Record(cells: seq<string>): (r: string)
  {
    Join(QuoteAll(cells), ",")
  }

  function Records(rows: seq<seq<string>>): (r: seq<string>)
    ensures |r| == |rows|
    ensures forall k :: 0 <= k < |rows| ==> r[k] == Record(rows[k])
    decreases |rows|
  {
    if rows == [] then [] else [Record(rows[0])] + Records(rows[1..])
  }

  /** The whole file: records joined by "\n", then a closing "\n". */
  function Document(rows: seq<seq<string>>): (r: string)
    ensures r != [] && r[|r| - 1] == '\n'
  {
    Join(Records(rows), "\n") + "\n"
  }

  /** The SentViaEmail cell. */
  function SentCell(sent: bool): (r: string)
    ensures r == "Yes" <==> sent
    ensures r == "No" <==> !sent
  {
    if sent then "Yes" else "No"
  }

  /** The row as the view builds it; the address is already escaped once here. */
  function RowCells(inv: Invoice): (r: seq<string>)
    ensures |r| == |Header|
  {
    [ inv.serial,
      inv.issueDate,
      inv.grandTotal.GetOr(""),
      inv.authorizerName,
      inv.contactEmail,
      inv.contactPhone,
      EscapeQuotes(inv.address),
      SentCell(inv.sentViaEmail),
      inv.sentAt,
      inv.downloadedAt,
      inv.createdAt,
      inv.updatedAt ]
  }

  function Rows(list: seq<Invoice>): (r: seq<seq<string>>)
    ensures |r| == |list|
    ensures forall k :: 0 <= k < |list| ==> r[k] == RowCells(list[k])
    decreases |list|
  {
    if list == [] then [] else [RowCells(list[0])] + Rows(list[1..])
  }

  /** The CSV text `exportCSV(list)` produces for a non-empty list. */
  function CsvText(list: seq<Invoice>): (r: string)
    ensures r != [] && r[|r| - 1] == '\n'
  {
    Document([Header] + Rows(list))
  }

  /** `exportCSV` returns early on an empty list; otherwise it downloads `CsvText(list)`. */
  function ExportCsv(list: seq<Invoice>): (r: Option<string>)
    ensures r.None? <==> list == []
    ensures r.Some? ==> r.value == CsvText(list)
  {
    if list == [] then None else Some(CsvText(list))
  }

  /** The row with the address escaped only by the cell quoting, as the column is evidently meant. */
  function SingleEscapeRowCells(inv: Invoice): (r: seq<string>)
    ensures |r| == |Header|
    ensures r[AddressColumn] == inv.address
    ensures forall j :: 0 <= j < |r| && j != AddressColumn ==> r[j] == RowCells(inv)[j]
  {
    RowCells(inv)[AddressColumn := inv.address]
  }

  function SingleEscapeRows(list: seq<Invoice>): (r: seq<seq<string>>)
    ensures |r| == |list|
    ensures forall k :: 0 <= k < |list| ==> r[k] == SingleEscapeRowCells(list[k])
    decreases |list|
  {
    if list == [] then [] else [SingleEscapeRowCells(list[0])] + SingleEscapeRows(list[1..])
  }

  /** The export text with the address escaped once. */
  function CsvTextSingleEscape(list: seq<Invoice>): string {
    Document([Header] + SingleEscapeRows(list))
  }

  /** A record of several cells is its first quoted cell, ",", and the record of the rest. */
  lemma RecordCons(cells: seq<string>)
    requires |cells| > 1
    ensures Record(cells) == Quote(cells[0]) + "," + Record(cells[1..])
  {
    assert QuoteAll(cells)[1..] == QuoteAll(cells[1..]);
  }

  /** A document of several records is its first record, "\n", and the document of the rest. */
  lemma DocumentCons(rows: seq<seq<string>>)
    requires |rows| > 1
    ensures Document(rows) == Record(rows[0]) + "\n" + Document(rows[1..])
  {
    assert Records(rows)[1..] == Records(rows[1..]);
  }

  lemma {:induction false} CountConcat(a: string, b: string, c: char)
    ensures Count(a + b, c) == Count(a, c) + Count(b, c)
    decreases |a|
  {
    if a == [] {
      assert a + b == b;
    } else {
      assert (a + b)[1..] == a[1..] + b;
      CountConcat(a[1..], b, c);
    }
  }

  lemma {:induction false} CountZero(s: string, c: char)
    ensures Count(s, c) == 0 <==> c !in s
    decreases |s|
  {
    if s != [] {
      CountZero(s[1..], c);
      assert s == [s[0]] + s[1..];
    }
  }

  /** No cell holds a line break. */
  ghost predicate CellsOnOneLine(cells: seq<string>) {
    forall j :: 0 <= j < |cells| ==> '\n' !in cells[j]
  }

  lemma {:induction false} RecordOnOneLine(cells: seq<string>)
    requires CellsOnOneLine(cells)
    ensures Count(Record(cells), '\n') == 0
    decreases |cells|
  {
    if cells != [] {
      var q := Quote(cells[0]);
      CountZero(cells[0], '\n');
      CountConcat("\"" + EscapeQuotes(cells[0]), "\"", '\n');
      CountConcat("\"", EscapeQuotes(cells[0]), '\n');
      assert Count(q, '\n') == 0;
      if |cells| > 1 {
        RecordCons(cells);
        RecordOnOneLine(cells[1..]);
        CountConcat(q + ",", Record(cells[1..]), '\n');
        CountConcat(q, ",", '\n');
      }
    }
  }

  lemma {:induction false} DocumentLines(rows: seq<seq<string>>)
    requires rows != []
    requires forall k :: 0 <= k < |rows| ==> CellsOnOneLine(rows[k])
    ensures Count(Document(rows), '\n') == |rows|
    decreases |rows|
  {
    RecordOnOneLine(rows[0]);
    if |rows| == 1 {
      CountConcat(Record(rows[0]), "\n", '\n');
    } else {
      DocumentCons(rows);
      DocumentLines(rows[1..]);
      CountConcat(Record(rows[0]) + "\n", Document(rows[1..]), '\n');
      CountConcat(Record(rows[0]), "\n", '\n');
    }
  }

  /** No text field the export reads holds a line break. */
  ghost predicate OnOneLine(inv: Invoice) {
    && '\n' !in inv.serial && '\n' !in inv.issueDate && '\n' !in inv.grandTotal.GetOr("")
    && '\n' !in inv.authorizerName && '\n' !in inv.contactEmail && '\n' !in inv.contactPhone
    && '\n' !in inv.address && '\n' !in inv.sentAt && '\n' !in inv.downloadedAt
    && '\n' !in inv.createdAt && '\n' !in inv.updatedAt
  }

  lemma RowOnOneLine(inv: Invoice)
    requires OnOneLine(inv)
    ensures CellsOnOneLine(RowCells(inv))
  {
    CountZero(inv.address, '\n');
    CountZero(EscapeQuotes(inv.address), '\n');
  }

  lemma DocumentLinesCons(first: seq<string>, rest: seq<seq<string>>)
    requires CellsOnOneLine(first)
    requires forall k :: 0 <= k < |rest| ==> CellsOnOneLine(rest[k])
    ensures Count(Document([first] + rest), '\n') == |rest| + 1
  {
    var rows := [first] + rest;
    assert forall k :: 0 < k < |rows| ==> rows[k] == rest[k - 1];
    DocumentLines(rows);
  }

  /**
   * When no field holds a line break, the text of N invoices has exactly
   * N + 1 line breaks: one closing the header and one closing each row.
   */
  lemma CsvTextLineCount(list: seq<Invoice>)
    requires forall k :: 0 <= k < |list| ==> OnOneLine(list[k])
    ensures Count(CsvText(list), '\n') == |list| + 1
  {
    HeaderOnOneLine();
    RowsOnOneLine(list);
    DocumentLinesCons(Header, Rows(list));
  }

  lemma RowsOnOneLine(list: seq<Invoice>)
    requires forall k :: 0 <= k < |list| ==> OnOneLine(list[k])
    ensures forall k :: 0 <= k < |list| ==> CellsOnOneLine(Rows(list)[k])
  {
    forall k | 0 <= k < |list| ensures CellsOnOneLine(Rows(list)[k]) {
      RowOnOneLine(list[k]);
    }
  }

  lemma HeaderOnOneLine()
    ensures CellsOnOneLine(Header)
  {
    forall j | 0 <= j < |Header| ensures '\n' !in Header[j] {
      assert forall i :: 0 <= i < |Header[j]| ==> Header[j][i] != '\n';
    }
  }
}
