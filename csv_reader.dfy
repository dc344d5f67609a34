/**
 * A reader for CSV text in which every field is quoted (section 2 of
 * RFC 4180, with "\n" as the record terminator). It is the inverse the
 * writer's round-trip is stated against: what a standard CSV reader recovers
 * from the exported file.
 */
module CsvReader {
  import opened Wrappers
  import opened Invoices
  import opened Csv

  /**
   * Reads the inside of a quoted field, `s` starting just after its opening
   * quote: "" stands for one quote, a lone quote closes the field. Gives the
   * field's text and what follows the closing quote.
   */
  function ReadQuoted(s: string): (r: Option<(string, string)>)
    ensures r.Some? ==> |r.value.1| < |s|
    decreases |s|
  {
    if s == [] then None
    else if s[0] == '"' then
      if |s| >= 2 && s[1] == '"' then
        match ReadQuoted(s[2..])
        case None => None
        case Some((c, t)) => Some(("\"" + c, t))
      else Some(([], s[1..]))
    else
      match ReadQuoted(s[1..])
      case None => None
      case Some((c, t)) => Some(([s[0]] + c, t))
  }

  /** Reads one quoted field. */
  function ReadField(s: string): (r: Option<(string, string)>)
    ensures r.Some? ==> |r.value.1| < |s|
  {
    if s != [] && s[0] == '"' then ReadQuoted(s[1..]) else None
  }

  /** Reads the fields of one record up to and including its "\n". */
  function ReadRecord(s: string): (r: Option<(seq<string>, string)>)
    ensures r.Some? ==> |r.value.1| < |s|
    decreases |s|
  {
    match ReadField(s)
    case None => None
    case Some((c, t)) =>
      if t != [] && t[0] == ',' then
        match ReadRecord(t[1..])
        case None => None
        case Some((cs, u)) => Some(([c] + cs, u))
      else if t != [] && t[0] == '\n' then Some(([c], t[1..]))
      else None
  }

  /** Reads a whole file into its records. */
  function ReadCsv(s: string): Option<seq<seq<string>>>
    decreases |s|
  {
    if s == [] then Some([])
    else
      match ReadRecord(s)
      case None => None
      case Some((r, t)) =>
        match ReadCsv(t)
        case None => None
        case Some(rs) => Some([r] + rs)
  }

  lemma {:induction false} ReadQuotedEscaped(c: string, t: string)
    requires t == [] || t[0] != '"'
    ensures ReadQuoted(EscapeQuotes(c) + "\"" + t) == Some((c, t))
    decreases |c|
  {
    if c == [] {
      assert EscapeQuotes(c) + "\"" + t == "\"" + t;
    } else {
      ReadQuotedEscaped(c[1..], t);
      ReadQuotedCons(c, EscapeQuotes(c[1..]) + "\"" + t, t);
    }
  }

  /** One more character in front of a readable escaped rest: a quote doubled, any other as is. */
  lemma ReadQuotedCons(c: string, tail: string, t: string)
    requires c != [] && ReadQuoted(tail) == Some((c[1..], t))
    requires tail == EscapeQuotes(c[1..]) + "\"" + t
    ensures ReadQuoted(EscapeQuotes(c) + "\"" + t) == Some((c, t))
  {
    if c[0] == '"' {
      ReadQuotedQuote(c, tail, t);
    } else {
      ReadQuotedPlain(c, tail, t);
    }
  }

  lemma ReadQuotedQuote(c: string, tail: string, t: string)
    requires c != [] && c[0] == '"' && ReadQuoted(tail) == Some((c[1..], t))
    requires tail == EscapeQuotes(c[1..]) + "\"" + t
    ensures ReadQuoted(EscapeQuotes(c) + "\"" + t) == Some((c, t))
  {
    EscapeQuotesCons(c);
    assert EscapeQuotes(c) + "\"" + t == "\"\"" + tail;
    ReadQuotedPair(tail, c[1..], t);
    assert "\"" + c[1..] == c;
  }

  lemma ReadQuotedPlain(c: string, tail: string, t: string)
    requires c != [] && c[0] != '"' && ReadQuoted(tail) == Some((c[1..], t))
    requires tail == EscapeQuotes(c[1..]) + "\"" + t
    ensures ReadQuoted(EscapeQuotes(c) + "\"" + t) == Some((c, t))
  {
    EscapeQuotesCons(c);
    assert EscapeQuotes(c) + "\"" + t == [c[0]] + tail;
    ReadQuotedChar(c[0], tail, c[1..], t);
    assert [c[0]] + c[1..] == c;
  }

  lemma EscapeQuotesCons(c: string)
    requires c != []
    ensures EscapeQuotes(c) == (if c[0] == '"' then "\"\"" else [c[0]]) + EscapeQuotes(c[1..])
  {
  }

  /** A doubled quote reads as one quote of the field. */
  lemma ReadQuotedPair(tail: string, c: string, t: string)
    requires ReadQuoted(tail) == Some((c, t))
    ensures ReadQuoted("\"\"" + tail) == Some(("\"" + c, t))
  {
    var s := "\"\"" + tail;
    assert |s| >= 2 && s[0] == '"' && s[1] == '"' && s[2..] == tail;
  }

  /** Any other character reads as itself. */
  lemma ReadQuotedChar(x: char, tail: string, c: string, t: string)
    requires x != '"' && ReadQuoted(tail) == Some((c, t))
    ensures ReadQuoted([x] + tail) == Some(([x] + c, t))
  {
    var s := [x] + tail;
    assert s[0] == x && s[1..] == tail;
  }

  /** A quoted cell reads back as the cell's text, whatever non-quote follows it. */
  lemma ReadFieldQuoted(c: string, t: string)
    requires t == [] || t[0] != '"'
    ensures ReadField(Quote(c) + t) == Some((c, t))
  {
    ReadQuotedEscaped(c, t);
    assert (Quote(c) + t)[1..] == EscapeQuotes(c) + "\"" + t;
  }

  /** The last cell of a record: its quoted text, then "\n". */
  lemma ReadRecordLast(c: string, t: string)
    ensures ReadRecord(Quote(c) + "\n" + t) == Some(([c], t))
  {
    ReadFieldQuoted(c, "\n" + t);
    assert Quote(c) + "\n" + t == Quote(c) + ("\n" + t);
    assert ("\n" + t)[1..] == t;
  }

  /** A quoted cell, ",", and a readable rest read as that cell before the rest's cells. */
  lemma ReadRecordStep(c: string, rest: string, cs: seq<string>, t: string)
    requires ReadRecord(rest) == Some((cs, t))
    ensures ReadRecord(Quote(c) + "," + rest) == Some(([c] + cs, t))
  {
    ReadFieldQuoted(c, "," + rest);
    assert Quote(c) + "," + rest == Quote(c) + ("," + rest);
    assert ("," + rest)[1..] == rest;
  }

  lemma {:induction false} ReadRecordRoundTrip(cells: seq<string>, t: string)
    requires cells != []
    ensures ReadRecord(Record(cells) + "\n" + t) == Some((cells, t))
    decreases |cells|
  {
    if |cells| == 1 {
      assert Record(cells) == Quote(cells[0]);
      ReadRecordLast(cells[0], t);
      assert [cells[0]] == cells;
    } else {
      var rest := Record(cells[1..]) + "\n" + t;
      RecordCons(cells);
      assert Record(cells) + "\n" + t == Quote(cells[0]) + "," + rest;
      ReadRecordRoundTrip(cells[1..], t);
      ReadRecordStep(cells[0], rest, cells[1..], t);
      assert [cells[0]] + cells[1..] == cells;
    }
  }

  ghost predicate NoEmptyRecord(rows: seq<seq<string>>) {
    forall k :: 0 <= k < |rows| ==> rows[k] != []
  }

  /** A readable first record and a readable rest read as that record before the rest's records. */
  lemma ReadCsvStep(s: string, r: seq<string>, t: string, rs: seq<seq<string>>)
    requires ReadRecord(s) == Some((r, t)) && ReadCsv(t) == Some(rs)
    ensures ReadCsv(s) == Some([r] + rs)
  {
  }

  /** A document of non-empty records reads back as exactly those records. */
  lemma {:induction false} ReadDocumentRoundTrip(rows: seq<seq<string>>)
    requires rows != [] && NoEmptyRecord(rows)
    ensures ReadCsv(Document(rows)) == Some(rows)
    decreases |rows|
  {
    if |rows| == 1 {
      var d := Document(rows);
      assert d == Record(rows[0]) + "\n" + "";
      ReadRecordRoundTrip(rows[0], "");
      assert ReadRecord(d) == Some((rows[0], ""));
      assert ReadCsv("") == Some([]);
      assert [rows[0]] + [] == rows;
    } else {
      var rest := Document(rows[1..]);
      DocumentCons(rows);
      ReadRecordRoundTrip(rows[0], rest);
      ReadDocumentRoundTrip(rows[1..]);
      ReadCsvStep(Document(rows), rows[0], rest, rows[1..]);
      assert [rows[0]] + rows[1..] == rows;
    }
  }

  /**
   * Reading the exported text gives the header record followed by the rows
   * in list order: N + 1 records for N invoices.
   */
  lemma CsvTextRoundTrip(list: seq<Invoice>)
    ensures ReadCsv(CsvText(list)) == Some([Header] + Rows(list))
  {
    var rows := [Header] + Rows(list);
    assert forall k :: 0 < k < |rows| ==> rows[k] == RowCells(list[k - 1]);
    ReadDocumentRoundTrip(rows);
  }

  /**
   * What a CSV reader recovers from record k + 1 of the export: the serial,
   * the grand total or "" when absent, "Yes" exactly for an invoice sent by
   * e-mail and "No" otherwise, and the address with its quotes doubled.
   */
  lemma ExportedFields(list: seq<Invoice>, k: nat)
    requires k < |list|
    ensures ReadCsv(CsvText(list)).Some?
    ensures var recs := ReadCsv(CsvText(list)).value;
      && |recs| == |list| + 1
      && recs[0] == Header
      && |recs[k + 1]| == |Header|
      && recs[k + 1][SerialColumn] == list[k].serial
      && recs[k + 1][GrandTotalColumn] == (if list[k].grandTotal.Some? then list[k].grandTotal.value else "")
      && (recs[k + 1][SentColumn] == "Yes" <==> list[k].sentViaEmail)
      && (recs[k + 1][SentColumn] == "No" <==> !list[k].sentViaEmail)
      && recs[k + 1][AddressColumn] == EscapeQuotes(list[k].address)
  {
    CsvTextRoundTrip(list);
    var recs := ReadCsv(CsvText(list)).value;
    assert recs == [Header] + Rows(list);
    TableFields(list, k);
  }

  /** The same fields, of the table the export writes. */
  lemma TableFields(list: seq<Invoice>, k: nat)
    requires k < |list|
    ensures var recs := [Header] + Rows(list);
      && |recs| == |list| + 1
      && recs[0] == Header
      && |recs[k + 1]| == |Header|
      && recs[k + 1][SerialColumn] == list[k].serial
      && recs[k + 1][GrandTotalColumn] == (if list[k].grandTotal.Some? then list[k].grandTotal.value else "")
      && (recs[k + 1][SentColumn] == "Yes" <==> list[k].sentViaEmail)
      && (recs[k + 1][SentColumn] == "No" <==> !list[k].sentViaEmail)
      && recs[k + 1][AddressColumn] == EscapeQuotes(list[k].address)
  {
    var recs := [Header] + Rows(list);
    assert recs[k + 1] == RowCells(list[k]);
    RowFieldRules(list[k]);
  }

  lemma RowFieldRules(inv: Invoice)
    ensures var row := RowCells(inv);
      && row[SerialColumn] == inv.serial
      && row[GrandTotalColumn] == (if inv.grandTotal.Some? then inv.grandTotal.value else "")
      && (row[SentColumn] == "Yes" <==> inv.sentViaEmail)
      && (row[SentColumn] == "No" <==> !inv.sentViaEmail)
      && row[AddressColumn] == EscapeQuotes(inv.address)
  {
  }

  lemma EscapeQuoteOnce()
    ensures EscapeQuotes("\"") == "\"\""
  {
    assert "\""[1..] == [];
  }

  lemma EscapeQuoteTwice()
    ensures EscapeQuotes("\"\"") == "\"\"\"\""
  {
    assert "\"\""[1..] == "\"";
    EscapeQuoteOnce();
  }

  /** One double quote in an address comes back as two: the export does not round-trip the address. */
  lemma AddressNotRoundTripped(list: seq<Invoice>, k: nat)
    requires k < |list| && list[k].address == "\""
    ensures ReadCsv(CsvText(list)).Some?
    ensures var recs := ReadCsv(CsvText(list)).value;
      && |recs| == |list| + 1
      && |recs[k + 1]| == |Header|
      && recs[k + 1][AddressColumn] == "\"\""
      && recs[k + 1][AddressColumn] != list[k].address
  {
    ExportedFields(list, k);
    EscapeQuoteOnce();
  }

  /** The address `"` is written to the file as six quote characters: two delimiting, four for the one quote. */
  lemma AddressQuoteWritten(inv: Invoice)
    requires inv.address == "\""
    ensures Quote(RowCells(inv)[AddressColumn]) == "\"\"\"\"\"\""
  {
    EscapeQuoteOnce();
    EscapeQuoteTwice();
    assert RowCells(inv)[AddressColumn] == "\"\"";
  }

  /** As written, each double quote of an address becomes four in the file, besides the two delimiting quotes. */
  lemma AddressQuotesWritten(inv: Invoice)
    ensures Count(Quote(RowCells(inv)[AddressColumn]), '"') == 4 * Count(inv.address, '"') + 2
  {
    var e := EscapeQuotes(EscapeQuotes(inv.address));
    assert RowCells(inv)[AddressColumn] == EscapeQuotes(inv.address);
    CountConcat("\"" + e, "\"", '"');
    CountConcat("\"", e, '"');
  }

  /** Escaped once, each double quote of an address becomes two in the file. */
  lemma AddressQuotesWrittenOnce(inv: Invoice)
    ensures Count(Quote(SingleEscapeRowCells(inv)[AddressColumn]), '"') == 2 * Count(inv.address, '"') + 2
  {
    var e := EscapeQuotes(inv.address);
    assert SingleEscapeRowCells(inv)[AddressColumn] == inv.address;
    CountConcat("\"" + e, "\"", '"');
    CountConcat("\"", e, '"');
  }

  lemma SingleEscapeTextRoundTrip(list: seq<Invoice>)
    ensures ReadCsv(CsvTextSingleEscape(list)) == Some([Header] + SingleEscapeRows(list))
  {
    var rows := [Header] + SingleEscapeRows(list);
    assert forall j :: 0 < j < |rows| ==> rows[j] == SingleEscapeRowCells(list[j - 1]);
    ReadDocumentRoundTrip(rows);
  }

  /** With the address escaped once, every cell of every invoice reads back unchanged. */
  lemma SingleEscapeRoundTrip(list: seq<Invoice>, k: nat)
    requires k < |list|
    ensures ReadCsv(CsvTextSingleEscape(list)).Some?
    ensures var recs := ReadCsv(CsvTextSingleEscape(list)).value;
      && |recs| == |list| + 1
      && recs[0] == Header
      && recs[k + 1] == SingleEscapeRowCells(list[k])
      && recs[k + 1][AddressColumn] == list[k].address
  {
    SingleEscapeTextRoundTrip(list);
    var recs := ReadCsv(CsvTextSingleEscape(list)).value;
    assert recs == [Header] + SingleEscapeRows(list);
    assert recs[k + 1] == SingleEscapeRowCells(list[k]);
  }
}
