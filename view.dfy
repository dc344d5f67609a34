/**
 * The state of the invoice-history view and the handlers that change it:
 * the fetch of the invoice list, the search box and sent-only toggle,
 * and the details modal. The network request itself is not modelled: the
 * fetch handler receives what the request settled with.
 */
module View {
  import opened Wrappers
  import opened Invoices
  import Filter
  import Csv
  import CsvReader
  import Text

  /** What the invoice-history request settles with. */
  datatype FetchOutcome =
    /** A response; `data` is the body's `data` field, `None` when the body has none. */
    | Fetched(data: Option<seq<Invoice>>)
    /** A failure; `message` is the server's `response.data.message`, `None` when absent. */
    | FetchFailed(message: Option<string>)

  const FallbackError: string := "Unable to load invoice history"

  /** The response's `data` array, or the empty list when the body has none. */
  function LoadedInvoices(data: Option<seq<Invoice>>): (r: seq<Invoice>)
    ensures data.Some? ==> r == data.value
    ensures data.None? ==> r == []
  {
    data.GetOr([])
  }

  /** The server's message, or the fallback text when the message is absent or empty. */
  function ErrorMessage(message: Option<string>): (r: string)
    ensures r != []
    ensures message.Some? && message.value != [] ==> r == message.value
    ensures message.None? || message.value == [] ==> r == FallbackError
  {
    if message.Some? && message.value != [] then message.value else FallbackError
  }

  /** What the main area of the view shows. */
  datatype Screen = Spinner | Banner(message: string) | Listing(rows: seq<Invoice>)

  class InvoiceHistory {
    var invoices: seq<Invoice>
    var loading: bool
    var error: string
    var search: string
    var showSentOnly: bool
    var selected: Option<Invoice>
    var modalOpen: bool

    /** The initial `useState` values. */
    constructor ()
      ensures invoices == [] && !loading && error == ""
      ensures search == "" && !showSentOnly
      ensures selected == None && !modalOpen
    {
      invoices := [];
      loading := false;
      error := "";
      search := "";
      showSentOnly := false;
      selected := None;
      modalOpen := false;
    }

    /** The memoised `visible` list. */
    function Visible(): (r: seq<Invoice>)
      reads this
      ensures |r| <= |invoices|
      ensures forall k :: 0 <= k < |r| ==> r[k] in invoices
      ensures showSentOnly ==> forall k :: 0 <= k < |r| ==> r[k].sentViaEmail
    {
      Filter.Visible(invoices, search, showSentOnly)
    }

    /** The details dialog is rendered only while it is open and an invoice is selected. */
    predicate ModalShown()
      reads this
    {
      modalOpen && selected.Some?
    }

    /** The main area: a spinner while loading, else the error banner, else the list. */
    function Screen(): (s: Screen)
      reads this
      ensures s.Spinner? <==> loading
      ensures s.Banner? <==> !loading && error != []
      ensures s.Banner? ==> s.message == error
      ensures s.Listing? ==> s.rows == Visible()
    {
      if loading then Spinner else if error != [] then Banner(error) else Listing(Visible())
    }

    /** Typing in the search box. */
    method SetSearch(text: string)
      modifies this
      ensures search == text
      ensures invoices == old(invoices) && showSentOnly == old(showSentOnly)
      ensures loading == old(loading) && error == old(error)
      ensures selected == old(selected) && modalOpen == old(modalOpen)
    {
      search := text;
    }

    /** The sent-only button flips the toggle. */
    method ToggleSentOnly()
      modifies this
      ensures showSentOnly == !old(showSentOnly)
      ensures invoices == old(invoices) && search == old(search)
      ensures loading == old(loading) && error == old(error)
      ensures selected == old(selected) && modalOpen == old(modalOpen)
    {
      showSentOnly := !showSentOnly;
    }

    /** The part of `fetchInvoices` before the request: loading on, error cleared. */
    method BeginFetch()
      modifies this
      ensures loading && error == ""
      ensures Screen() == Spinner
      ensures invoices == old(invoices) && search == old(search) && showSentOnly == old(showSentOnly)
      ensures selected == old(selected) && modalOpen == old(modalOpen)
    {
      loading := true;
      error := "";
    }

    /**
     * The part of `fetchInvoices` after the request settles: a response
     * replaces the whole list, a failure keeps the list and sets the
     * message, and loading ends on both paths.
     */
    method SettleFetch(outcome: FetchOutcome)
      modifies this
      ensures !loading
      ensures outcome.Fetched? ==> invoices == LoadedInvoices(outcome.data) && error == old(error)
      ensures outcome.FetchFailed? ==> invoices == old(invoices) && error == ErrorMessage(outcome.message)
      ensures search == old(search) && showSentOnly == old(showSentOnly)
      ensures selected == old(selected) && modalOpen == old(modalOpen)
    {
      match outcome {
        case Fetched(data) =>
          invoices := LoadedInvoices(data);
        case FetchFailed(message) =>
          error := ErrorMessage(message);
      }
      loading := false;
    }

    /** `fetchInvoices` as a whole. */
    method FetchInvoices(outcome: FetchOutcome)
      modifies this
      ensures !loading
      ensures outcome.Fetched? ==> invoices == LoadedInvoices(outcome.data) && error == ""
      ensures outcome.Fetched? ==> Screen() == Listing(Visible())
      ensures outcome.FetchFailed? ==> invoices == old(invoices) && error == ErrorMessage(outcome.message)
      ensures outcome.FetchFailed? ==> Screen() == Banner(ErrorMessage(outcome.message))
      ensures search == old(search) && showSentOnly == old(showSentOnly)
      ensures selected == old(selected) && modalOpen == old(modalOpen)
    {
      BeginFetch();
      SettleFetch(outcome);
    }

    /** Opening the details of one invoice; a reopen replaces the earlier selection. */
    method OpenDetails(inv: Invoice)
      modifies this
      ensures selected == Some(inv) && modalOpen
      ensures ModalShown()
      ensures invoices == old(invoices) && search == old(search) && showSentOnly == old(showSentOnly)
      ensures loading == old(loading) && error == old(error)
    {
      selected := Some(inv);
      modalOpen := true;
    }

    /** Closing the details: by its button or the backdrop. */
    method CloseModal()
      modifies this
      ensures selected == None && !modalOpen
      ensures !ModalShown()
      ensures invoices == old(invoices) && search == old(search) && showSentOnly == old(showSentOnly)
      ensures loading == old(loading) && error == old(error)
    {
      modalOpen := false;
      selected := None;
    }

    /** The toolbar's export, of the visible list. */
    method ExportVisible() returns (csv: Option<string>)
      ensures csv.None? <==> Visible() == []
      ensures csv.Some? ==> csv.value == Csv.CsvText(Visible())
    {
      var list := Visible();
      csv := Csv.ExportCsv(list);
    }

    /** The details dialog's export, of the selected invoice alone: a one-row file. */
    method ExportSelected() returns (csv: Option<string>)
      requires ModalShown()
      ensures csv.Some? && csv.value == Csv.CsvText([selected.value])
    {
      csv := Csv.ExportCsv([selected.value]);
    }
  }

  /**
   * A fetch that returns one invoice sent by e-mail, with a blank search and
   * the toggle off, lists that invoice, and its export reads back as two
   * records whose second has "Yes" in the SentViaEmail column.
   */
  lemma OneSentInvoice(fetched: seq<Invoice>, search: string)
    requires |fetched| == 1 && fetched[0].sentViaEmail
    requires forall i :: 0 <= i < |search| ==> Text.IsWhite(search[i])
    ensures Filter.Visible(fetched, search, false) == fetched
    ensures OneSentRecordRead(fetched)
  {
    Filter.VisibleIdentity(fetched, search);
    OneSentExport(fetched);
  }

  /** The export of `list` reads back as two records, the second with "Yes" under SentViaEmail. */
  ghost predicate OneSentRecordRead(list: seq<Invoice>) {
    var read := CsvReader.ReadCsv(Csv.CsvText(list));
    && read.Some?
    && |read.value| == 2
    && |read.value[1]| == |Csv.Header|
    && read.value[1][Csv.SentColumn] == "Yes"
  }

  /**
   * A fresh view that fetches one invoice sent by e-mail lists exactly that
   * invoice (its search is still empty and the toggle off) and exports it as
   * a file that reads back with "Yes" under SentViaEmail; the file has two
   * line breaks when no field of the invoice holds one.
   */
  method FirstLoadOneSent(fetched: seq<Invoice>) returns (screen: Screen, csv: Option<string>)
    requires |fetched| == 1 && fetched[0].sentViaEmail
    ensures screen == Listing(fetched)
    ensures csv.Some? && csv.value == Csv.CsvText(fetched) && OneSentRecordRead(fetched)
    ensures Csv.OnOneLine(fetched[0]) ==> Csv.Count(csv.value, '\n') == 2
  {
    var view := new InvoiceHistory();
    view.FetchInvoices(Fetched(Some(fetched)));
    assert view.invoices == fetched && view.search == "" && !view.showSentOnly;
    Filter.VisibleIdentity(fetched, view.search);
    assert view.Visible() == fetched;
    screen := view.Screen();
    csv := view.ExportVisible();
    assert csv.Some? && csv.value == Csv.CsvText(fetched);
    OneSentExport(fetched);
    if Csv.OnOneLine(fetched[0]) {
      OneLineExport(fetched);
    }
  }

  /** A one-invoice export has two line breaks when no field of the invoice holds one. */
  lemma OneLineExport(list: seq<Invoice>)
    requires |list| == 1 && Csv.OnOneLine(list[0])
    ensures Csv.Count(Csv.CsvText(list), '\n') == 2
  {
    OnlyInvoiceOnOneLine(list);
    Csv.CsvTextLineCount(list);
  }

  lemma OnlyInvoiceOnOneLine(list: seq<Invoice>)
    requires |list| == 1 && Csv.OnOneLine(list[0])
    ensures forall k :: 0 <= k < |list| ==> Csv.OnOneLine(list[k])
  {
    forall k | 0 <= k < |list|
      ensures Csv.OnOneLine(list[k])
    {
      assert k == 0;
    }
  }

  lemma OneSentExport(list: seq<Invoice>)
    requires |list| == 1 && list[0].sentViaEmail
    ensures OneSentRecordRead(list)
  {
    CsvReader.ExportedFields(list, 0);
  }
}
