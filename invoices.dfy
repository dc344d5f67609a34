/**
 * The invoice records the view receives from the invoice-history endpoint.
 * A text field the record does not carry is the empty string, which is how
 * every `x || ""` in the view already reads it. `grandTotal` keeps its
 * absence, because the view reads it with `??`: a present amount is held as
 * the text `String(amount)` gives it (so a present 0 is `Some("0")`).
 */
module Invoices {
  import opened Wrappers

  /** One line item; only its description is read by the modelled code. */
  datatype Product = Product(description: string)

  datatype Invoice = Invoice(
    id: string, // the record's `_id`, used by the view only as a list key
    serial: string,
    issueDate: string,
    grandTotal: Option<string>,
    authorizerName: string,
    contactEmail: string,
    contactPhone: string,
    address: string,
    sentViaEmail: bool,
    sentAt: string,
    downloadedAt: string,
    createdAt: string,
    updatedAt: string,
    products: seq<Product>
  )
}
