/**
 * The `visible` list of the invoice view: the fetched invoices, optionally
 * restricted to those sent by e-mail, then to those matching the search text.
 */
module Filter {
  import opened Text
  import opened Invoices

  /** The search text, trimmed and then lower-cased. */
  function Normalize(search: string): (r: string)
    ensures |r| <= |search|
    ensures forall i :: 0 <= i < |r| ==> !IsUpper(r[i])
    ensures r == [] || (!IsWhite(r[0]) && !IsWhite(r[|r| - 1]))
  {
    Lower(Trim(search))
  }

  /** The sent-only toggle: an invoice not sent by e-mail is dropped when it is on. */
  predicate SentAllowed(inv: Invoice, showSentOnly: bool) {
    !showSentOnly || inv.sentViaEmail
  }

  /** Some product's lower-cased description includes `q`. */
  predicate AnyDescription(products: seq<Product>, q: string)
    decreases |products|
  {
    products != [] && (Contains(Lower(products[0].description), q) || AnyDescription(products[1..], q))
  }

  /** The four searched values of one invoice. */
  predicate SearchHit(inv: Invoice, q: string)
    ensures q == [] ==> SearchHit(inv, q)
  {
    || Contains(Lower(inv.serial), q)
    || Contains(Lower(inv.contactEmail), q)
    || Contains(Lower(inv.authorizerName), q)
    || AnyDescription(inv.products, q)
  }

  /** The filter callback, for an already normalised query `q`. */
  predicate Keep(inv: Invoice, q: string, showSentOnly: bool)
  {
    SentAllowed(inv, showSentOnly) && (q == [] || SearchHit(inv, q))
  }

  /** The list filtered by `Keep`, for a normalised query. */
  function Kept(invoices: seq<Invoice>, q: string, showSentOnly: bool): (r: seq<Invoice>)
    ensures |r| <= |invoices|
    ensures forall k :: 0 <= k < |r| ==> r[k] in invoices && Keep(r[k], q, showSentOnly)
    decreases |invoices|
  {
    if invoices == [] then []
    else
      var rest := Kept(invoices[1..], q, showSentOnly);
      if Keep(invoices[0], q, showSentOnly) then [invoices[0]] + rest else rest
  }

  /** The memoised `visible` value of the view. */
  function Visible(invoices: seq<Invoice>, search: string, showSentOnly: bool): (r: seq<Invoice>)
    ensures |r| <= |invoices|
    ensures forall k :: 0 <= k < |r| ==> r[k] in invoices
    ensures showSentOnly ==> forall k :: 0 <= k < |r| ==> r[k].sentViaEmail
  {
    Kept(invoices, Normalize(search), showSentOnly)
  }

  /** `idx` lists, in increasing order, the positions of `s` that a filter keeps. */
  ghost predicate EnumeratesKept(idx: seq<nat>, s: seq<Invoice>, q: string, showSentOnly: bool) {
    && (forall k :: 0 <= k < |idx| ==> idx[k] < |s|)
    && (forall k, l :: 0 <= k < l < |idx| ==> idx[k] < idx[l])
    && (forall j :: 0 <= j < |s| ==> (j in idx <==> Keep(s[j], q, showSentOnly)))
  }

  function Shift(idx: seq<nat>): (r: seq<nat>)
    ensures |r| == |idx| && forall k :: 0 <= k < |idx| ==> r[k] == idx[k] + 1
  {
    seq(|idx|, k requires 0 <= k < |idx| => idx[k] + 1)
  }

  lemma ShiftMember(idx: seq<nat>, j: nat)
    ensures j in Shift(idx) <==> j > 0 && j - 1 in idx
  {
    var sh := Shift(idx);
    if j in sh {
      var k :| 0 <= k < |sh| && sh[k] == j;
      assert idx[k] == j - 1;
    }
    if j > 0 && j - 1 in idx {
      var k :| 0 <= k < |idx| && idx[k] == j - 1;
      assert sh[k] == j;
    }
  }

  /** Positions in `s` enumerated by `idx` that `r` reads off. */
  ghost predicate ReadsAt(r: seq<Invoice>, s: seq<Invoice>, idx: seq<nat>) {
    |idx| == |r| && forall k :: 0 <= k < |idx| ==> idx[k] < |s| && r[k] == s[idx[k]]
  }

  /** Extends an enumeration of the tail of `s` to all of `s`. */
  lemma ConsIndices(s: seq<Invoice>, kept: bool, rest: seq<nat>, q: string, showSentOnly: bool) returns (idx: seq<nat>)
    requires s != [] && kept == Keep(s[0], q, showSentOnly)
    requires EnumeratesKept(rest, s[1..], q, showSentOnly)
    ensures EnumeratesKept(idx, s, q, showSentOnly)
    ensures idx == if kept then [0] + Shift(rest) else Shift(rest)
  {
    var shifted := Shift(rest);
    idx := if kept then [0] + shifted else shifted;
    forall j | 0 <= j < |s| ensures j in idx <==> Keep(s[j], q, showSentOnly) {
      ShiftMember(rest, j);
      if j > 0 { assert s[j] == s[1..][j - 1]; }
    }
  }

  lemma ConsReads(s: seq<Invoice>, r': seq<Invoice>, rest: seq<nat>, kept: bool)
    requires s != [] && ReadsAt(r', s[1..], rest)
    ensures kept ==> ReadsAt([s[0]] + r', s, [0] + Shift(rest))
    ensures !kept ==> ReadsAt(r', s, Shift(rest))
  {
    forall k | 0 <= k < |rest| ensures s[rest[k] + 1] == s[1..][rest[k]] { }
    if kept {
      var r := [s[0]] + r';
      var idx := [0] + Shift(rest);
      forall k | 0 <= k < |idx| ensures idx[k] < |s| && r[k] == s[idx[k]] {
        if k > 0 { assert r[k] == r'[k - 1] && idx[k] == rest[k - 1] + 1; }
      }
    }
  }

  /** One step of the filter: the first invoice is kept exactly when it passes. */
  lemma KeptCons(s: seq<Invoice>, q: string, showSentOnly: bool)
    requires s != []
    ensures Kept(s, q, showSentOnly) ==
      if Keep(s[0], q, showSentOnly) then [s[0]] + Kept(s[1..], q, showSentOnly) else Kept(s[1..], q, showSentOnly)
  {
  }

  /**
   * The filter keeps the relative order: its result is `s` read at the
   * increasing list of exactly those positions whose invoice passes `Keep`.
   */
  lemma {:induction false} KeptOrder(s: seq<Invoice>, q: string, showSentOnly: bool) returns (idx: seq<nat>)
    ensures EnumeratesKept(idx, s, q, showSentOnly)
    ensures ReadsAt(Kept(s, q, showSentOnly), s, idx)
    decreases |s|
  {
    if s == [] {
      idx := [];
    } else {
      var rest := KeptOrder(s[1..], q, showSentOnly);
      var kept := Keep(s[0], q, showSentOnly);
      idx := ConsIndices(s, kept, rest, q, showSentOnly);
      var r' := Kept(s[1..], q, showSentOnly);
      ConsReads(s, r', rest, kept);
      KeptCons(s, q, showSentOnly);
    }
  }

  /** `visible` is an order-preserving subsequence of the fetched list, holding exactly the invoices that pass. */
  lemma VisibleOrder(invoices: seq<Invoice>, search: string, showSentOnly: bool) returns (idx: seq<nat>)
    ensures EnumeratesKept(idx, invoices, Normalize(search), showSentOnly)
    ensures ReadsAt(Visible(invoices, search, showSentOnly), invoices, idx)
  {
    idx := KeptOrder(invoices, Normalize(search), showSentOnly);
  }

  /** An invoice is visible exactly when it is in the list and passes the filter. */
  lemma {:induction false} KeptMembers(s: seq<Invoice>, q: string, showSentOnly: bool, inv: Invoice)
    ensures inv in Kept(s, q, showSentOnly) <==> inv in s && Keep(inv, q, showSentOnly)
    decreases |s|
  {
    if s != [] {
      KeptMembers(s[1..], q, showSentOnly, inv);
      assert s == [s[0]] + s[1..];
    }
  }

  lemma {:induction false} KeptAll(s: seq<Invoice>, q: string, showSentOnly: bool)
    requires forall k :: 0 <= k < |s| ==> Keep(s[k], q, showSentOnly)
    ensures Kept(s, q, showSentOnly) == s
    decreases |s|
  {
    if s != [] {
      KeptAll(s[1..], q, showSentOnly);
    }
  }

  /** With a blank query (empty or only white space) and the toggle off, `visible` is the fetched list itself. */
  lemma VisibleIdentity(invoices: seq<Invoice>, search: string)
    requires forall i :: 0 <= i < |search| ==> IsWhite(search[i])
    ensures Visible(invoices, search, false) == invoices
  {
    BlankSearchIsEmpty(search);
    KeptAll(invoices, Normalize(search), false);
  }

  /** A query made only of white space counts as blank. */
  lemma BlankSearchIsEmpty(search: string)
    requires forall i :: 0 <= i < |search| ==> IsWhite(search[i])
    ensures Normalize(search) == []
  {
    TrimEmptyIff(search);
  }

  lemma {:induction false} AnyDescriptionIff(products: seq<Product>, q: string)
    ensures AnyDescription(products, q) <==>
            exists k :: 0 <= k < |products| && OccursIn(q, Lower(products[k].description))
    decreases |products|
  {
    if products != [] {
      AnyDescriptionIff(products[1..], q);
      ContainsIffOccurs(Lower(products[0].description), q);
      if exists k :: 0 <= k < |products| && OccursIn(q, Lower(products[k].description)) {
        var k :| 0 <= k < |products| && OccursIn(q, Lower(products[k].description));
        if k > 0 { assert products[1..][k - 1] == products[k]; }
      }
      if exists k :: 0 <= k < |products[1..]| && OccursIn(q, Lower(products[1..][k].description)) {
        var k :| 0 <= k < |products[1..]| && OccursIn(q, Lower(products[1..][k].description));
        assert products[k + 1] == products[1..][k];
      }
    }
  }

  /**
   * The callback's empty-query shortcut agrees with the search: an empty
   * query is contained in every searched value, so `Keep` is the toggle and
   * the search together.
   */
  lemma KeepIsToggleAndSearch(inv: Invoice, q: string, showSentOnly: bool)
    ensures Keep(inv, q, showSentOnly) <==> SentAllowed(inv, showSentOnly) && SearchHit(inv, q)
  {
    if q == [] {
      assert Contains(Lower(inv.serial), q);
    }
  }

  /**
   * With a non-blank query, an invoice passes exactly when it passes the
   * sent-only toggle and the normalised query occurs in the lower-cased
   * serial, contact e-mail, authorizer name or some product description.
   */
  lemma SearchSemantics(inv: Invoice, search: string, showSentOnly: bool)
    requires Normalize(search) != []
    ensures var q := Normalize(search);
      Keep(inv, q, showSentOnly) <==>
        && SentAllowed(inv, showSentOnly)
        && (|| OccursIn(q, Lower(inv.serial))
            || OccursIn(q, Lower(inv.contactEmail))
            || OccursIn(q, Lower(inv.authorizerName))
            || exists k :: 0 <= k < |inv.products| && OccursIn(q, Lower(inv.products[k].description)))
  {
    var q := Normalize(search);
    ContainsIffOccurs(Lower(inv.serial), q);
    ContainsIffOccurs(Lower(inv.contactEmail), q);
    ContainsIffOccurs(Lower(inv.authorizerName), q);
    AnyDescriptionIff(inv.products, q);
  }

  /** The normalised query depends on the search text only through its lower-cased form. */
  lemma NormalizeByLower(search: string)
    ensures Normalize(search) == Trim(Lower(search))
  {
    LowerTrimCommute(search);
  }

  /** Searches that differ only in letter case show the same invoices. */
  lemma CaseInsensitive(invoices: seq<Invoice>, s1: string, s2: string, showSentOnly: bool)
    requires Lower(s1) == Lower(s2)
    ensures Visible(invoices, s1, showSentOnly) == Visible(invoices, s2, showSentOnly)
  {
    NormalizeByLower(s1);
    NormalizeByLower(s2);
  }
}
