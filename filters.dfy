/**
 * The filter engine of `apply_filters`: an optional predicate per filter
 * parameter, all of them joined by AND, over the chargeback table.  Dates
 * are day numbers and amounts are cents.
 */
module Filters {
  import opened Wrappers
  import opened Text
  import opened Masks
  import opened Selection

  /** One chargeback row, with the loader's column names. */
  datatype Record = Record(
    id: string,
    date: int,
    merchantId: string,
    merchantName: string,
    merchantCategory: string,
    country: string,
    reasonCategory: string,
    reasonCode: string,
    paymentMethod: string,
    processor: string,
    amount: int,
    currency: string)

  /**
   * The filter parameters.  An absent date or amount is `None`; an empty
   * merchant query or an empty value list is as good as absent, because the
   * source tests those by truthiness.
   */
  datatype Filters = Filters(
    startDate: Option<int>,
    endDate: Option<int>,
    merchant: Option<string>,
    reasonCategory: Option<seq<string>>,
    paymentMethod: Option<seq<string>>,
    country: Option<seq<string>>,
    minAmount: Option<int>,
    maxAmount: Option<int>)

  /** Python truthiness of an optional string or list: present and non-empty. */
  predicate Given<T>(o: Option<seq<T>>)
  {
    o.Some? && |o.value| > 0
  }

  predicate MerchantMatches(query: string, r: Record)
  {
    ContainsIgnoreCase(r.merchantId, query) || ContainsIgnoreCase(r.merchantName, query)
  }

  /** The conjunction the mask ends up holding for row `r`. */
  predicate Matches(f: Filters, r: Record)
  {
    MatchesDatesAndMerchant(f, r) && MatchesValuesAndAmounts(f, r)
  }

  /** The date range and the merchant search, the first three masks. */
  predicate MatchesDatesAndMerchant(f: Filters, r: Record)
  {
    && (f.startDate.Some? ==> r.date >= f.startDate.value)
    && (f.endDate.Some? ==> r.date <= f.endDate.value)
    && (Given(f.merchant) ==> MerchantMatches(f.merchant.value, r))
  }

  /** The value sets and the amount bounds, the last five masks. */
  predicate MatchesValuesAndAmounts(f: Filters, r: Record)
  {
    && (Given(f.reasonCategory) ==> r.reasonCategory in f.reasonCategory.value)
    && (Given(f.paymentMethod) ==> r.paymentMethod in f.paymentMethod.value)
    && (Given(f.country) ==> r.country in f.country.value)
    && (f.minAmount.Some? ==> r.amount >= f.minAmount.value)
    && (f.maxAmount.Some? ==> r.amount <= f.maxAmount.value)
  }

  /** The rows that pass every filter, in table order. */
  function Keep(rows: seq<Record>, f: Filters): seq<Record>
  {
    Select(rows, (r: Record) => Matches(f, r))
  }

  /**
   * `apply_filters`: start from an all-true mask, AND in each filter that is
   * given, then copy out the rows the mask keeps.
   */
  method ApplyFilters(rows: seq<Record>, f: Filters) returns (out: seq<Record>)
    ensures out == Keep(rows, f)
  {
    var mask := BuildMask(rows, f);
    out := [];
    for i := 0 to |rows|
      invariant out == Keep(rows[..i], f)
    {
      assert rows[..i + 1][..i] == rows[..i];
      if mask[i] {
        out := out + [rows[i]];
      }
    }
    assert rows[..|rows|] == rows;
  }

  /** The mask of `apply_filters`, one AND per filter that is given. */
  method BuildMask(rows: seq<Record>, f: Filters) returns (mask: array<bool>)
    ensures fresh(mask) && mask.Length == |rows|
    ensures forall i :: 0 <= i < |rows| ==> mask[i] == Matches(f, rows[i])
  {
    mask := new bool[|rows|](_ => true);
    NarrowByDatesAndMerchant(mask, rows, f);
    NarrowByValuesAndAmounts(mask, rows, f);
  }

  method NarrowByDatesAndMerchant(mask: array<bool>, rows: seq<Record>, f: Filters)
    requires mask.Length == |rows|
    modifies mask
    ensures forall i :: 0 <= i < |rows| ==>
      mask[i] == (old(mask[i]) && MatchesDatesAndMerchant(f, rows[i]))
  {
    if f.startDate.Some? {
      var sd := f.startDate.value;
      AndMask(mask, rows, (r: Record) => r.date >= sd);
    }
    if f.endDate.Some? {
      var ed := f.endDate.value;
      AndMask(mask, rows, (r: Record) => r.date <= ed);
    }
    if Given(f.merchant) {
      var q := f.merchant.value;
      AndMask(mask, rows, (r: Record) => MerchantMatches(q, r));
    }
  }

  method NarrowByValuesAndAmounts(mask: array<bool>, rows: seq<Record>, f: Filters)
    requires mask.Length == |rows|
    modifies mask
    ensures forall i :: 0 <= i < |rows| ==>
      mask[i] == (old(mask[i]) && MatchesValuesAndAmounts(f, rows[i]))
  {
    if Given(f.reasonCategory) {
      var cs := f.reasonCategory.value;
      AndMask(mask, rows, (r: Record) => r.reasonCategory in cs);
    }
    if Given(f.paymentMethod) {
      var ps := f.paymentMethod.value;
      AndMask(mask, rows, (r: Record) => r.paymentMethod in ps);
    }
    if Given(f.country) {
      var cs := f.country.value;
      AndMask(mask, rows, (r: Record) => r.country in cs);
    }
    if f.minAmount.Some? {
      var lo := f.minAmount.value;
      AndMask(mask, rows, (r: Record) => r.amount >= lo);
    }
    if f.maxAmount.Some? {
      var hi := f.maxAmount.value;
      AndMask(mask, rows, (r: Record) => r.amount <= hi);
    }
  }

  /**
   * A row is in the result exactly when it is a row of the table that lies
   * in the inclusive date range, matches the merchant query in its id or
   * its name, belongs to every given value set and lies within the
   * inclusive amount bounds (a bound of 0 included).
   */
  lemma KeepMembership(rows: seq<Record>, f: Filters, x: Record)
    ensures x in Keep(rows, f) <==>
      && x in rows
      && (f.startDate.Some? ==> f.startDate.value <= x.date)
      && (f.endDate.Some? ==> x.date <= f.endDate.value)
      && (Given(f.merchant) ==>
            ContainsIgnoreCase(x.merchantId, f.merchant.value)
            || ContainsIgnoreCase(x.merchantName, f.merchant.value))
      && (Given(f.reasonCategory) ==> x.reasonCategory in f.reasonCategory.value)
      && (Given(f.paymentMethod) ==> x.paymentMethod in f.paymentMethod.value)
      && (Given(f.country) ==> x.country in f.country.value)
      && (f.minAmount.Some? ==> f.minAmount.value <= x.amount)
      && (f.maxAmount.Some? ==> x.amount <= f.maxAmount.value)
  {
    SelectMembership(rows, (r: Record) => Matches(f, r), x);
  }

  /** The table positions the filter keeps. */
  function KeptIndices(rows: seq<Record>, f: Filters): seq<int>
  {
    SelectedIndices(rows, (r: Record) => Matches(f, r))
  }

  /**
   * The result is the table read at strictly increasing positions, namely
   * at the positions of exactly the matching rows: only rows of the input,
   * in their original relative order.
   */
  lemma KeepPreservesOrder(rows: seq<Record>, f: Filters)
    ensures var idx := KeptIndices(rows, f);
      && |idx| == |Keep(rows, f)|
      && (forall k :: 0 <= k < |idx| ==> 0 <= idx[k] < |rows| && Keep(rows, f)[k] == rows[idx[k]])
      && (forall k, l :: 0 <= k < l < |idx| ==> idx[k] < idx[l])
      && (forall i :: 0 <= i < |rows| ==> (i in idx <==> Matches(f, rows[i])))
  {
    SelectPreservesOrder(rows, (r: Record) => Matches(f, r));
  }

  /** No filter given: every parameter absent, empty, or an empty list. */
  predicate NoneGiven(f: Filters)
  {
    && f.startDate.None? && f.endDate.None?
    && !Given(f.merchant) && !Given(f.reasonCategory)
    && !Given(f.paymentMethod) && !Given(f.country)
    && f.minAmount.None? && f.maxAmount.None?
  }

  /** With no filter given the result is the whole table. */
  lemma KeepNoneGiven(rows: seq<Record>, f: Filters)
    requires NoneGiven(f)
    ensures Keep(rows, f) == rows
  {
    SelectAll(rows, (r: Record) => Matches(f, r));
  }

  /**
   * `g` is `f` with more predicates given: every filter `f` gives, `g`
   * gives with the same value.
   */
  predicate Adds(g: Filters, f: Filters)
  {
    && (f.startDate.Some? ==> g.startDate == f.startDate)
    && (f.endDate.Some? ==> g.endDate == f.endDate)
    && (Given(f.merchant) ==> g.merchant == f.merchant)
    && (Given(f.reasonCategory) ==> g.reasonCategory == f.reasonCategory)
    && (Given(f.paymentMethod) ==> g.paymentMethod == f.paymentMethod)
    && (Given(f.country) ==> g.country == f.country)
    && (f.minAmount.Some? ==> g.minAmount == f.minAmount)
    && (f.maxAmount.Some? ==> g.maxAmount == f.maxAmount)
  }

  /**
   * Monotonic narrowing: with predicates added, the result is a selection
   * from the earlier result, so the count never grows.
   */
  lemma KeepNarrows(rows: seq<Record>, g: Filters, f: Filters)
    requires Adds(g, f)
    ensures Keep(Keep(rows, f), g) == Keep(rows, g)
    ensures |Keep(rows, g)| <= |Keep(rows, f)|
  {
    SelectNarrows(rows, (r: Record) => Matches(g, r), (r: Record) => Matches(f, r));
  }
}
