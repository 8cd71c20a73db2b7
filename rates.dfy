/**
 * The rate calculator of `compute_chargeback_rate`: the filtered chargeback
 * count over the number of transactions in the matching slice of the
 * daily transaction table, as a percentage.
 */
module Rates {
  import opened Wrappers
  import opened Masks
  import opened Selection
  import opened Filters

  /** One row of the daily transaction table: an aggregate, not a transaction. */
  datatype TxRow = TxRow(
    date: int,
    merchantId: string,
    country: string,
    paymentMethod: string,
    processor: string,
    transactionsCount: nat,
    transactionsAmount: int)

  /**
   * The filters the transaction table understands.  The merchant filter is
   * an exact list of ids, not a search; category and amount have no column
   * here.
   */
  datatype TxFilters = TxFilters(
    merchantIds: Option<seq<string>>,
    startDate: Option<int>,
    endDate: Option<int>,
    paymentMethod: Option<seq<string>>,
    country: Option<seq<string>>)

  predicate TxMatches(f: TxFilters, t: TxRow)
  {
    && (f.startDate.Some? ==> t.date >= f.startDate.value)
    && (f.endDate.Some? ==> t.date <= f.endDate.value)
    && (Given(f.merchantIds) ==> t.merchantId in f.merchantIds.value)
    && (Given(f.paymentMethod) ==> t.paymentMethod in f.paymentMethod.value)
    && (Given(f.country) ==> t.country in f.country.value)
  }

  /** The transaction rows in the slice. */
  function TxSlice(tx: seq<TxRow>, f: TxFilters): seq<TxRow>
  {
    Select(tx, (t: TxRow) => TxMatches(f, t))
  }

  function SumCounts(rows: seq<TxRow>): nat
  {
    if rows == [] then 0
    else SumCounts(rows[..|rows| - 1]) + rows[|rows| - 1].transactionsCount
  }

  /** The denominator: transactions summed over the slice. */
  function MatchingTransactions(tx: seq<TxRow>, f: TxFilters): nat
  {
    SumCounts(TxSlice(tx, f))
  }

  /**
   * `count / total * 100`, exact, or 0 when either side is 0.  It is never
   * negative, it is 0 only in those two cases, and it is at most 100 when
   * the slice has at least as many transactions as chargebacks.
   */
  function Rate(count: nat, total: nat): (r: real)
    ensures r >= 0.0
    ensures r == 0.0 <==> count == 0 || total == 0
    ensures count <= total ==> r <= 100.0
  {
    if total == 0 || count == 0 then 0.0
    else (count as real) / (total as real) * 100.0
  }

  /**
   * `compute_chargeback_rate`: narrow an all-true mask over the transaction
   * table by each given filter, sum `transactions_count` under the mask,
   * and divide.
   */
  method ComputeChargebackRate(count: nat, tx: seq<TxRow>, f: TxFilters) returns (rate: real)
    ensures rate == Rate(count, MatchingTransactions(tx, f))
  {
    var mask := TxMask(tx, f);
    var total: nat := 0;
    for i := 0 to |tx|
      invariant total == SumCounts(TxSlice(tx[..i], f))
      invariant forall k :: 0 <= k < |tx| ==> mask[k] == TxMatches(f, tx[k])
    {
      assert tx[..i + 1][..i] == tx[..i];
      assert TxSlice(tx[..i + 1], f)
        == TxSlice(tx[..i], f) + (if TxMatches(f, tx[i]) then [tx[i]] else []);
      if mask[i] {
        assert TxSlice(tx[..i + 1], f) == TxSlice(tx[..i], f) + [tx[i]];
        SumCountsAppend(TxSlice(tx[..i], f), tx[i]);
        total := total + tx[i].transactionsCount;
      } else {
        assert TxSlice(tx[..i + 1], f) == TxSlice(tx[..i], f);
      }
    }
    assert tx[..|tx|] == tx;

    if total == 0 || count == 0 {
      rate := 0.0;
    } else {
      rate := (count as real) / (total as real) * 100.0;
    }
  }

  /** The mask of `compute_chargeback_rate`, one AND per filter that is given. */
  method TxMask(tx: seq<TxRow>, f: TxFilters) returns (mask: array<bool>)
    ensures fresh(mask) && mask.Length == |tx|
    ensures forall k :: 0 <= k < |tx| ==> mask[k] == TxMatches(f, tx[k])
  {
    mask := new bool[|tx|](_ => true);
    if f.startDate.Some? {
      var sd := f.startDate.value;
      AndMask(mask, tx, (t: TxRow) => t.date >= sd);
    }
    if f.endDate.Some? {
      var ed := f.endDate.value;
      AndMask(mask, tx, (t: TxRow) => t.date <= ed);
    }
    if Given(f.merchantIds) {
      var ids := f.merchantIds.value;
      AndMask(mask, tx, (t: TxRow) => t.merchantId in ids);
    }
    if Given(f.paymentMethod) {
      var ps := f.paymentMethod.value;
      AndMask(mask, tx, (t: TxRow) => t.paymentMethod in ps);
    }
    if Given(f.country) {
      var cs := f.country.value;
      AndMask(mask, tx, (t: TxRow) => t.country in cs);
    }
  }

  lemma SumCountsAppend(rows: seq<TxRow>, t: TxRow)
    ensures SumCounts(rows + [t]) == SumCounts(rows) + t.transactionsCount
  {
    assert (rows + [t])[..|rows|] == rows;
  }

  /** A selection never sums to more than the rows it came from. */
  lemma {:induction false} SumCountsSelectLe(rows: seq<TxRow>, p: TxRow -> bool)
    ensures SumCounts(Select(rows, p)) <= SumCounts(rows)
  {
    if rows != [] {
      var n := |rows| - 1;
      SumCountsSelectLe(rows[..n], p);
      assert SumCounts(rows) == SumCounts(rows[..n]) + rows[n].transactionsCount;
      if p(rows[n]) {
        assert Select(rows, p) == Select(rows[..n], p) + [rows[n]];
        SumCountsAppend(Select(rows[..n], p), rows[n]);
      } else {
        assert Select(rows, p) == Select(rows[..n], p);
      }
    }
  }

  /** `g` gives every transaction filter `f` gives, with the same value. */
  predicate TxAdds(g: TxFilters, f: TxFilters)
  {
    && (f.startDate.Some? ==> g.startDate == f.startDate)
    && (f.endDate.Some? ==> g.endDate == f.endDate)
    && (Given(f.merchantIds) ==> g.merchantIds == f.merchantIds)
    && (Given(f.paymentMethod) ==> g.paymentMethod == f.paymentMethod)
    && (Given(f.country) ==> g.country == f.country)
  }

  /** A narrower transaction filter never has a larger denominator. */
  lemma MatchingTransactionsNarrows(tx: seq<TxRow>, g: TxFilters, f: TxFilters)
    requires TxAdds(g, f)
    ensures MatchingTransactions(tx, g) <= MatchingTransactions(tx, f)
  {
    var strong := (t: TxRow) => TxMatches(g, t);
    var weak := (t: TxRow) => TxMatches(f, t);
    SelectNarrows(tx, strong, weak);
    SumCountsSelectLe(Select(tx, weak), strong);
  }

  /**
   * Two non-zero rates compare as the cross products of their counts and
   * totals: a slice with a larger share of chargebacks has a strictly
   * larger rate.
   */
  lemma RateOrder(c1: nat, t1: nat, c2: nat, t2: nat)
    requires c1 > 0 && t1 > 0 && c2 > 0 && t2 > 0
    ensures Rate(c1, t1) < Rate(c2, t2) <==> c1 * t2 < c2 * t1
  {
    var a := c1 as real / t1 as real;
    var b := c2 as real / t2 as real;
    assert a * (t1 as real) == c1 as real;
    assert b * (t2 as real) == c2 as real;
    assert (c1 * t2) as real == a * ((t1 * t2) as real);
    assert (c2 * t1) as real == b * ((t1 * t2) as real);
    assert (t1 * t2) as real > 0.0;
  }

  /** The transaction filters the metrics endpoint passes for a chargeback filter. */
  function RateFilters(f: Filters, merchantIds: Option<seq<string>>): TxFilters
  {
    TxFilters(merchantIds, f.startDate, f.endDate, f.paymentMethod, f.country)
  }

  /**
   * The rate's slice cuts the transaction table the way the chargeback
   * filter cut the chargebacks: for a chargeback the filter kept, a
   * transaction row on the same date, with the same payment method and
   * country, passes the date, payment-method and country conditions too,
   * so only the merchant list decides whether it is counted.
   */
  lemma RateFiltersMirror(f: Filters, ids: Option<seq<string>>, r: Record, t: TxRow)
    requires Matches(f, r)
    requires t.date == r.date && t.paymentMethod == r.paymentMethod && t.country == r.country
    ensures TxMatches(RateFilters(f, ids), t) <==> (Given(ids) ==> t.merchantId in ids.value)
  {
    assert MatchesDatesAndMerchant(f, r) && MatchesValuesAndAmounts(f, r);
  }
}
