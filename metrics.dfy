/**
 * `get_metrics`: the dashboard summary over the filtered chargebacks.  It
 * gives the totals, the overall rate against transaction volume, the
 * period-over-period trend, five breakdowns and the ten merchants with the
 * most chargebacks, each with its own rate.
 */
module Metrics {
  import opened Wrappers
  import opened Sorting
  import opened Filters
  import opened Rates
  import opened Trends
  import opened Listing
  import opened Grouping

  /** How many merchants the summary ranks. */
  const TopCount: nat := 10

  datatype MerchantEntry = MerchantEntry(
    merchantId: string,
    merchantName: string,
    count: nat,
    amount: int,
    rate: real)

  datatype Metrics = Metrics(
    totalChargebacks: nat,
    totalDisputedAmount: int,
    chargebackRate: real,
    trendPct: real,
    byCategory: seq<Bucket>,
    byCountry: seq<Bucket>,
    byPaymentMethod: seq<Bucket>,
    byProcessor: seq<Bucket>,
    byDay: seq<Bucket>,
    topMerchants: seq<MerchantEntry>)

  /** The group key of the top-merchant ranking: the (id, name) pair. */
  function ByMerchant(): Record -> Key
  {
    (r: Record) => PairKey(r.merchantId, r.merchantName)
  }

  function BucketKey(): Bucket -> Key
  {
    (b: Bucket) => b.key
  }

  function ByCount(): Bucket -> Key
  {
    (b: Bucket) => IntKey(b.count)
  }

  /** One breakdown: nothing when no chargeback matched, else the groups by the column. */
  function Breakdown(filtered: seq<Record>, c: SortColumn): seq<Bucket>
  {
    if filtered == [] then [] else GroupBy(filtered, ByColumn(c))
  }

  /** The daily breakdown, grouped by date and then sorted by date again. */
  function DailyBreakdown(filtered: seq<Record>): seq<Bucket>
  {
    if filtered == [] then [] else SortByKey(GroupBy(filtered, ByColumn(Date)), BucketKey(), true)
  }

  /** `head(n)`. */
  function Take<T>(s: seq<T>, n: nat): (r: seq<T>)
    ensures |r| <= n && |r| <= |s|
    ensures |r| == n || |r| == |s|
    ensures forall i :: 0 <= i < |r| ==> r[i] == s[i]
  {
    if |s| <= n then s else s[..n]
  }

  /** The merchant groups by count, largest first, cut to the first ten. */
  function RankedMerchants(filtered: seq<Record>): seq<Bucket>
  {
    Take(SortByKey(GroupBy(filtered, ByMerchant()), ByCount(), false), TopCount)
  }

  /** The merchant id of a merchant group's key. */
  function MerchantIdOf(k: Key): string
  {
    match k
    case PairKey(id, _) => id
    case _ => []
  }

  function MerchantNameOf(k: Key): string
  {
    match k
    case PairKey(_, name) => name
    case _ => []
  }

  /** A merchant's rate: its chargebacks against its own transactions in the slice. */
  function MerchantRate(tx: seq<TxRow>, f: Filters, id: string, count: nat): real
  {
    Rate(count, MatchingTransactions(tx, RateFilters(f, Some([id]))))
  }

  function EntryOf(b: Bucket, tx: seq<TxRow>, f: Filters): MerchantEntry
  {
    var id := MerchantIdOf(b.key);
    MerchantEntry(id, MerchantNameOf(b.key), b.count, b.amount, MerchantRate(tx, f, id, b.count))
  }

  /** One entry per ranked merchant group, in rank order. */
  function TopEntries(ranked: seq<Bucket>, tx: seq<TxRow>, f: Filters): (r: seq<MerchantEntry>)
    ensures |r| == |ranked|
    ensures forall i :: 0 <= i < |ranked| ==> r[i] == EntryOf(ranked[i], tx, f)
  {
    if ranked == [] then []
    else TopEntries(ranked[..|ranked| - 1], tx, f) + [EntryOf(ranked[|ranked| - 1], tx, f)]
  }

  function TopMerchants(filtered: seq<Record>, tx: seq<TxRow>, f: Filters): seq<MerchantEntry>
  {
    if filtered == [] then [] else TopEntries(RankedMerchants(filtered), tx, f)
  }

  function MerchantIds(rows: seq<Record>): (r: seq<string>)
    ensures |r| == |rows|
    ensures forall i :: 0 <= i < |rows| ==> r[i] == rows[i].merchantId
  {
    if rows == [] then []
    else MerchantIds(rows[..|rows| - 1]) + [rows[|rows| - 1].merchantId]
  }

  /** `unique()`: each value once, in order of first appearance. */
  function Distinct(s: seq<string>): seq<string>
  {
    if s == [] then []
    else
      var d := Distinct(s[..|s| - 1]);
      if s[|s| - 1] in d then d else d + [s[|s| - 1]]
  }

  /**
   * The overall rate: the matched chargebacks against the transactions of
   * the merchants among them, or against every transaction in the slice
   * (and so 0) when nothing matched.
   */
  function OverallRate(filtered: seq<Record>, tx: seq<TxRow>, f: Filters): real
  {
    var ids := if filtered == [] then None else Some(Distinct(MerchantIds(filtered)));
    Rate(|filtered|, MatchingTransactions(tx, RateFilters(f, ids)))
  }

  /** What `get_metrics` answers for a request, given the day it runs. */
  function MetricsOf(table: seq<Record>, tx: seq<TxRow>, q: Request, today: int): Metrics
  {
    var f := RequestFilters(q);
    var filtered := Keep(table, f);
    Metrics(
      |filtered|,
      if filtered == [] then 0 else SumAmount(filtered),
      OverallRate(filtered, tx, f),
      TrendPct(table, q.startDate, q.endDate, today),
      Breakdown(filtered, ReasonCategory),
      Breakdown(filtered, Country),
      Breakdown(filtered, PaymentMethod),
      Breakdown(filtered, Processor),
      DailyBreakdown(filtered),
      TopMerchants(filtered, tx, f))
  }

  /**
   * `get_metrics`: filter, total, rate the whole selection, then rank the
   * merchants and rate each in turn.
   */
  method GetMetrics(table: seq<Record>, tx: seq<TxRow>, q: Request, today: int) returns (m: Metrics)
    ensures m == MetricsOf(table, tx, q, today)
  {
    var f := RequestFilters(q);
    var filtered := ApplyFilters(table, f);
    var total := |filtered|;
    var totalAmount := if total > 0 then SumAmount(filtered) else 0;
    var ids := if total > 0 then Some(Distinct(MerchantIds(filtered))) else None;
    var rate := ComputeChargebackRate(total, tx, RateFilters(f, ids));
    var trend := TrendPct(table, q.startDate, q.endDate, today);

    var byReason: seq<Bucket> := [];
    var byCountry: seq<Bucket> := [];
    var byPaymentMethod: seq<Bucket> := [];
    var byProcessor: seq<Bucket> := [];
    var byDay: seq<Bucket> := [];
    var top: seq<MerchantEntry> := [];
    if total > 0 {
      byReason := GroupBy(filtered, ByColumn(ReasonCategory));
      byCountry := GroupBy(filtered, ByColumn(Country));
      byPaymentMethod := GroupBy(filtered, ByColumn(PaymentMethod));
      byProcessor := GroupBy(filtered, ByColumn(Processor));
      byDay := SortByKey(GroupBy(filtered, ByColumn(Date)), BucketKey(), true);
      top := RateMerchants(RankedMerchants(filtered), tx, f);
    }

    m := Metrics(total, totalAmount, rate, trend,
      byReason, byCountry, byPaymentMethod, byProcessor, byDay, top);
  }

  /** The loop over the ranked merchant groups: one entry each, with its rate. */
  method RateMerchants(ranked: seq<Bucket>, tx: seq<TxRow>, f: Filters) returns (top: seq<MerchantEntry>)
    ensures top == TopEntries(ranked, tx, f)
  {
    top := [];
    for i := 0 to |ranked|
      invariant top == TopEntries(ranked[..i], tx, f)
    {
      var b := ranked[i];
      var id := MerchantIdOf(b.key);
      var merchantRate := ComputeChargebackRate(b.count, tx, RateFilters(f, Some([id])));
      top := top + [MerchantEntry(id, MerchantNameOf(b.key), b.count, b.amount, merchantRate)];
      assert ranked[..i + 1][..i] == ranked[..i];
    }
    assert ranked[..|ranked|] == ranked;
  }

  /** `unique()` keeps exactly the values of its input, each once. */
  lemma {:induction false} DistinctSpec(s: seq<string>)
    ensures forall x :: x in Distinct(s) <==> x in s
    ensures forall i, j :: 0 <= i < j < |Distinct(s)| ==> Distinct(s)[i] != Distinct(s)[j]
  {
    if s != [] {
      var n := |s| - 1;
      DistinctSpec(s[..n]);
      assert s == s[..n] + [s[n]];
    }
  }

  /**
   * The overall rate's denominator, when something matched: the slice's
   * transaction rows whose merchant has a matched chargeback.
   */
  lemma OverallRateSlice(filtered: seq<Record>, f: Filters, t: TxRow)
    requires filtered != []
    ensures TxMatches(RateFilters(f, Some(Distinct(MerchantIds(filtered)))), t) <==>
      && (f.startDate.Some? ==> t.date >= f.startDate.value)
      && (f.endDate.Some? ==> t.date <= f.endDate.value)
      && (Given(f.paymentMethod) ==> t.paymentMethod in f.paymentMethod.value)
      && (Given(f.country) ==> t.country in f.country.value)
      && exists r :: r in filtered && r.merchantId == t.merchantId
  {
    var ids := MerchantIds(filtered);
    DistinctSpec(ids);
    assert ids[0] in Distinct(ids);
    if t.merchantId in ids {
      var i :| 0 <= i < |ids| && ids[i] == t.merchantId;
      assert filtered[i] in filtered;
    }
    if exists r :: r in filtered && r.merchantId == t.merchantId {
      var r :| r in filtered && r.merchantId == t.merchantId;
      var i :| 0 <= i < |filtered| && filtered[i] == r;
      assert ids[i] == t.merchantId;
    }
  }

  /**
   * The overall rate's slice holds every transaction row that shares a
   * matched chargeback's date, merchant, payment method and country.
   */
  lemma OverallRateCoversMatches(table: seq<Record>, f: Filters, r: Record, t: TxRow)
    requires r in Keep(table, f)
    requires t.date == r.date && t.merchantId == r.merchantId
    requires t.paymentMethod == r.paymentMethod && t.country == r.country
    ensures TxMatches(RateFilters(f, Some(Distinct(MerchantIds(Keep(table, f))))), t)
  {
    var filtered := Keep(table, f);
    KeepMembership(table, f, r);
    var ids := MerchantIds(filtered);
    DistinctSpec(ids);
    var i :| 0 <= i < |filtered| && filtered[i] == r;
    assert ids[i] == t.merchantId;
    RateFiltersMirror(f, Some(Distinct(ids)), r, t);
  }

  /** The summary counts exactly the rows the listing pages through, whatever page. */
  lemma MetricsAgreeWithListing(table: seq<Record>, tx: seq<TxRow>, q: Request, today: int,
                                page: int, pageSize: int, sortBy: Option<string>, sortDir: string)
    requires page >= 1 && 1 <= pageSize <= 500
    ensures MetricsOf(table, tx, q, today).totalChargebacks
      == GetChargebacks(table, q, page, pageSize, sortBy, sortDir).total
  {
    ListingTotal(table, q, page, pageSize, sortBy, sortDir);
  }

  /** A breakdown: one bucket per value of the column, together accounting for every row. */
  lemma BreakdownSpec(filtered: seq<Record>, c: SortColumn)
    ensures Ascending(Breakdown(filtered, c)) && PositiveCounts(Breakdown(filtered, c))
    ensures Keys(Breakdown(filtered, c)) == RowKeys(filtered, ByColumn(c))
    ensures forall k :: CountAt(Breakdown(filtered, c), k) == Tally(filtered, ByColumn(c), k)
    ensures forall k :: AmountAt(Breakdown(filtered, c), k) == AmountTally(filtered, ByColumn(c), k)
    ensures TotalCount(Breakdown(filtered, c)) == |filtered|
    ensures TotalAmount(Breakdown(filtered, c)) == SumAmount(filtered)
  {
    GroupBySpec(filtered, ByColumn(c));
  }

  lemma AscendingIsSorted(bs: seq<Bucket>)
    requires Ascending(bs)
    ensures SortedByKey(bs, BucketKey(), true)
  {
  }

  /**
   * The daily breakdown is the date groups in ascending date order, one per
   * day; sorting them again changes nothing.
   */
  lemma DailyBreakdownSpec(filtered: seq<Record>)
    ensures DailyBreakdown(filtered) == Breakdown(filtered, Date)
    ensures SortedByKey(DailyBreakdown(filtered), BucketKey(), true)
    ensures Ascending(DailyBreakdown(filtered))
  {
    if filtered != [] {
      var g := GroupBy(filtered, ByColumn(Date));
      GroupByAscending(filtered, ByColumn(Date));
      AscendingIsSorted(g);
      SortSorted(g, BucketKey(), true);
    }
  }

  /**
   * Nothing matched exactly when every breakdown is empty, and then the
   * amount, the rate and the ranking are empty too.
   */
  lemma MetricsWhenEmpty(table: seq<Record>, tx: seq<TxRow>, q: Request, today: int)
    ensures var m := MetricsOf(table, tx, q, today);
      && (m.totalChargebacks == 0 <==> m.byCategory == [])
      && (m.totalChargebacks == 0 <==> m.byCountry == [])
      && (m.totalChargebacks == 0 <==> m.byPaymentMethod == [])
      && (m.totalChargebacks == 0 <==> m.byProcessor == [])
      && (m.totalChargebacks == 0 <==> m.byDay == [])
      && (m.totalChargebacks == 0 <==> m.topMerchants == [])
      && (m.totalChargebacks == 0 ==> m.totalDisputedAmount == 0 && m.chargebackRate == 0.0)
  {
    var filtered := Keep(table, RequestFilters(q));
    BreakdownSpec(filtered, ReasonCategory);
    BreakdownSpec(filtered, Country);
    BreakdownSpec(filtered, PaymentMethod);
    BreakdownSpec(filtered, Processor);
    BreakdownSpec(filtered, Date);
    DailyBreakdownSpec(filtered);
    if filtered != [] {
      GroupByTotals(filtered, ByMerchant());
    }
  }

  /** Every breakdown adds up to the totals at the head of the summary. */
  lemma MetricsBreakdownsAddUp(table: seq<Record>, tx: seq<TxRow>, q: Request, today: int)
    ensures var m := MetricsOf(table, tx, q, today);
      && TotalCount(m.byCategory) == m.totalChargebacks
      && TotalCount(m.byCountry) == m.totalChargebacks
      && TotalCount(m.byPaymentMethod) == m.totalChargebacks
      && TotalCount(m.byProcessor) == m.totalChargebacks
      && TotalCount(m.byDay) == m.totalChargebacks
      && TotalAmount(m.byCategory) == m.totalDisputedAmount
      && TotalAmount(m.byCountry) == m.totalDisputedAmount
      && TotalAmount(m.byPaymentMethod) == m.totalDisputedAmount
      && TotalAmount(m.byProcessor) == m.totalDisputedAmount
      && TotalAmount(m.byDay) == m.totalDisputedAmount
  {
    var filtered := Keep(table, RequestFilters(q));
    BreakdownSpec(filtered, ReasonCategory);
    BreakdownSpec(filtered, Country);
    BreakdownSpec(filtered, PaymentMethod);
    BreakdownSpec(filtered, Processor);
    BreakdownSpec(filtered, Date);
    DailyBreakdownSpec(filtered);
  }

  /** A merchant group: a merchant of the rows, counting and summing its rows. */
  lemma MerchantGroup(filtered: seq<Record>, b: Bucket)
    requires b in GroupBy(filtered, ByMerchant())
    ensures exists r :: r in filtered && b.key == PairKey(r.merchantId, r.merchantName)
    ensures 1 <= b.count == Tally(filtered, ByMerchant(), b.key)
    ensures b.amount == AmountTally(filtered, ByMerchant(), b.key)
  {
    var g := GroupBy(filtered, ByMerchant());
    GroupBySpec(filtered, ByMerchant());
    var j :| 0 <= j < |g| && g[j] == b;
    BucketHoldsKey(g, j);
    assert b.key in Keys(g);
  }

  /**
   * The ranking: the heaviest merchant groups, at most ten, each drawn once
   * from the groups, by count descending.
   */
  lemma RankedMerchantsSpec(filtered: seq<Record>)
    ensures |RankedMerchants(filtered)| == (if |GroupBy(filtered, ByMerchant())| < TopCount
      then |GroupBy(filtered, ByMerchant())| else TopCount)
    ensures multiset(RankedMerchants(filtered)) <= multiset(GroupBy(filtered, ByMerchant()))
    ensures forall i :: 0 <= i < |RankedMerchants(filtered)| ==>
      RankedMerchants(filtered)[i] in GroupBy(filtered, ByMerchant())
    ensures forall i, j :: 0 <= i < j < |RankedMerchants(filtered)| ==>
      RankedMerchants(filtered)[i].key != RankedMerchants(filtered)[j].key
    ensures forall i, j :: 0 <= i < j < |RankedMerchants(filtered)| ==>
      RankedMerchants(filtered)[i].count >= RankedMerchants(filtered)[j].count
  {
    var g := GroupBy(filtered, ByMerchant());
    var sorted := SortByKey(g, ByCount(), false);
    var ranked := RankedMerchants(filtered);
    assert sorted == ranked + sorted[|ranked|..];
    assert multiset(ranked) <= multiset(g);
    forall i | 0 <= i < |ranked|
      ensures ranked[i] in g
    {
      assert ranked[i] in multiset(ranked);
    }
    GroupByAscending(filtered, ByMerchant());
    DrawnKeysDistinct(ranked, g);
    forall i, j | 0 <= i < j < |ranked|
      ensures ranked[i].count >= ranked[j].count
    {
      SortedAllPairs(sorted, ByCount(), false, i, j);
    }
  }

  /**
   * The top merchants: at most ten, as many as there are merchants up to
   * ten, no merchant twice, by count descending.
   */
  lemma TopMerchantsOrder(filtered: seq<Record>, tx: seq<TxRow>, f: Filters)
    ensures var top := TopMerchants(filtered, tx, f);
      && |top| <= TopCount
      && |top| == (if |GroupBy(filtered, ByMerchant())| < TopCount
           then |GroupBy(filtered, ByMerchant())| else TopCount)
      && (forall i, j :: 0 <= i < j < |top| ==>
           (top[i].merchantId, top[i].merchantName) != (top[j].merchantId, top[j].merchantName))
      && forall i, j :: 0 <= i < j < |top| ==> top[i].count >= top[j].count
  {
    RankedMerchantsSpec(filtered);
    if filtered == [] {
      GroupByTotals(filtered, ByMerchant());
    } else {
      TopMerchantsDistinct(filtered, tx, f);
    }
  }

  /** Two top merchants never share their (id, name) pair. */
  lemma TopMerchantsDistinct(filtered: seq<Record>, tx: seq<TxRow>, f: Filters)
    requires filtered != []
    ensures var top := TopMerchants(filtered, tx, f);
      forall i, j :: 0 <= i < j < |top| ==>
        (top[i].merchantId, top[i].merchantName) != (top[j].merchantId, top[j].merchantName)
  {
    var ranked := RankedMerchants(filtered);
    var top := TopMerchants(filtered, tx, f);
    RankedMerchantsSpec(filtered);
    forall i, j | 0 <= i < j < |top|
      ensures (top[i].merchantId, top[i].merchantName) != (top[j].merchantId, top[j].merchantName)
    {
      MerchantGroup(filtered, ranked[i]);
      MerchantGroup(filtered, ranked[j]);
      assert ranked[i].key == PairKey(top[i].merchantId, top[i].merchantName);
      assert ranked[j].key == PairKey(top[j].merchantId, top[j].merchantName);
    }
  }

  /**
   * Each top merchant is a merchant of the matched rows, with its own count
   * and amount, rated against its own transactions in the slice.
   */
  lemma TopMerchantEntry(filtered: seq<Record>, tx: seq<TxRow>, f: Filters, i: int)
    requires 0 <= i < |TopMerchants(filtered, tx, f)|
    ensures var e := TopMerchants(filtered, tx, f)[i];
      && (exists r :: r in filtered && r.merchantId == e.merchantId && r.merchantName == e.merchantName)
      && 1 <= e.count == Tally(filtered, ByMerchant(), PairKey(e.merchantId, e.merchantName))
      && e.amount == AmountTally(filtered, ByMerchant(), PairKey(e.merchantId, e.merchantName))
      && e.rate == Rate(e.count, MatchingTransactions(tx, RateFilters(f, Some([e.merchantId]))))
  {
    var ranked := RankedMerchants(filtered);
    RankedMerchantsSpec(filtered);
    MerchantGroup(filtered, ranked[i]);
  }

  /**
   * The ranking keeps the heaviest merchants: a merchant of the matched rows
   * left out of it has no more chargebacks than any merchant in it.
   */
  lemma TopMerchantsHeaviest(filtered: seq<Record>, tx: seq<TxRow>, f: Filters, r: Record, i: int)
    requires r in filtered
    requires forall k :: 0 <= k < |TopMerchants(filtered, tx, f)| ==>
      (TopMerchants(filtered, tx, f)[k].merchantId, TopMerchants(filtered, tx, f)[k].merchantName)
        != (r.merchantId, r.merchantName)
    requires 0 <= i < |TopMerchants(filtered, tx, f)|
    ensures Tally(filtered, ByMerchant(), PairKey(r.merchantId, r.merchantName))
      <= TopMerchants(filtered, tx, f)[i].count
  {
    var top := TopMerchants(filtered, tx, f);
    var ranked := RankedMerchants(filtered);
    var key := PairKey(r.merchantId, r.merchantName);
    var b := MerchantBucketOf(filtered, r);
    if b in ranked {
      assert false;
    }
    RankedHeaviest(filtered, b, i);
  }

  /** The bucket of a row's merchant. */
  lemma MerchantBucketOf(filtered: seq<Record>, r: Record) returns (b: Bucket)
    requires r in filtered
    ensures b in GroupBy(filtered, ByMerchant())
    ensures b.key == PairKey(r.merchantId, r.merchantName)
    ensures b.count == Tally(filtered, ByMerchant(), b.key)
  {
    var g := GroupBy(filtered, ByMerchant());
    GroupByKeys(filtered, ByMerchant());
    var key := PairKey(r.merchantId, r.merchantName);
    assert key in RowKeys(filtered, ByMerchant());
    assert key in Keys(g);
    b :| b in g && b.key == key;
    MerchantGroup(filtered, b);
  }

  /** A merchant group outside the ranking has no more rows than any group in it. */
  lemma RankedHeaviest(filtered: seq<Record>, b: Bucket, i: int)
    requires b in GroupBy(filtered, ByMerchant()) && b !in RankedMerchants(filtered)
    requires 0 <= i < |RankedMerchants(filtered)|
    ensures b.count <= RankedMerchants(filtered)[i].count
  {
    var sorted := SortByKey(GroupBy(filtered, ByMerchant()), ByCount(), false);
    var ranked := RankedMerchants(filtered);
    assert b in multiset(sorted);
    var j :| 0 <= j < |sorted| && sorted[j] == b;
    if j < |ranked| {
      assert false;
    }
    assert ranked[i] == sorted[i];
    SortedAllPairs(sorted, ByCount(), false, i, j);
  }
}
