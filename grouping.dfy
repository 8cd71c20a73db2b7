/**
 * `groupby(column).agg(count=..., amount=...)`: one bucket per distinct key
 * of the rows, holding how many rows have that key and the sum of their
 * amounts.  pandas sorts the groups by key, so the buckets come out in
 * strictly ascending key order.
 */
module Grouping {
  import opened Sorting
  import opened Filters

  datatype Bucket = Bucket(key: Key, count: nat, amount: int)

  /** Keys strictly ascend from one bucket to the next. */
  ghost predicate Ascending(bs: seq<Bucket>)
  {
    forall i :: 0 <= i < |bs| - 1 ==> KeyLt(bs[i].key, bs[i + 1].key)
  }

  /** No bucket is empty. */
  ghost predicate PositiveCounts(bs: seq<Bucket>)
  {
    forall i :: 0 <= i < |bs| ==> bs[i].count >= 1
  }

  ghost function Keys(bs: seq<Bucket>): set<Key>
  {
    set b | b in bs :: b.key
  }

  ghost function RowKeys(rows: seq<Record>, key: Record -> Key): set<Key>
  {
    set r | r in rows :: key(r)
  }

  /** The count recorded for `k`, summed over every bucket with that key. */
  function CountAt(bs: seq<Bucket>, k: Key): nat
  {
    if bs == [] then 0
    else (if bs[0].key == k then bs[0].count else 0) + CountAt(bs[1..], k)
  }

  function AmountAt(bs: seq<Bucket>, k: Key): int
  {
    if bs == [] then 0
    else (if bs[0].key == k then bs[0].amount else 0) + AmountAt(bs[1..], k)
  }

  function TotalCount(bs: seq<Bucket>): nat
  {
    if bs == [] then 0 else bs[0].count + TotalCount(bs[1..])
  }

  function TotalAmount(bs: seq<Bucket>): int
  {
    if bs == [] then 0 else bs[0].amount + TotalAmount(bs[1..])
  }

  /** How many rows have key `k`. */
  function Tally(rows: seq<Record>, key: Record -> Key, k: Key): nat
  {
    if rows == [] then 0
    else Tally(rows[..|rows| - 1], key, k) + (if key(rows[|rows| - 1]) == k then 1 else 0)
  }

  /** The amounts of the rows with key `k`, summed. */
  function AmountTally(rows: seq<Record>, key: Record -> Key, k: Key): int
  {
    if rows == [] then 0
    else
      var last := rows[|rows| - 1];
      AmountTally(rows[..|rows| - 1], key, k) + (if key(last) == k then last.amount else 0)
  }

  /** `amount_usd.sum()`. */
  function SumAmount(rows: seq<Record>): int
  {
    if rows == [] then 0 else SumAmount(rows[..|rows| - 1]) + rows[|rows| - 1].amount
  }

  /**
   * Count one more row with key `k` and amount `amount`: into its bucket when
   * there is one, otherwise into a new bucket placed in key order.
   */
  function AddTo(bs: seq<Bucket>, k: Key, amount: int): (r: seq<Bucket>)
    ensures |r| >= 1
    ensures r[0].key == k || (bs != [] && r[0].key == bs[0].key)
  {
    if bs == [] then [Bucket(k, 1, amount)]
    else if bs[0].key == k then [Bucket(k, bs[0].count + 1, bs[0].amount + amount)] + bs[1..]
    else if KeyLe(k, bs[0].key) then [Bucket(k, 1, amount)] + bs
    else [bs[0]] + AddTo(bs[1..], k, amount)
  }

  /** The groups of `rows` by `key`, one row at a time. */
  function GroupBy(rows: seq<Record>, key: Record -> Key): seq<Bucket>
  {
    if rows == [] then []
    else
      var last := rows[|rows| - 1];
      AddTo(GroupBy(rows[..|rows| - 1], key), key(last), last.amount)
  }

  lemma {:induction false} AddToCounts(bs: seq<Bucket>, k: Key, amount: int, j: Key)
    ensures CountAt(AddTo(bs, k, amount), j) == CountAt(bs, j) + (if j == k then 1 else 0)
    ensures AmountAt(AddTo(bs, k, amount), j) == AmountAt(bs, j) + (if j == k then amount else 0)
  {
    if bs != [] && bs[0].key != k && !KeyLe(k, bs[0].key) {
      AddToCounts(bs[1..], k, amount, j);
    }
  }

  lemma {:induction false} AddToTotals(bs: seq<Bucket>, k: Key, amount: int)
    ensures TotalCount(AddTo(bs, k, amount)) == TotalCount(bs) + 1
    ensures TotalAmount(AddTo(bs, k, amount)) == TotalAmount(bs) + amount
  {
    if bs != [] && bs[0].key != k && !KeyLe(k, bs[0].key) {
      AddToTotals(bs[1..], k, amount);
    }
  }

  lemma {:induction false} AddToKeys(bs: seq<Bucket>, k: Key, amount: int)
    ensures Keys(AddTo(bs, k, amount)) == Keys(bs) + {k}
  {
    var r := AddTo(bs, k, amount);
    if bs == [] {
    } else if bs[0].key == k {
      assert bs == [bs[0]] + bs[1..];
      assert Keys(bs) == {bs[0].key} + Keys(bs[1..]);
      assert Keys(r) == {k} + Keys(bs[1..]);
    } else if KeyLe(k, bs[0].key) {
      assert Keys(r) == {k} + Keys(bs);
    } else {
      AddToKeys(bs[1..], k, amount);
      assert bs == [bs[0]] + bs[1..];
      assert Keys(bs) == {bs[0].key} + Keys(bs[1..]);
      assert Keys(r) == {bs[0].key} + Keys(AddTo(bs[1..], k, amount));
    }
  }

  lemma {:induction false} AddToAscending(bs: seq<Bucket>, k: Key, amount: int)
    requires Ascending(bs) && PositiveCounts(bs)
    ensures Ascending(AddTo(bs, k, amount)) && PositiveCounts(AddTo(bs, k, amount))
  {
    if bs != [] && bs[0].key != k && !KeyLe(k, bs[0].key) {
      AddToAscending(bs[1..], k, amount);
      KeyLeTotal(k, bs[0].key);
      var rest := AddTo(bs[1..], k, amount);
      assert KeyLt(bs[0].key, rest[0].key);
    }
  }

  /**
   * The groups of `rows`: keys strictly ascending, no empty bucket, exactly
   * the keys the rows have, and each key's bucket counts the rows with that
   * key and sums their amounts; in all, the buckets account for every row
   * and every amount.
   */
  lemma GroupBySpec(rows: seq<Record>, key: Record -> Key)
    ensures Ascending(GroupBy(rows, key)) && PositiveCounts(GroupBy(rows, key))
    ensures Keys(GroupBy(rows, key)) == RowKeys(rows, key)
    ensures forall k :: CountAt(GroupBy(rows, key), k) == Tally(rows, key, k)
    ensures forall k :: AmountAt(GroupBy(rows, key), k) == AmountTally(rows, key, k)
    ensures TotalCount(GroupBy(rows, key)) == |rows|
    ensures TotalAmount(GroupBy(rows, key)) == SumAmount(rows)
  {
    GroupByAscending(rows, key);
    GroupByKeys(rows, key);
    forall k
      ensures CountAt(GroupBy(rows, key), k) == Tally(rows, key, k)
      ensures AmountAt(GroupBy(rows, key), k) == AmountTally(rows, key, k)
    {
      GroupByCounts(rows, key, k);
    }
    GroupByTotals(rows, key);
  }

  lemma {:induction false} GroupByAscending(rows: seq<Record>, key: Record -> Key)
    ensures Ascending(GroupBy(rows, key)) && PositiveCounts(GroupBy(rows, key))
  {
    if rows != [] {
      var n := |rows| - 1;
      GroupByAscending(rows[..n], key);
      AddToAscending(GroupBy(rows[..n], key), key(rows[n]), rows[n].amount);
    }
  }

  lemma {:induction false} GroupByKeys(rows: seq<Record>, key: Record -> Key)
    ensures Keys(GroupBy(rows, key)) == RowKeys(rows, key)
  {
    if rows != [] {
      var n := |rows| - 1;
      GroupByKeys(rows[..n], key);
      AddToKeys(GroupBy(rows[..n], key), key(rows[n]), rows[n].amount);
      assert rows == rows[..n] + [rows[n]];
      assert RowKeys(rows, key) == RowKeys(rows[..n], key) + {key(rows[n])};
    }
  }

  lemma {:induction false} GroupByCounts(rows: seq<Record>, key: Record -> Key, k: Key)
    ensures CountAt(GroupBy(rows, key), k) == Tally(rows, key, k)
    ensures AmountAt(GroupBy(rows, key), k) == AmountTally(rows, key, k)
  {
    if rows != [] {
      var n := |rows| - 1;
      GroupByCounts(rows[..n], key, k);
      AddToCounts(GroupBy(rows[..n], key), key(rows[n]), rows[n].amount, k);
    }
  }

  lemma {:induction false} GroupByTotals(rows: seq<Record>, key: Record -> Key)
    ensures TotalCount(GroupBy(rows, key)) == |rows|
    ensures TotalAmount(GroupBy(rows, key)) == SumAmount(rows)
  {
    if rows != [] {
      var n := |rows| - 1;
      GroupByTotals(rows[..n], key);
      AddToTotals(GroupBy(rows[..n], key), key(rows[n]), rows[n].amount);
    }
  }

  lemma KeyLtTransitive(a: Key, b: Key, c: Key)
    requires KeyLt(a, b) && KeyLt(b, c)
    ensures KeyLt(a, c)
  {
    KeyLeTransitive(a, b, c);
    if a == c {
      KeyLeAntisymmetric(a, b);
    }
  }

  /** In ascending buckets every earlier key is below every later one. */
  lemma {:induction false} AscendingPairs(bs: seq<Bucket>, i: int, j: int)
    requires Ascending(bs) && 0 <= i < j < |bs|
    ensures KeyLt(bs[i].key, bs[j].key)
    decreases j - i
  {
    if i + 1 < j {
      AscendingPairs(bs, i + 1, j);
      KeyLtTransitive(bs[i].key, bs[i + 1].key, bs[j].key);
    }
  }

  /** One bucket per key: two different buckets never share a key. */
  lemma OneBucketPerKey(bs: seq<Bucket>, i: int, j: int)
    requires Ascending(bs) && 0 <= i < |bs| && 0 <= j < |bs| && i != j
    ensures bs[i].key != bs[j].key
  {
    if i < j { AscendingPairs(bs, i, j); } else { AscendingPairs(bs, j, i); }
  }

  lemma {:induction false} CountAtAbsent(bs: seq<Bucket>, k: Key)
    requires forall i :: 0 <= i < |bs| ==> bs[i].key != k
    ensures CountAt(bs, k) == 0 && AmountAt(bs, k) == 0
  {
    if bs != [] {
      CountAtAbsent(bs[1..], k);
    }
  }

  /** The bucket of a key holds all of that key's count and amount. */
  lemma {:induction false} BucketHoldsKey(bs: seq<Bucket>, i: int)
    requires Ascending(bs) && 0 <= i < |bs|
    ensures CountAt(bs, bs[i].key) == bs[i].count
    ensures AmountAt(bs, bs[i].key) == bs[i].amount
  {
    var k := bs[i].key;
    var tail := bs[1..];
    if i == 0 {
      forall j | 0 <= j < |tail|
        ensures tail[j].key != k
      {
        OneBucketPerKey(bs, 0, j + 1);
      }
      CountAtAbsent(tail, k);
    } else {
      OneBucketPerKey(bs, 0, i);
      assert Ascending(tail);
      BucketHoldsKey(tail, i - 1);
    }
  }

  /** Ascending buckets hold each bucket once. */
  lemma {:induction false} AscendingOnce(bs: seq<Bucket>)
    requires Ascending(bs)
    ensures forall b :: multiset(bs)[b] <= 1
  {
    if bs != [] {
      var tail := bs[1..];
      assert Ascending(tail);
      AscendingOnce(tail);
      forall j | 0 <= j < |tail|
        ensures tail[j] != bs[0]
      {
        OneBucketPerKey(bs, 0, j + 1);
      }
      assert bs == [bs[0]] + tail;
      assert bs[0] !in multiset(tail);
    }
  }

  /** Buckets drawn without repetition from ascending buckets have distinct keys. */
  lemma DrawnKeysDistinct(drawn: seq<Bucket>, bs: seq<Bucket>)
    requires Ascending(bs) && multiset(drawn) <= multiset(bs)
    ensures forall i, j :: 0 <= i < j < |drawn| ==> drawn[i].key != drawn[j].key
  {
    AscendingOnce(bs);
    forall i, j | 0 <= i < j < |drawn|
      ensures drawn[i].key != drawn[j].key
    {
      assert drawn == drawn[..j] + drawn[j..];
      assert drawn[..j][i] == drawn[i] && drawn[j..][0] == drawn[j];
      assert multiset(drawn)[drawn[i]] <= 1;
      assert drawn[i] != drawn[j];
      assert drawn[i] in multiset(bs) && drawn[j] in multiset(bs);
      var p :| 0 <= p < |bs| && bs[p] == drawn[i];
      var q :| 0 <= q < |bs| && bs[q] == drawn[j];
      OneBucketPerKey(bs, p, q);
    }
  }
}
