/**
 * The request layer shared by both endpoints (`_parse_list` and the
 * translation of query parameters into filters) and the record listing of
 * `get_chargebacks`: filter, sort by an allowed column, cut out one page.
 */
module Listing {
  import opened Wrappers
  import opened Text
  import opened Sorting
  import opened Selection
  import opened Filters

  /** Strip every piece and drop the ones left blank. */
  function NonBlank(pieces: seq<string>): seq<string>
  {
    if pieces == [] then [] else Stripped(pieces[0]) + NonBlank(pieces[1..])
  }

  /** One piece, stripped, or nothing when it was blank. */
  function Stripped(p: string): (r: seq<string>)
    ensures forall e :: e in r ==> Unpadded(e)
  {
    var s := Strip(p);
    if s != [] then [s] else []
  }

  /** A non-blank string with no whitespace at either end. */
  predicate Unpadded(e: string)
  {
    e != [] && !IsSpace(e[0]) && !IsSpace(e[|e| - 1])
  }

  /** Every item left is non-blank and unpadded. */
  lemma {:induction false} NonBlankItems(pieces: seq<string>)
    ensures forall e :: e in NonBlank(pieces) ==> Unpadded(e)
  {
    if pieces != [] {
      NonBlankItems(pieces[1..]);
    }
  }

  /**
   * `_parse_list`: no list for an absent or empty parameter, otherwise the
   * comma-separated pieces, stripped, with blank pieces dropped.
   */
  function ParseList(value: Option<string>): Option<seq<string>>
  {
    if value.None? || value.value == [] then None
    else Some(NonBlank(Split(value.value, ',')))
  }

  /** No list for nothing; otherwise every item is non-blank, unpadded and comma-free. */
  lemma ParseListClean(value: Option<string>)
    ensures ParseList(value).None? <==> value.None? || value.value == []
    ensures ParseList(value).Some? ==>
      forall e :: e in ParseList(value).value ==> Unpadded(e) && ',' !in e
  {
    if value.Some? && value.value != [] {
      var pieces := Split(value.value, ',');
      SplitPiecesNoSep(value.value, ',');
      NonBlankItems(pieces);
      NonBlankNoSep(pieces, ',');
    }
  }

  lemma {:induction false} NonBlankNoSep(pieces: seq<string>, sep: char)
    requires forall p :: p in pieces ==> sep !in p
    ensures forall e :: e in NonBlank(pieces) ==> sep !in e
  {
    if pieces != [] {
      assert forall p :: p in pieces[1..] ==> p in pieces;
      NonBlankNoSep(pieces[1..], sep);
      StripKeepsChars(pieces[0]);
    }
  }

  lemma StripKeepsChars(s: string)
    ensures forall c :: c in Strip(s) ==> c in s
  {
    var l := StripLeft(s);
    var r := StripRight(l);
    assert forall c :: c in r ==> c in l;
    assert forall c :: c in l ==> c in s;
  }

  /** Stripping a string with nothing to strip leaves it as it is. */
  lemma StripUnpadded(e: string)
    requires Unpadded(e)
    ensures Strip(e) == e
  {
  }

  /** An item that `_parse_list` gives back unchanged. */
  predicate CleanItem(e: string)
  {
    Unpadded(e) && ',' !in e
  }

  lemma {:induction false} NonBlankClean(items: seq<string>)
    requires forall e :: e in items ==> CleanItem(e)
    ensures NonBlank(items) == items
  {
    if items != [] {
      var tail := items[1..];
      assert forall e :: e in tail ==> e in items;
      NonBlankClean(tail);
      assert items[0] in items;
      StrippedClean(items[0]);
      assert NonBlank(items) == [items[0]] + tail;
      assert items == [items[0]] + tail;
    }
  }

  lemma StrippedClean(e: string)
    requires Unpadded(e)
    ensures Stripped(e) == [e]
  {
    StripUnpadded(e);
  }

  /** Joining clean items with commas and parsing gives the items back. */
  lemma ParseListRoundTrip(items: seq<string>)
    requires |items| >= 1
    requires forall e :: e in items ==> CleanItem(e)
    ensures ParseList(Some(Join(items, ','))) == Some(items)
  {
    SplitJoin(items, ',');
    NonBlankClean(items);
    JoinNonEmpty(items, ',');
  }

  lemma {:induction false} JoinNonEmpty(items: seq<string>, sep: char)
    requires |items| >= 1 && items[0] != []
    ensures Join(items, sep) != []
  {
  }

  /** The query parameters both endpoints take, before list parsing. */
  datatype Request = Request(
    startDate: Option<int>,
    endDate: Option<int>,
    merchantId: Option<string>,
    reasonCategory: Option<string>,
    paymentMethod: Option<string>,
    country: Option<string>,
    minAmount: Option<int>,
    maxAmount: Option<int>)

  /** The `apply_filters` call both endpoints make for a request. */
  function RequestFilters(q: Request): Filters
  {
    Filters(q.startDate, q.endDate, q.merchantId,
      ParseList(q.reasonCategory), ParseList(q.paymentMethod), ParseList(q.country),
      q.minAmount, q.maxAmount)
  }

  /** The columns a listing may be sorted by. */
  datatype SortColumn =
    | Date | MerchantName | MerchantId | Country
    | ReasonCategory | PaymentMethod | AmountUsd | Processor

  function ColumnName(c: SortColumn): string
  {
    match c
    case Date => "date"
    case MerchantName => "merchant_name"
    case MerchantId => "merchant_id"
    case Country => "country"
    case ReasonCategory => "reason_category"
    case PaymentMethod => "payment_method"
    case AmountUsd => "amount_usd"
    case Processor => "processor"
  }

  /** The allow-list, in the source's order. */
  const AllowedColumns: seq<SortColumn> :=
    [Date, MerchantName, MerchantId, Country, ReasonCategory, PaymentMethod, AmountUsd, Processor]

  function FindColumn(name: string, cols: seq<SortColumn>): Option<SortColumn>
  {
    if cols == [] then None
    else if ColumnName(cols[0]) == name then Some(cols[0])
    else FindColumn(name, cols[1..])
  }

  /** `sort_by in valid_sort_cols`, giving the column it names. */
  function ParseSortColumn(name: string): Option<SortColumn>
  {
    FindColumn(name, AllowedColumns)
  }

  lemma {:induction false} FindColumnSound(name: string, cols: seq<SortColumn>)
    ensures FindColumn(name, cols).Some? ==>
      FindColumn(name, cols).value in cols && ColumnName(FindColumn(name, cols).value) == name
  {
    if cols != [] && ColumnName(cols[0]) != name {
      FindColumnSound(name, cols[1..]);
    }
  }

  lemma {:induction false} FindColumnComplete(c: SortColumn, cols: seq<SortColumn>)
    requires c in cols
    ensures FindColumn(ColumnName(c), cols) == Some(c)
  {
    if cols[0] != c {
      ColumnNameInjective(c, cols[0]);
      FindColumnComplete(c, cols[1..]);
    }
  }

  lemma ColumnNameInjective(a: SortColumn, b: SortColumn)
    ensures ColumnName(a) == ColumnName(b) <==> a == b
  {
    match a
    case Date => assert ColumnName(a)[0] == 'd';
    case MerchantName => assert ColumnName(a)[9] == 'n';
    case MerchantId => assert ColumnName(a)[9] == 'i';
    case Country => assert ColumnName(a)[1] == 'o';
    case ReasonCategory => assert ColumnName(a)[0] == 'r';
    case PaymentMethod => assert ColumnName(a)[1] == 'a';
    case AmountUsd => assert ColumnName(a)[0] == 'a';
    case Processor => assert ColumnName(a)[1] == 'r';
  }

  /**
   * A `sort_by` value is accepted exactly when it is the name of an allowed
   * column, and it selects that column.
   */
  lemma ParseSortColumnIff(name: string, c: SortColumn)
    ensures ParseSortColumn(name) == Some(c) <==> ColumnName(c) == name
  {
    FindColumnSound(name, AllowedColumns);
    if ColumnName(c) == name {
      FindColumnComplete(c, AllowedColumns);
    }
  }

  function ColumnKey(c: SortColumn, r: Record): Key
  {
    match c
    case Date => IntKey(r.date)
    case MerchantName => StrKey(r.merchantName)
    case MerchantId => StrKey(r.merchantId)
    case Country => StrKey(r.country)
    case ReasonCategory => StrKey(r.reasonCategory)
    case PaymentMethod => StrKey(r.paymentMethod)
    case AmountUsd => IntKey(r.amount)
    case Processor => StrKey(r.processor)
  }

  /**
   * The column and direction a listing is sorted by: an allowed `sort_by`
   * ascending unless `sort_dir` lower-cases to "desc"; otherwise date,
   * descending.
   */
  function SortPlan(sortBy: Option<string>, sortDir: string): (SortColumn, bool)
  {
    if sortBy.Some? && sortBy.value != [] && ParseSortColumn(sortBy.value).Some? then
      (ParseSortColumn(sortBy.value).value, Lower(sortDir) != "desc")
    else (Date, false)
  }

  /** The sort key function of a column. */
  function ByColumn(c: SortColumn): Record -> Key
  {
    (r: Record) => ColumnKey(c, r)
  }

  function SortRows(rows: seq<Record>, sortBy: Option<string>, sortDir: string): seq<Record>
  {
    var plan := SortPlan(sortBy, sortDir);
    SortByKey(rows, ByColumn(plan.0), plan.1)
  }

  /** The slice `[(page - 1) * size, page * size)`, clipped to the sequence. */
  function PageSlice<T>(s: seq<T>, page: int, size: int): seq<T>
    requires page >= 1 && size >= 1
  {
    var startIdx := (page - 1) * size;
    var endIdx := startIdx + size;
    if startIdx >= |s| then []
    else if endIdx >= |s| then s[startIdx..]
    else s[startIdx..endIdx]
  }

  datatype ListingPage = ListingPage(records: seq<Record>, total: nat, page: int, pageSize: int)

  /**
   * `get_chargebacks`.  `page >= 1` and `1 <= page_size <= 500` are checked
   * by the HTTP layer before this code runs.
   */
  function GetChargebacks(table: seq<Record>, q: Request, page: int, pageSize: int,
                          sortBy: Option<string>, sortDir: string): ListingPage
    requires page >= 1 && 1 <= pageSize <= 500
  {
    var filtered := Keep(table, RequestFilters(q));
    var sorted := SortRows(filtered, sortBy, sortDir);
    ListingPage(PageSlice(sorted, page, pageSize), |sorted|, page, pageSize)
  }

  /**
   * The listing behind every page is the filtered rows, reordered: sorted by
   * the allowed column in the requested direction, or by date descending
   * when `sort_by` is absent or not allowed.
   */
  lemma SortRowsSpec(rows: seq<Record>, sortBy: Option<string>, sortDir: string)
    ensures multiset(SortRows(rows, sortBy, sortDir)) == multiset(rows)
    ensures forall c :: sortBy == Some(ColumnName(c)) ==>
      SortedByKey(SortRows(rows, sortBy, sortDir), ByColumn(c), Lower(sortDir) != "desc")
    ensures sortBy.None? || ParseSortColumn(sortBy.value).None? ==>
      SortedByKey(SortRows(rows, sortBy, sortDir), ByColumn(Date), false)
  {
    forall c | sortBy == Some(ColumnName(c))
      ensures SortPlan(sortBy, sortDir) == (c, Lower(sortDir) != "desc")
    {
      ParseSortColumnIff(ColumnName(c), c);
    }
  }

  /** `total` is the filtered row count, whatever page is asked for. */
  lemma ListingTotal(table: seq<Record>, q: Request, page: int, pageSize: int,
                     sortBy: Option<string>, sortDir: string)
    requires page >= 1 && 1 <= pageSize <= 500
    ensures GetChargebacks(table, q, page, pageSize, sortBy, sortDir).total
      == |Keep(table, RequestFilters(q))|
  {
  }

  /** Page `page` holds exactly positions `[(page - 1) * size, page * size)` clipped to the total. */
  lemma PagePositions<T>(s: seq<T>, page: int, size: int)
    requires page >= 1 && size >= 1
    ensures var lo := (page - 1) * size;
      var hi := if page * size < |s| then page * size else |s|;
      && |PageSlice(s, page, size)| == (if lo < hi then hi - lo else 0)
      && forall k :: 0 <= k < |PageSlice(s, page, size)| ==> PageSlice(s, page, size)[k] == s[lo + k]
  {
  }

  /** Every record id occurs at most once. */
  ghost predicate UniqueIds(s: seq<Record>)
  {
    forall i, j :: 0 <= i < |s| && 0 <= j < |s| && s[i].id == s[j].id ==> i == j
  }

  /**
   * Distinct pages of one listing share no record id, when the table's
   * chargeback ids are unique.
   */
  lemma PagesDisjoint(table: seq<Record>, q: Request, p1: int, p2: int, pageSize: int,
                      sortBy: Option<string>, sortDir: string)
    requires p1 >= 1 && p2 >= 1 && p1 != p2 && 1 <= pageSize <= 500
    requires UniqueIds(table)
    ensures forall x, y ::
      (x in GetChargebacks(table, q, p1, pageSize, sortBy, sortDir).records
       && y in GetChargebacks(table, q, p2, pageSize, sortBy, sortDir).records) ==> x.id != y.id
  {
    var filtered := Keep(table, RequestFilters(q));
    var sorted := SortRows(filtered, sortBy, sortDir);
    UniqueIdsSelect(table, (r: Record) => Matches(RequestFilters(q), r));
    UniqueIdsPermutation(filtered, sorted);
    PageSlicesDisjoint(sorted, p1, p2, pageSize);
  }

  /** Two different pages of a sequence with unique ids share no id. */
  lemma PageSlicesDisjoint(s: seq<Record>, p1: int, p2: int, size: int)
    requires p1 >= 1 && p2 >= 1 && p1 != p2 && size >= 1
    requires UniqueIds(s)
    ensures forall x, y :: (x in PageSlice(s, p1, size) && y in PageSlice(s, p2, size)) ==> x.id != y.id
  {
    PagePositions(s, p1, size);
    PagePositions(s, p2, size);
    var a := PageSlice(s, p1, size);
    var b := PageSlice(s, p2, size);
    forall x, y | x in a && y in b
      ensures x.id != y.id
    {
      var k :| 0 <= k < |a| && a[k] == x;
      var l :| 0 <= l < |b| && b[l] == y;
      PageOffsetsDiffer(p1, p2, size, k, l);
    }
  }

  lemma PageOffsetsDiffer(p1: int, p2: int, size: int, k: int, l: int)
    requires p1 >= 1 && p2 >= 1 && p1 != p2 && size >= 1
    requires 0 <= k < size && 0 <= l < size
    ensures (p1 - 1) * size + k != (p2 - 1) * size + l
  {
    if p1 < p2 {
      MulLe(p1, p2 - 1, size);
    } else {
      MulLe(p2, p1 - 1, size);
    }
  }

  lemma MulLe(a: int, b: int, d: int)
    requires a <= b && d >= 0
    ensures a * d <= b * d
  {
  }

  /** `n // d` and `n % d` are the quotient and remainder of any Euclidean split of `n`. */
  lemma DivMod(n: int, d: int, q: int, m: int)
    requires d >= 1 && 0 <= m < d && n == q * d + m
    ensures n / d == q && n % d == m
  {
    var q', m' := n / d, n % d;
    assert n == q' * d + m';
    if q' < q {
      MulLe(q' + 1, q, d);
    } else if q < q' {
      MulLe(q + 1, q', d);
    }
  }

  lemma {:induction false} UniqueIdsSelect(s: seq<Record>, p: Record -> bool)
    requires UniqueIds(s)
    ensures UniqueIds(Select(s, p))
  {
    SelectPreservesOrder(s, p);
    var idx := SelectedIndices(s, p);
    var r := Select(s, p);
    forall i, j | 0 <= i < |r| && 0 <= j < |r| && r[i].id == r[j].id
      ensures i == j
    {
      assert s[idx[i]].id == s[idx[j]].id;
    }
  }

  /** Unique ids survive any reordering. */
  lemma UniqueIdsPermutation(s: seq<Record>, t: seq<Record>)
    requires UniqueIds(s) && multiset(t) == multiset(s)
    ensures UniqueIds(t)
  {
    forall i, j | 0 <= i < |t| && 0 <= j < |t| && t[i].id == t[j].id
      ensures i == j
    {
      if i != j {
        TwoPositions(t, i, j);
        assert t[i] in multiset(s) && t[j] in multiset(s);
        var i' :| 0 <= i' < |s| && s[i'] == t[i];
        var j' :| 0 <= j' < |s| && s[j'] == t[j];
        if t[i] == t[j] {
          var a, b := TwoOccurrences(s, t[i]);
        }
      }
    }
  }

  /** Two distinct positions contribute two elements to the multiset. */
  lemma TwoPositions<T>(s: seq<T>, i: int, j: int)
    requires 0 <= i < |s| && 0 <= j < |s| && i != j
    ensures multiset{s[i], s[j]} <= multiset(s)
  {
    var lo := if i < j then i else j;
    var hi := if i < j then j else i;
    assert s == s[..lo] + [s[lo]] + s[lo + 1..hi] + [s[hi]] + s[hi + 1..];
  }

  /** An element the multiset holds twice stands at two distinct positions. */
  lemma {:induction false} TwoOccurrences<T>(s: seq<T>, x: T) returns (a: int, b: int)
    requires multiset(s)[x] >= 2
    ensures 0 <= a < |s| && 0 <= b < |s| && a != b && s[a] == x && s[b] == x
  {
    var n := |s| - 1;
    assert s == s[..n] + [s[n]];
    if s[n] == x {
      assert x in multiset(s[..n]);
      a :| 0 <= a < n && s[..n][a] == x;
      b := n;
    } else {
      a, b := TwoOccurrences(s[..n], x);
    }
  }

  /** The page the API tests (tests/test_api.py:377) treat as the last one: `total // size + 1`. */
  function TestLastPage(total: nat, size: int): int
    requires size >= 1
  {
    total / size + 1
  }

  /** The last non-empty page, `ceil(total / size)`. */
  function LastPage(total: nat, size: int): int
    requires size >= 1
  {
    (total + size - 1) / size
  }

  /**
   * The last page holds `total mod size` records, or a full page when
   * that is 0, and every page after it is empty.
   */
  lemma LastPageSize<T>(s: seq<T>, size: int)
    requires size >= 1 && |s| > 0
    ensures LastPage(|s|, size) >= 1
    ensures |PageSlice(s, LastPage(|s|, size), size)|
      == if |s| % size == 0 then size else |s| % size
    ensures forall p :: p > LastPage(|s|, size) ==> PageSlice(s, p, size) == []
  {
    var last := LastPage(|s|, size);
    LastPageBounds(|s|, size);
    var lo := (last - 1) * size;
    assert PageSlice(s, last, size) == s[lo..];
    forall p | p > last
      ensures PageSlice(s, p, size) == []
    {
      PageAfterEnd(s, last, p, size);
    }
  }

  /** A page that starts at or after the end is empty. */
  lemma PageAfterEnd<T>(s: seq<T>, last: int, p: int, size: int)
    requires 1 <= last < p && size >= 1 && last * size >= |s|
    ensures PageSlice(s, p, size) == []
  {
    MulLe(last, p - 1, size);
  }

  /** Where the last page starts and that it reaches the end. */
  lemma LastPageBounds(total: nat, size: int)
    requires size >= 1 && total > 0
    ensures var last := LastPage(total, size);
      && last >= 1
      && (last - 1) * size == total - (if total % size == 0 then size else total % size)
      && last * size >= total
  {
    var q, m := total / size, total % size;
    assert total == q * size + m;
    if m == 0 {
      DivMod(total + size - 1, size, q, size - 1);
      assert q >= 1;
    } else {
      DivMod(total + size - 1, size, q + 1, m - 1);
    }
  }

  /**
   * As written, the tests' last page `total // size + 1` is one past the end
   * whenever `size` divides `total`: it is empty, where the test expects a
   * full page.
   */
  lemma TestLastPageEmptyWhenDivisible<T>(s: seq<T>, size: int)
    requires size >= 1 && |s| > 0 && |s| % size == 0
    ensures PageSlice(s, TestLastPage(|s|, size), size) == []
    ensures TestLastPage(|s|, size) == LastPage(|s|, size) + 1
  {
    LastPageSize(s, size);
    var q := |s| / size;
    assert |s| == q * size;
    DivMod(|s| + size - 1, size, q, size - 1);
  }

  /** The generated data set has 1000 rows; the tests' page 21 of 50 is empty. */
  lemma TestLastPageOnThousandRows(s: seq<Record>)
    requires |s| == 1000
    ensures TestLastPage(|s|, 50) == 21
    ensures PageSlice(s, TestLastPage(|s|, 50), 50) == []
    ensures |PageSlice(s, LastPage(|s|, 50), 50)| == 50
  {
    LastPageSize(s, 50);
  }
}
