/**
 * Sort keys and the sorts built on them.  A key is a date or an amount
 * (an integer), a text column, or a (merchant id, merchant name) pair, the
 * three kinds of value the dashboard sorts and groups by.  Text compares
 * code point by code point, as Python compares strings.
 */
module Sorting {

  datatype Key = IntKey(i: int) | StrKey(s: string) | PairKey(first: string, second: string)

  /** Lexicographic order on strings. */
  predicate StrLe(a: string, b: string)
  {
    if a == [] then true
    else if b == [] then false
    else if a[0] != b[0] then a[0] < b[0]
    else StrLe(a[1..], b[1..])
  }

  function Rank(k: Key): nat
  {
    match k
    case IntKey(_) => 0
    case StrKey(_) => 1
    case PairKey(_, _) => 2
  }

  /** The order on keys: by kind first, then by the value inside. */
  predicate KeyLe(a: Key, b: Key)
  {
    if Rank(a) != Rank(b) then Rank(a) < Rank(b)
    else match a
      case IntKey(x) => x <= b.i
      case StrKey(x) => StrLe(x, b.s)
      case PairKey(x, y) => if x != b.first then StrLe(x, b.first) else StrLe(y, b.second)
  }

  predicate KeyLt(a: Key, b: Key)
  {
    KeyLe(a, b) && a != b
  }

  /** `a` may come before `b` in a sort that is ascending when `asc` holds. */
  predicate Before(asc: bool, a: Key, b: Key)
  {
    if asc then KeyLe(a, b) else KeyLe(b, a)
  }

  lemma {:induction false} StrLeTotal(a: string, b: string)
    ensures StrLe(a, b) || StrLe(b, a)
  {
    if a != [] && b != [] && a[0] == b[0] {
      StrLeTotal(a[1..], b[1..]);
    }
  }

  lemma {:induction false} StrLeAntisymmetric(a: string, b: string)
    requires StrLe(a, b) && StrLe(b, a)
    ensures a == b
  {
    if a != [] && b != [] {
      StrLeAntisymmetric(a[1..], b[1..]);
      assert a == [a[0]] + a[1..];
      assert b == [b[0]] + b[1..];
    }
  }

  lemma {:induction false} StrLeTransitive(a: string, b: string, c: string)
    requires StrLe(a, b) && StrLe(b, c)
    ensures StrLe(a, c)
  {
    if a != [] && b != [] && c != [] && a[0] == b[0] && b[0] == c[0] {
      StrLeTransitive(a[1..], b[1..], c[1..]);
    }
  }

  lemma KeyLeTotal(a: Key, b: Key)
    ensures KeyLe(a, b) || KeyLe(b, a)
  {
    if Rank(a) == Rank(b) {
      match a
      case IntKey(_) =>
      case StrKey(x) => StrLeTotal(x, b.s);
      case PairKey(x, y) => StrLeTotal(x, b.first); StrLeTotal(y, b.second);
    }
  }

  lemma KeyLeAntisymmetric(a: Key, b: Key)
    requires KeyLe(a, b) && KeyLe(b, a)
    ensures a == b
  {
    match a
    case IntKey(_) =>
    case StrKey(x) => StrLeAntisymmetric(x, b.s);
    case PairKey(x, y) =>
      if x != b.first {
        StrLeAntisymmetric(x, b.first);
      } else {
        StrLeAntisymmetric(y, b.second);
      }
  }

  lemma KeyLeTransitive(a: Key, b: Key, c: Key)
    requires KeyLe(a, b) && KeyLe(b, c)
    ensures KeyLe(a, c)
  {
    if Rank(a) == Rank(b) == Rank(c) {
      match a
      case IntKey(_) =>
      case StrKey(x) => StrLeTransitive(x, b.s, c.s);
      case PairKey(x, y) =>
        if x == b.first && b.first == c.first {
          StrLeTransitive(y, b.second, c.second);
        } else if x == b.first {
          assert StrLe(b.first, c.first);
        } else if b.first == c.first {
          assert StrLe(x, b.first);
        } else {
          StrLeTransitive(x, b.first, c.first);
          if x == c.first {
            StrLeAntisymmetric(x, b.first);
          }
        }
    }
  }

  lemma BeforeTotal(asc: bool, a: Key, b: Key)
    ensures Before(asc, a, b) || Before(asc, b, a)
  {
    KeyLeTotal(a, b);
  }

  lemma BeforeTransitive(asc: bool, a: Key, b: Key, c: Key)
    requires Before(asc, a, b) && Before(asc, b, c)
    ensures Before(asc, a, c)
  {
    if asc { KeyLeTransitive(a, b, c); } else { KeyLeTransitive(c, b, a); }
  }

  /** Every element's key may precede the next element's key. */
  ghost predicate SortedByKey<T>(s: seq<T>, key: T -> Key, asc: bool)
  {
    forall i :: 0 <= i < |s| - 1 ==> Before(asc, key(s[i]), key(s[i + 1]))
  }

  /** Insert `x` into `s`, in front of the first element it may precede. */
  function InsertByKey<T>(x: T, s: seq<T>, key: T -> Key, asc: bool): (r: seq<T>)
    requires SortedByKey(s, key, asc)
    ensures SortedByKey(r, key, asc)
    ensures multiset(r) == multiset(s) + multiset{x}
    ensures |r| == |s| + 1
    ensures r[0] == x || (s != [] && r[0] == s[0])
  {
    if s == [] then [x]
    else if Before(asc, key(x), key(s[0])) then [x] + s
    else
      BeforeTotal(asc, key(x), key(s[0]));
      var rest := InsertByKey(x, s[1..], key, asc);
      assert s == [s[0]] + s[1..];
      [s[0]] + rest
  }

  /**
   * Insertion sort by key.  It stands for pandas `sort_values`, whose order
   * among equal keys is not specified, so only sortedness and permutation
   * are promised.
   */
  function SortByKey<T>(s: seq<T>, key: T -> Key, asc: bool): (r: seq<T>)
    ensures SortedByKey(r, key, asc)
    ensures multiset(r) == multiset(s)
    ensures |r| == |s|
  {
    if s == [] then []
    else
      assert s == [s[0]] + s[1..];
      InsertByKey(s[0], SortByKey(s[1..], key, asc), key, asc)
  }

  /** Sorting what is already sorted changes nothing. */
  lemma {:induction false} SortSorted<T>(s: seq<T>, key: T -> Key, asc: bool)
    requires SortedByKey(s, key, asc)
    ensures SortByKey(s, key, asc) == s
  {
    if s != [] {
      SortSorted(s[1..], key, asc);
      assert s == [s[0]] + s[1..];
    }
  }

  /** A sequence sorted pair by adjacent pair is sorted for every pair. */
  lemma {:induction false} SortedAllPairs<T>(s: seq<T>, key: T -> Key, asc: bool, i: int, j: int)
    requires SortedByKey(s, key, asc)
    requires 0 <= i < j < |s|
    ensures Before(asc, key(s[i]), key(s[j]))
    decreases j - i
  {
    if i + 1 < j {
      SortedAllPairs(s, key, asc, i + 1, j);
      BeforeTransitive(asc, key(s[i]), key(s[i + 1]), key(s[j]));
    }
  }
}
