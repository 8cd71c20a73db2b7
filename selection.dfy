/**
 * Selecting the elements of a sequence that satisfy a predicate, in order:
 * what indexing a table with a boolean mask does.
 */
module Selection {

  function Select<T>(s: seq<T>, p: T -> bool): (r: seq<T>)
    ensures |r| <= |s|
  {
    if s == [] then []
    else
      var n := |s| - 1;
      Select(s[..n], p) + (if p(s[n]) then [s[n]] else [])
  }

  /** Selecting from a concatenation selects from each part. */
  lemma {:induction false} SelectAppend<T>(a: seq<T>, b: seq<T>, p: T -> bool)
    ensures Select(a + b, p) == Select(a, p) + Select(b, p)
    decreases |b|
  {
    if b != [] {
      var n := |b| - 1;
      SelectAppend(a, b[..n], p);
      assert (a + b)[..|a + b| - 1] == a + b[..n];
    } else {
      assert a + b == a;
    }
  }

  lemma {:induction false} SelectMembership<T>(s: seq<T>, p: T -> bool, x: T)
    ensures x in Select(s, p) <==> x in s && p(x)
  {
    if s != [] {
      var n := |s| - 1;
      SelectMembership(s[..n], p, x);
      assert s == s[..n] + [s[n]];
    }
  }

  /** The positions `Select` keeps. */
  function SelectedIndices<T>(s: seq<T>, p: T -> bool): seq<int>
  {
    if s == [] then []
    else
      var n := |s| - 1;
      SelectedIndices(s[..n], p) + (if p(s[n]) then [n] else [])
  }

  /** The kept positions are in range, increasing, and read off the selection. */
  lemma {:induction false} SelectedIndicesRead<T>(s: seq<T>, p: T -> bool)
    ensures var idx := SelectedIndices(s, p);
      && |idx| == |Select(s, p)|
      && (forall k :: 0 <= k < |idx| ==> 0 <= idx[k] < |s| && Select(s, p)[k] == s[idx[k]])
      && (forall k :: 0 <= k < |idx| - 1 ==> idx[k] < idx[k + 1])
  {
    if s != [] {
      var n := |s| - 1;
      SelectedIndicesRead(s[..n], p);
      var prev := SelectedIndices(s[..n], p);
      var sel := Select(s[..n], p);
      forall k | 0 <= k < |prev|
        ensures prev[k] < n && sel[k] == s[prev[k]]
      {
        assert s[..n][prev[k]] == s[prev[k]];
      }
    }
  }

  /** A position is kept exactly when its element satisfies `p`. */
  lemma {:induction false} SelectedIndicesExact<T>(s: seq<T>, p: T -> bool)
    ensures forall i :: 0 <= i < |s| ==> (i in SelectedIndices(s, p) <==> p(s[i]))
    ensures forall i :: i in SelectedIndices(s, p) ==> 0 <= i < |s|
  {
    if s != [] {
      var n := |s| - 1;
      SelectedIndicesExact(s[..n], p);
      var prev := SelectedIndices(s[..n], p);
      forall i | 0 <= i < n
        ensures i in SelectedIndices(s, p) <==> p(s[i])
      {
        assert s[..n][i] == s[i];
      }
    }
  }

  /**
   * The selection is the input read at strictly increasing positions, and
   * those positions are exactly the ones whose element satisfies `p`.
   */
  lemma SelectPreservesOrder<T>(s: seq<T>, p: T -> bool)
    ensures var idx := SelectedIndices(s, p);
      && |idx| == |Select(s, p)|
      && (forall k :: 0 <= k < |idx| ==> 0 <= idx[k] < |s| && Select(s, p)[k] == s[idx[k]])
      && (forall k, l :: 0 <= k < l < |idx| ==> idx[k] < idx[l])
      && (forall i :: 0 <= i < |s| ==> (i in idx <==> p(s[i])))
  {
    var idx := SelectedIndices(s, p);
    SelectedIndicesRead(s, p);
    SelectedIndicesExact(s, p);
    forall k, l | 0 <= k < l < |idx|
      ensures idx[k] < idx[l]
    {
      IncreasingChain(idx, k, l);
    }
  }

  lemma {:induction false} IncreasingChain(idx: seq<int>, k: int, l: int)
    requires forall m :: 0 <= m < |idx| - 1 ==> idx[m] < idx[m + 1]
    requires 0 <= k < l < |idx|
    ensures idx[k] < idx[l]
    decreases l - k
  {
    if k + 1 < l {
      IncreasingChain(idx, k + 1, l);
    }
  }

  /** When every element satisfies `p`, nothing is dropped. */
  lemma {:induction false} SelectAll<T>(s: seq<T>, p: T -> bool)
    requires forall i :: 0 <= i < |s| ==> p(s[i])
    ensures Select(s, p) == s
  {
    if s != [] {
      var n := |s| - 1;
      SelectAll(s[..n], p);
      assert s == s[..n] + [s[n]];
    }
  }

  /** Selecting by a stronger predicate from a selection is selecting by it directly. */
  lemma {:induction false} SelectNarrows<T>(s: seq<T>, strong: T -> bool, weak: T -> bool)
    requires forall i :: 0 <= i < |s| ==> strong(s[i]) ==> weak(s[i])
    ensures Select(Select(s, weak), strong) == Select(s, strong)
  {
    if s != [] {
      var n := |s| - 1;
      var x := s[n];
      SelectNarrows(s[..n], strong, weak);
      var w := Select(s[..n], weak);
      assert strong(x) ==> weak(x);
      assert Select(s, strong) == Select(s[..n], strong) + (if strong(x) then [x] else []);
      if weak(x) {
        assert Select(s, weak) == w + [x];
        SelectAppend(w, [x], strong);
        assert Select([x], strong) == (if strong(x) then [x] else []) by {
          assert [x][..0] == [];
        }
      } else {
        assert Select(s, weak) == w;
      }
    }
  }
}
