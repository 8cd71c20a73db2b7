/** The boolean row masks the filters are built from. */
module Masks {

  /** `mask &= p(rows)`: narrow a row mask by one predicate, row by row. */
  method AndMask<T>(mask: array<bool>, rows: seq<T>, p: T -> bool)
    requires mask.Length == |rows|
    modifies mask
    ensures forall i :: 0 <= i < |rows| ==> mask[i] == (old(mask[i]) && p(rows[i]))
  {
    for i := 0 to |rows|
      invariant forall k :: 0 <= k < i ==> mask[k] == (old(mask[k]) && p(rows[k]))
      invariant forall k :: i <= k < |rows| ==> mask[k] == old(mask[k])
    {
      mask[i] := mask[i] && p(rows[i]);
    }
  }
}
