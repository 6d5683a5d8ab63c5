/** Array updates with their effect stated on the contents as a whole. */
module Arrays {
  import opened Permutations

  /** a[i] := v */
  method Store<T>(a: array<T>, i: nat, v: T)
    requires i < a.Length
    modifies a
    ensures a[..] == old(a[..])[i := v]
  {
    a[i] := v;
  }

  /** Exchanges two entries of the stretch [lo, hi). */
  method Swap(a: array<int>, i: nat, j: nat, ghost lo: nat, ghost hi: nat)
    requires lo <= i < hi <= a.Length && lo <= j < hi
    modifies a
    ensures a[..] == old(a[..])[i := old(a[j])][j := old(a[i])]
    ensures Rearranged(a[..], old(a[..]), lo, hi)
  {
    SwapRearranged(a[..], i, j, lo, hi);
    a[i], a[j] := a[j], a[i];
    assert a[..] == old(a[..])[i := old(a[j])][j := old(a[i])];
  }
}
