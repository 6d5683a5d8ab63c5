/** Shell sort of a short stretch of rotations that agree on their first `d` bytes.

    Sorting is stated by ranks: entry ptr[i] has the key rk[ptr[i]], where `rk` orders the rotations of the block.
    When the budget of comparisons runs out, the stretch is left half sorted.
 */
module MainShellSort {
  import opened Arrays
  import opened Cuts
  import opened FallbackQSort
  import opened MainCompare
  import opened Permutations
  import opened Ranks
  import opened Rotations

  /** The distances of the passes. */
  const INCS := [1, 4, 13, 40, 121, 364, 1093, 3280, 9841, 29524, 88573, 265720, 797161, 2391484]

  /** What the comparisons rest on. */
  ghost predicate Comparable(blk: seq<int>, q: seq<int>, b: seq<Byte>, rk: seq<int>) {
    Extended(blk, b) && QuadrantsOk(q, b) && IsRanking(b, rk)
  }

  /** Behind `d` equal bytes, what follows decides about the ranks. */
  lemma RankBehind(b: seq<Byte>, rk: seq<int>, x: nat, v: nat, d: nat)
    requires IsRanking(b, rk) && Agree(b, x, v, d) && d <= |b|
    ensures x + d < 2 * |b| && v + d < 2 * |b|
    ensures Leq(b, Fold(|b|, x + d), Fold(|b|, v + d)) <==> rk[x] <= rk[v]
    ensures Leq(b, Fold(|b|, v + d), Fold(|b|, x + d)) <==> rk[v] <= rk[x]
  {
    CmpAnti(b, x, v, d);
    OrderBehind(b, x, v, d);
    OrderBehind(b, v, x, d);
    ShiftWrap(|b|, x, d);
    ShiftWrap(|b|, v, d);
  }

  /** Compares two rotations known to agree on `d` bytes by what follows. */
  method Exceeds(x: nat, v: nat, d: nat, block: array<int>, quadrant: array<int>, nblock: nat, budget0: int,
                 ghost b: seq<Byte>, ghost rk: seq<int>)
    returns (gt: bool, budget: int)
    requires nblock == |b| && Comparable(block[..], quadrant[..], b, rk) && d <= 15 && Agree(b, x, v, d)
    ensures x < |rk| && v < |rk|
    ensures if gt then rk[v] <= rk[x] else rk[x] <= rk[v]
    ensures budget <= budget0
  {
    hide QuadrantsOk, Cmp, Leq;
    RankBehind(b, rk, x, v, d);
    gt, budget := MainGtU(x + d, v + d, block, quadrant, nblock, budget0, b);
  }

  // ----- Insertion.

  lemma AgreeKept(b: seq<Byte>, f: seq<int>, g: seq<int>, lo: int, hi: int, d: nat)
    requires Rearranged(f, g, lo, hi + 1) && AllAgree(b, g, lo, hi, d)
    ensures AllAgree(b, f, lo, hi, d)
  {
    forall i, j | lo <= i <= hi && lo <= j <= hi
      ensures Agree(b, f[i], f[j], d)
    {
      var i' := RearrangedFrom(f, g, lo, hi + 1, i);
      var j' := RearrangedFrom(f, g, lo, hi + 1, j);
      assert Agree(b, g[i'], g[j'], d);
    }
  }

  /** [lo, i] is sorted but for the hole at `j`; behind the hole no key is less than `x`. */
  ghost predicate HoleSortedDown(f: seq<int>, rk: seq<int>, lo: nat, j: nat, i: nat, x: int)
    requires lo <= j <= i && Keyed(f, rk, lo, i + 1)
  {
    && (forall a, c :: lo <= a < c <= i && a != j && c != j ==> rk[f[a]] <= rk[f[c]])
    && (forall c :: j < c <= i ==> x <= rk[f[c]])
  }

  /** An insertion under way: `v` is out of the array, position `j` is free. */
  ghost predicate Lowering(f: seq<int>, f0: seq<int>, rk: seq<int>, lo: nat, j: nat, i: nat, hi: nat, v: int, ordered: bool) {
    && lo <= j <= i <= hi < |f|
    && Keyed(f, rk, lo, hi + 1) && 0 <= v < |rk|
    && Rearranged(f[j := v], f0, lo, hi + 1)
    && (ordered ==> HoleSortedDown(f, rk, lo, j, i, rk[v]))
  }

  lemma LowerStart(f: seq<int>, rk: seq<int>, lo: nat, i: nat, hi: nat, ordered: bool)
    requires lo <= i <= hi && Keyed(f, rk, lo, hi + 1) && (ordered ==> KeySorted(f, rk, lo, i))
    ensures Lowering(f, f, rk, lo, i, i, hi, f[i], ordered)
  {
    assert f[i := f[i]] == f;
  }

  /** Moving the free position from `j` down to `j'`. */
  lemma LowerMove(f: seq<int>, g: seq<int>, f0: seq<int>, rk: seq<int>, lo: nat, j: nat, j': nat, i: nat, hi: nat, v: int, ordered: bool)
    requires Lowering(f, f0, rk, lo, j, i, hi, v, ordered) && lo <= j' < j
    requires rk[v] <= rk[f[j']] && (ordered ==> j == j' + 1)
    requires g == f[j := f[j']]
    ensures Lowering(g, f0, rk, lo, j', i, hi, v, ordered)
  {
    HoleMoved(f, f0, j, j', v, lo, hi + 1);
  }

  /** Filling the free position ends the insertion. */
  lemma LowerEnd(f: seq<int>, g: seq<int>, f0: seq<int>, rk: seq<int>, lo: nat, j: nat, i: nat, hi: nat, v: int, ordered: bool)
    requires Lowering(f, f0, rk, lo, j, i, hi, v, ordered)
    requires ordered && lo < j ==> rk[f[j - 1]] <= rk[v]
    requires g == f[j := v]
    ensures Rearranged(g, f0, lo, hi + 1) && Keyed(g, rk, lo, hi + 1)
    ensures ordered ==> KeySorted(g, rk, lo, i + 1)
  {
  }

  /** The rotation held back still agrees with those in the array. */
  lemma LowerAgree(b: seq<Byte>, f: seq<int>, f0: seq<int>, rk: seq<int>, lo: nat, j: nat, i: nat, hi: nat, v: int,
                   ordered: bool, d: nat, a: nat)
    requires Lowering(f, f0, rk, lo, j, i, hi, v, ordered) && AllAgree(b, f0, lo, hi, d) && lo <= a <= hi && a != j
    ensures Agree(b, f[a], v, d)
  {
    AgreeKept(b, f[j := v], f0, lo, hi, d);
    assert f[j := v][j] == v && f[j := v][a] == f[a];
  }

  /** Inserts ptr[i] among the entries h, 2 * h, ... places before it. */
  method InsertDown(ptr: array<int>, block: array<int>, quadrant: array<int>, nblock: nat, lo: nat, i: nat, ghost hi: nat, d: nat, h: nat,
                    budget0: int, ghost b: seq<Byte>, ghost rk: seq<int>)
    returns (budget: int)
    requires ptr != block && ptr != quadrant && nblock == |b| && Comparable(block[..], quadrant[..], b, rk) && d <= 15
    requires h > 0 && lo + h <= i <= hi < ptr.Length
    requires AllAgree(b, ptr[..], lo, hi, d) && Keyed(ptr[..], rk, lo, hi + 1)
    requires h == 1 ==> KeySorted(ptr[..], rk, lo, i)
    modifies ptr
    ensures Rearranged(ptr[..], old(ptr[..]), lo, hi + 1) && Keyed(ptr[..], rk, lo, hi + 1)
    ensures h == 1 ==> KeySorted(ptr[..], rk, lo, i + 1)
    ensures budget <= budget0
  {
    hide Comparable, Agree, HoleSortedDown, KeySorted;
    ghost var f0, ordered := ptr[..], h == 1;
    LowerStart(f0, rk, lo, i, hi, ordered);
    var v := ptr[i];
    var j: nat := i;
    budget := budget0;
    while true
      invariant Lowering(ptr[..], f0, rk, lo, j, i, hi, v, ordered) && lo + h <= j && budget <= budget0
      decreases j
    {
      ghost var f := ptr[..];
      LowerAgree(b, f, f0, rk, lo, j, i, hi, v, ordered, d, j - h);
      var gt;
      gt, budget := Exceeds(ptr[j - h], v, d, block, quadrant, nblock, budget, b, rk);
      if !gt { break; }
      Store(ptr, j, ptr[j - h]);
      LowerMove(f, ptr[..], f0, rk, lo, j, j - h, i, hi, v, ordered);
      j := j - h;
      if j <= lo + h - 1 { break; }
    }
    ghost var f := ptr[..];
    Store(ptr, j, v);
    LowerEnd(f, ptr[..], f0, rk, lo, j, i, hi, v, ordered);
  }

  /** At most three insertions, from `i0` on. */
  method ThreeInsertions(ptr: array<int>, block: array<int>, quadrant: array<int>, nblock: nat, lo: nat, i0: nat, hi: nat, d: nat, h: nat,
                         budget0: int, ghost b: seq<Byte>, ghost rk: seq<int>)
    returns (i: nat, t: nat, budget: int)
    requires ptr != block && ptr != quadrant && nblock == |b| && Comparable(block[..], quadrant[..], b, rk) && d <= 15
    requires h > 0 && lo + h <= i0 <= hi + 1 <= ptr.Length
    requires AllAgree(b, ptr[..], lo, hi, d) && Keyed(ptr[..], rk, lo, hi + 1)
    requires h == 1 ==> KeySorted(ptr[..], rk, lo, i0)
    modifies ptr
    ensures Rearranged(ptr[..], old(ptr[..]), lo, hi + 1)
    ensures AllAgree(b, ptr[..], lo, hi, d) && Keyed(ptr[..], rk, lo, hi + 1)
    ensures i == i0 + t && i <= hi + 1 && t <= 3 && (t < 3 ==> i == hi + 1)
    ensures h == 1 ==> KeySorted(ptr[..], rk, lo, i)
    ensures budget <= budget0
  {
    hide Comparable, AllAgree, KeySorted;
    ghost var f0 := ptr[..];
    i, t, budget := i0, 0, budget0;
    while t < 3 && i <= hi
      invariant 0 <= t <= 3 && i == i0 + t && i <= hi + 1 && budget <= budget0
      invariant Rearranged(ptr[..], f0, lo, hi + 1)
      invariant AllAgree(b, ptr[..], lo, hi, d) && Keyed(ptr[..], rk, lo, hi + 1)
      invariant h == 1 ==> KeySorted(ptr[..], rk, lo, i)
    {
      ghost var f := ptr[..];
      budget := InsertDown(ptr, block, quadrant, nblock, lo, i, hi, d, h, budget, b, rk);
      AgreeKept(b, ptr[..], f, lo, hi, d);
      i, t := i + 1, t + 1;
    }
  }

  lemma SortedShort(f: seq<int>, rk: seq<int>, lo: int, hi: int)
    requires Keyed(f, rk, lo, hi) && hi <= lo + 1
    ensures KeySorted(f, rk, lo, hi)
  {
  }

  /** One pass at distance `h`; stops when the budget is used up. */
  method Pass(ptr: array<int>, block: array<int>, quadrant: array<int>, nblock: nat, lo: nat, hi: nat, d: nat, h: nat,
              budget0: int, ghost b: seq<Byte>, ghost rk: seq<int>)
    returns (done: bool, budget: int)
    requires ptr != block && ptr != quadrant && nblock == |b| && Comparable(block[..], quadrant[..], b, rk) && d <= 15
    requires h > 0 && lo + h <= hi + 1 <= ptr.Length
    requires AllAgree(b, ptr[..], lo, hi, d) && Keyed(ptr[..], rk, lo, hi + 1)
    modifies ptr
    ensures Rearranged(ptr[..], old(ptr[..]), lo, hi + 1)
    ensures AllAgree(b, ptr[..], lo, hi, d) && Keyed(ptr[..], rk, lo, hi + 1)
    ensures done && h == 1 ==> KeySorted(ptr[..], rk, lo, hi + 1)
    ensures !done ==> budget < 0
    ensures budget <= budget0
  {
    hide Comparable, AllAgree, KeySorted;
    ghost var f0 := ptr[..];
    budget := budget0;
    var i := lo + h;
    if h == 1 {
      SortedShort(f0, rk, lo, lo + 1);
    }
    while true
      invariant lo + h <= i <= hi + 1 && budget <= budget0
      invariant Rearranged(ptr[..], f0, lo, hi + 1)
      invariant AllAgree(b, ptr[..], lo, hi, d) && Keyed(ptr[..], rk, lo, hi + 1)
      invariant h == 1 ==> KeySorted(ptr[..], rk, lo, i)
      decreases hi - i
    {
      var t;
      i, t, budget := ThreeInsertions(ptr, block, quadrant, nblock, lo, i, hi, d, h, budget, b, rk);
      if t < 3 { return true, budget; }
      if budget < 0 { return false, budget; }
    }
  }

  /** Sorts [lo, hi]; unless the budget ends below zero, the stretch is in the order of the rotations. */
  method MainSimpleSort(ptr: array<int>, block: array<int>, quadrant: array<int>, nblock: nat, lo: nat, hi: int, d: nat,
                        budget0: int, ghost b: seq<Byte>, ghost rk: seq<int>)
    returns (budget: int)
    requires ptr != block && ptr != quadrant && nblock == |b| && Comparable(block[..], quadrant[..], b, rk) && d <= 15
    requires lo <= hi + 1 <= ptr.Length && hi - lo < MAX_BLOCK
    requires AllAgree(b, ptr[..], lo, hi, d) && Keyed(ptr[..], rk, lo, hi + 1)
    modifies ptr
    ensures Rearranged(ptr[..], old(ptr[..]), lo, hi + 1) && Keyed(ptr[..], rk, lo, hi + 1)
    ensures budget >= 0 ==> KeySorted(ptr[..], rk, lo, hi + 1)
    ensures budget <= budget0
  {
    hide Comparable, AllAgree, KeySorted;
    ghost var f0 := ptr[..];
    budget := budget0;
    var bigN := hi - lo + 1;
    if bigN < 2 {
      SortedShort(f0, rk, lo, hi + 1);
      return;
    }
    var hp := 0;
    while INCS[hp] < bigN
      invariant 0 <= hp < 14 && (hp > 0 ==> INCS[hp - 1] < bigN)
      decreases 14 - hp
    {
      hp := hp + 1;
    }
    hp := hp - 1;
    while hp >= 0
      invariant -1 <= hp < 13 && budget <= budget0
      invariant hp >= 0 ==> INCS[hp] < bigN
      invariant Rearranged(ptr[..], f0, lo, hi + 1)
      invariant AllAgree(b, ptr[..], lo, hi, d) && Keyed(ptr[..], rk, lo, hi + 1)
      invariant hp == -1 ==> KeySorted(ptr[..], rk, lo, hi + 1)
    {
      var done;
      done, budget := Pass(ptr, block, quadrant, nblock, lo, hi, d, INCS[hp], budget, b, rk);
      if !done { return; }
      hp := hp - 1;
    }
  }
}
