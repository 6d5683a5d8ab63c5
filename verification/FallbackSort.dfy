/** The fallback block sort: an exponential radix sort that doubles the compared prefix in every pass.

    `bh` marks where a new class begins: before a pass with prefix length H, the classes are exactly the sets of
    rotations that agree on their first H bytes, and they stand in order.
 */
module FallbackSort {
  import opened Permutations
  import opened Arrays
  import opened Cuts
  import opened Rotations
  import opened InverseBwt
  import opened FallbackQSort

  /** The rotations stand in order as far as their first `h` bytes go. */
  ghost predicate Ordered(b: seq<Byte>, f: seq<int>, h: nat) {
    && PermUpTo(f, |b|)
    && forall i, j :: 0 <= i < j < |b| ==> Cmp(b, f[i], f[j], h) <= 0
  }

  /** `bh` is set at position 0 and exactly where the first `h` bytes change. */
  ghost predicate Marked(b: seq<Byte>, f: seq<int>, bh: seq<bool>, h: nat)
    requires PermUpTo(f, |b|)
  {
    && |b| < |bh| && bh[0]
    && forall i :: 0 < i < |b| ==> (bh[i] <==> Cmp(b, f[i - 1], f[i], h) != 0)
  }

  /** The alternating bits behind the block that end the bucket scans. */
  ghost predicate Sentinels(bh: seq<bool>, n: nat) {
    && n + 96 <= |bh|
    && forall i :: n <= i < n + 64 ==> bh[i] == ((i - n) % 2 == 0)
  }

  // ----- Classes.

  /** The position where the class of position `i` begins. */
  ghost function StartOf(bh: seq<bool>, i: nat): (j: nat)
    requires i < |bh|
    ensures j <= i
  {
    if bh[i] || i == 0 then i else StartOf(bh, i - 1)
  }

  /** Positions have the same class start exactly when they agree on h bytes; starts ascend. */
  lemma {:induction false} ClassCmp(b: seq<Byte>, f: seq<int>, bh: seq<bool>, h: nat, r: nat, s: nat)
    requires Ordered(b, f, h) && Marked(b, f, bh, h) && r <= s < |b|
    ensures StartOf(bh, r) <= StartOf(bh, s)
    ensures StartOf(bh, r) == StartOf(bh, s) <==> Cmp(b, f[r], f[s], h) == 0
    decreases s
  {
    if r == s {
      CmpRefl(b, f[r], h);
    } else {
      ClassCmp(b, f, bh, h, r, s - 1);
      if r < s - 1 {
        CmpTrans(b, f[r], f[s - 1], f[s], h);
      }
      CmpRefl(b, f[r], h);
      assert bh[s] <==> Cmp(b, f[s - 1], f[s], h) != 0;
    }
  }

  /** The index `h` places before `x`, computed as the source does. */
  function Unshift(n: nat, x: nat, h: nat): (r: nat)
    requires x < n && h <= n
    ensures r < n
  {
    if x < h then x - h + n else x - h
  }

  lemma UnshiftShift(n: nat, x: nat, h: nat)
    requires x < n && h <= n
    ensures h < n ==> Shift(n, Unshift(n, x, h), h) == x && Unshift(n, Shift(n, x, h), h) == x
    ensures h == n ==> Shift(n, x, h) == x && Unshift(n, x, h) == x
  {
    ShiftWrap(n, x, h);
    ShiftWrap(n, Unshift(n, x, h), h);
  }

  /** Entry x of `ec` is the class start of the rotation `h` places behind x. */
  ghost predicate ClassesAssigned(ec: seq<int>, f: seq<int>, bh: seq<bool>, n: nat, h: nat, upTo: nat) {
    && PermUpTo(f, n) && h <= n <= |ec| && n <= |bh| && upTo <= n
    && forall r :: 0 <= r < upTo ==> ec[Unshift(n, f[r], h)] == StartOf(bh, r)
  }

  /** Class starts compare as the first h bytes do. */
  lemma StartOrder(b: seq<Byte>, f: seq<int>, bh: seq<bool>, h: nat, r: nat, s: nat)
    requires Ordered(b, f, h) && Marked(b, f, bh, h) && r < |b| && s < |b|
    ensures StartOf(bh, r) <= StartOf(bh, s) <==> Cmp(b, f[r], f[s], h) <= 0
    ensures StartOf(bh, r) == StartOf(bh, s) <==> Cmp(b, f[r], f[s], h) == 0
  {
    CmpAnti(b, f[r], f[s], h);
    if r <= s {
      ClassCmp(b, f, bh, h, r, s);
    } else {
      ClassCmp(b, f, bh, h, s, r);
    }
    CmpRefl(b, f[r], h);
  }

  lemma ClassAt(ec: seq<int>, f: seq<int>, bh: seq<bool>, n: nat, h: nat, x: nat) returns (r: nat)
    requires ClassesAssigned(ec, f, bh, n, h, n) && x < n
    ensures r < n && f[r] == Shift(n, x, h) && ec[x] == StartOf(bh, r)
  {
    UnshiftShift(n, x, h);
    r := IndexOf(f[..n], n, Shift(n, x, h));
    assert f[r] == f[..n][r];
    assert ec[Unshift(n, f[r], h)] == StartOf(bh, r);
  }

  /** Comparing two entries of `ec` compares the h bytes that follow the first h. */
  lemma ClassKey(b: seq<Byte>, f: seq<int>, bh: seq<bool>, ec: seq<int>, h: nat, x: nat, y: nat)
    requires Ordered(b, f, h) && Marked(b, f, bh, h) && ClassesAssigned(ec, f, bh, |b|, h, |b|)
    requires x < |b| && y < |b|
    ensures ec[x] <= ec[y] <==> Cmp(b, Shift(|b|, x, h), Shift(|b|, y, h), h) <= 0
    ensures ec[x] == ec[y] <==> Cmp(b, Shift(|b|, x, h), Shift(|b|, y, h), h) == 0
  {
    var r := ClassAt(ec, f, bh, |b|, h, x);
    var s := ClassAt(ec, f, bh, |b|, h, y);
    StartOrder(b, f, bh, h, r, s);
  }

  /** Within a class of h bytes, the keys decide the first 2h bytes. */
  lemma KeyDecides(b: seq<Byte>, f: seq<int>, bh: seq<bool>, ec: seq<int>, h: nat, x: nat, y: nat)
    requires Ordered(b, f, h) && Marked(b, f, bh, h) && ClassesAssigned(ec, f, bh, |b|, h, |b|)
    requires x < |b| && y < |b| && Cmp(b, x, y, h) == 0
    ensures ec[x] <= ec[y] <==> Cmp(b, x, y, 2 * h) <= 0
    ensures ec[x] == ec[y] <==> Cmp(b, x, y, 2 * h) == 0
  {
    CmpSplit(b, x, y, h, h);
    ClassKey(b, f, bh, ec, h, x, y);
  }

  // ----- One pass.

  /** In the pass that started from (f0, bh0) with prefix length h, positions below `d` already are in order and
      marked for 2h bytes; positions from `d` on, where a class begins, are untouched. */
  ghost predicate PassState(b: seq<Byte>, f0: seq<int>, bh0: seq<bool>, f: seq<int>, bh: seq<bool>, h: nat, d: nat) {
    && Ordered(b, f0, h) && Marked(b, f0, bh0, h)
    && PermUpTo(f, |b|) && |f| == |f0| && |bh| == |bh0| && d <= |b| && bh[0] && bh0[d]
    && (forall i :: 0 <= i < |b| ==> Cmp(b, f[i], f0[i], h) == 0)
    && (forall i, j :: 0 <= i < j < d ==> Cmp(b, f[i], f[j], 2 * h) <= 0)
    && (forall i :: 0 < i < d ==> (bh[i] <==> Cmp(b, f[i - 1], f[i], 2 * h) != 0))
    && (forall i :: d <= i < |b| ==> f[i] == f0[i])
    && (forall i :: d <= i < |bh| ==> bh[i] == bh0[i])
  }

  lemma PassStart(b: seq<Byte>, f: seq<int>, bh: seq<bool>, h: nat)
    requires Ordered(b, f, h) && Marked(b, f, bh, h)
    ensures PassState(b, f, bh, f, bh, h, 0)
  {
    forall i | 0 <= i < |b|
      ensures Cmp(b, f[i], f[i], h) == 0
    {
      CmpRefl(b, f[i], h);
    }
  }

  /** Behind a class boundary, entries are strictly larger already on h bytes. */
  lemma AcrossBoundary(b: seq<Byte>, f0: seq<int>, bh0: seq<bool>, h: nat, m: nat, x: nat, y: nat, i: nat, j: nat)
    requires Ordered(b, f0, h) && Marked(b, f0, bh0, h)
    requires i < m <= j < |b| && bh0[m]
    requires x < |b| && y < |b| && Cmp(b, x, f0[i], h) == 0 && Cmp(b, y, f0[j], h) == 0
    ensures Cmp(b, x, y, h) < 0 && Cmp(b, x, y, 2 * h) < 0
  {
    CmpAnti(b, y, f0[j], h);
    CmpRefl(b, f0[i], h);
    CmpRefl(b, f0[j], h);
    CmpTrans(b, x, f0[i], f0[m - 1], h);
    CmpTrans(b, x, f0[m - 1], f0[m], h);
    CmpTrans(b, x, f0[m], f0[j], h);
    CmpTrans(b, x, f0[j], y, h);
    CmpSplit(b, x, y, h, h);
  }

  /** Classes of one entry need no work. */
  lemma PassSingles(b: seq<Byte>, f0: seq<int>, bh0: seq<bool>, f: seq<int>, bh: seq<bool>, h: nat, d: nat, d': nat)
    requires PassState(b, f0, bh0, f, bh, h, d) && d <= d' <= |b|
    requires forall i :: d <= i <= d' ==> bh0[i]
    ensures PassState(b, f0, bh0, f, bh, h, d')
  {
    forall i, j | 0 <= i < j < d' && d <= j
      ensures Cmp(b, f[i], f[j], 2 * h) < 0
    {
      AcrossBoundary(b, f0, bh0, h, j, f[i], f[j], i, j);
    }
  }

  /** The entries of one class agree on h bytes. */
  lemma SameClass(b: seq<Byte>, f0: seq<int>, bh0: seq<bool>, h: nat, l: nat, r: nat, i: nat, j: nat)
    requires Ordered(b, f0, h) && Marked(b, f0, bh0, h)
    requires l <= i <= r && l <= j <= r < |b| && forall k :: l < k <= r ==> !bh0[k]
    ensures Cmp(b, f0[i], f0[j], h) == 0
    decreases if i <= j then 2 * (j - i) else 2 * (i - j) + 1
  {
    if i == j {
      CmpRefl(b, f0[i], h);
    } else if i < j {
      SameClass(b, f0, bh0, h, l, r, i, j - 1);
      assert Cmp(b, f0[j - 1], f0[j], h) == 0;
      CmpTrans(b, f0[i], f0[j - 1], f0[j], h);
    } else {
      SameClass(b, f0, bh0, h, l, r, j, i);
      CmpAnti(b, f0[i], f0[j], h);
    }
  }

  /** The class [l, r] of the pass has just been sorted and its new boundaries marked. */
  ghost predicate BucketDone(b: seq<Byte>, f0: seq<int>, bh0: seq<bool>, ec: seq<int>, f: seq<int>, bh: seq<bool>, f': seq<int>,
                             bh': seq<bool>, h: nat, l: nat, r: nat) {
    && PassState(b, f0, bh0, f, bh, h, l) && ClassesAssigned(ec, f0, bh0, |b|, h, |b|)
    && l <= r < |b| && (forall k :: l < k <= r ==> !bh0[k]) && bh0[r + 1]
    && Rearranged(f', f, l, r + 1) && Keyed(f', ec, l, r + 1) && KeySorted(f', ec, l, r + 1)
    && |bh'| == |bh| && (forall i :: 0 <= i < |bh| && !(l <= i <= r) ==> bh'[i] == bh[i]) && bh'[l]
    && (forall i :: l < i <= r ==> (bh'[i] <==> ec[f'[i - 1]] != ec[f'[i]]))
  }

  lemma BucketEntry(b: seq<Byte>, f0: seq<int>, bh0: seq<bool>, ec: seq<int>, f: seq<int>, bh: seq<bool>, f': seq<int>,
                    bh': seq<bool>, h: nat, l: nat, r: nat, i: nat)
    requires BucketDone(b, f0, bh0, ec, f, bh, f', bh', h, l, r) && l <= i <= r
    ensures 0 <= f'[i] < |b| && Cmp(b, f'[i], f0[i], h) == 0
  {
    var k := RearrangedFrom(f', f, l, r + 1, i);
    SameClass(b, f0, bh0, h, l, r, k, i);
  }

  lemma BucketOrder(b: seq<Byte>, f0: seq<int>, bh0: seq<bool>, ec: seq<int>, f: seq<int>, bh: seq<bool>, f': seq<int>,
                    bh': seq<bool>, h: nat, l: nat, r: nat, i: nat, j: nat)
    requires BucketDone(b, f0, bh0, ec, f, bh, f', bh', h, l, r) && i < j && l <= j <= r
    requires forall k :: 0 <= k < |b| ==> 0 <= f'[k] < |b| && Cmp(b, f'[k], f0[k], h) == 0
    ensures Cmp(b, f'[i], f'[j], 2 * h) <= 0
    ensures l < j && i == j - 1 ==> (bh'[j] <==> Cmp(b, f'[i], f'[j], 2 * h) != 0)
  {
    if i < l {
      AcrossBoundary(b, f0, bh0, h, l, f'[i], f'[j], i, j);
    } else {
      SameClass(b, f0, bh0, h, l, r, i, j);
      CmpAnti(b, f'[j], f0[j], h);
      CmpTrans(b, f'[i], f0[i], f0[j], h);
      CmpTrans(b, f'[i], f0[j], f'[j], h);
      KeyDecides(b, f0, bh0, ec, h, f'[i], f'[j]);
    }
  }

  lemma BucketEntries(b: seq<Byte>, f0: seq<int>, bh0: seq<bool>, ec: seq<int>, f: seq<int>, bh: seq<bool>, f': seq<int>,
                      bh': seq<bool>, h: nat, l: nat, r: nat)
    requires BucketDone(b, f0, bh0, ec, f, bh, f', bh', h, l, r)
    ensures PermUpTo(f', |b|)
    ensures forall k :: 0 <= k < |b| ==> Cmp(b, f'[k], f0[k], h) == 0
  {
    PermUpToRearranged(f', f, |b|, l, r + 1);
    forall k | 0 <= k < |b|
      ensures Cmp(b, f'[k], f0[k], h) == 0
    {
      if l <= k <= r {
        BucketEntry(b, f0, bh0, ec, f, bh, f', bh', h, l, r, k);
      } else {
        assert f'[k] == f[k];
      }
    }
  }

  /** After sorting a class by key and marking it, the pass is done up to its end. */
  lemma PassBucket(b: seq<Byte>, f0: seq<int>, bh0: seq<bool>, ec: seq<int>, f: seq<int>, bh: seq<bool>, f': seq<int>,
                   bh': seq<bool>, h: nat, l: nat, r: nat)
    requires BucketDone(b, f0, bh0, ec, f, bh, f', bh', h, l, r)
    ensures PassState(b, f0, bh0, f', bh', h, r + 1)
  {
    BucketEntries(b, f0, bh0, ec, f, bh, f', bh', h, l, r);
    forall i, j | 0 <= i < j < r + 1
      ensures Cmp(b, f'[i], f'[j], 2 * h) <= 0
    {
      BucketPair(b, f0, bh0, ec, f, bh, f', bh', h, l, r, i, j);
    }
    forall i | 0 < i < r + 1
      ensures bh'[i] <==> Cmp(b, f'[i - 1], f'[i], 2 * h) != 0
    {
      BucketPair(b, f0, bh0, ec, f, bh, f', bh', h, l, r, i - 1, i);
    }
  }

  lemma BucketPair(b: seq<Byte>, f0: seq<int>, bh0: seq<bool>, ec: seq<int>, f: seq<int>, bh: seq<bool>, f': seq<int>,
                   bh': seq<bool>, h: nat, l: nat, r: nat, i: nat, j: nat)
    requires BucketDone(b, f0, bh0, ec, f, bh, f', bh', h, l, r) && i < j <= r
    requires PermUpTo(f', |b|) && forall k :: 0 <= k < |b| ==> Cmp(b, f'[k], f0[k], h) == 0
    ensures Cmp(b, f'[i], f'[j], 2 * h) <= 0
    ensures i == j - 1 ==> (bh'[j] <==> Cmp(b, f'[i], f'[j], 2 * h) != 0)
  {
    if l <= j {
      BucketOrder(b, f0, bh0, ec, f, bh, f', bh', h, l, r, i, j);
      if j == l {
        AcrossBoundary(b, f0, bh0, h, l, f'[i], f'[j], i, j);
      }
    } else {
      assert f'[i] == f[i] && f'[j] == f[j] && bh'[j] == bh[j];
    }
  }

  /** At the end of the pass the classes are those of 2h bytes. */
  lemma PassEnd(b: seq<Byte>, f0: seq<int>, bh0: seq<bool>, f: seq<int>, bh: seq<bool>, h: nat)
    requires PassState(b, f0, bh0, f, bh, h, |b|)
    ensures Ordered(b, f, 2 * h) && Marked(b, f, bh, 2 * h)
  {
  }

  // ----- When to stop.

  /** A prefix as long as the block decides everything. */
  lemma SortedByLength(b: seq<Byte>, f: seq<int>, h: nat)
    requires Ordered(b, f, h) && h >= |b|
    ensures WeaklySorted(b, f[..|b|])
  {
    forall i, j | 0 <= i < j < |b|
      ensures Leq(b, f[..|b|][i], f[..|b|][j])
    {
      CmpFull(b, f[i], f[j], h);
    }
  }

  /** If no two rotations agree on h bytes, the order is final. */
  lemma SortedByMarks(b: seq<Byte>, f: seq<int>, bh: seq<bool>, h: nat)
    requires Ordered(b, f, h) && Marked(b, f, bh, h) && h <= |b|
    requires forall i :: 0 <= i < |b| ==> bh[i]
    ensures WeaklySorted(b, f[..|b|])
  {
    forall i, j | 0 <= i < j < |b|
      ensures Leq(b, f[..|b|][i], f[..|b|][j])
    {
      CmpRefl(b, f[i], h);
      CmpRefl(b, f[j], h);
      AcrossBoundary(b, f, bh, h, j, f[i], f[j], i, j);
      CmpSplit(b, f[i], f[j], h, |b| - h);
    }
  }

  // ----- The loops of a pass.

  /** WORD_BH: whether all 32 bits of the word that starts at bit `k` equal `v`. */
  predicate WordIs(bhtab: array<bool>, k: nat, v: bool)
    requires k % 32 == 0 && k + 32 <= bhtab.Length
    reads bhtab
  {
    forall i :: k <= i < k + 32 ==> bhtab[i] == v
  }

  /** Skips the bits equal to `v` from `k` on, a word at a time where possible.  `stop` is known to differ. */
  method SkipBits(bhtab: array<bool>, k0: nat, v: bool, ghost stop: nat) returns (k: nat)
    requires k0 <= stop && stop + 32 <= bhtab.Length && bhtab[stop] != v
    ensures k0 <= k <= stop && bhtab[k] != v && forall i :: k0 <= i < k ==> bhtab[i] == v
  {
    k := k0;
    while bhtab[k] == v && k % 32 != 0
      invariant k0 <= k <= stop && forall i :: k0 <= i < k ==> bhtab[i] == v
      decreases stop - k
    {
      k := k + 1;
    }
    if bhtab[k] == v {
      while WordIs(bhtab, k, v)
        invariant k0 <= k <= stop && k % 32 == 0 && forall i :: k0 <= i < k ==> bhtab[i] == v
        decreases stop - k
      {
        assert stop >= k + 32;
        k := k + 32;
      }
      while bhtab[k] == v
        invariant k0 <= k <= stop && forall i :: k0 <= i < k ==> bhtab[i] == v
        decreases stop - k
      {
        k := k + 1;
      }
    }
  }

  /** Finds the next class of more than one entry at or behind position `from`, where a class begins. */
  method FindBucket(bhtab: array<bool>, from: nat, nblock: nat) returns (found: bool, l: nat, r: nat)
    requires Sentinels(bhtab[..], nblock) && from <= nblock && bhtab[from]
    ensures found ==> && from <= l < r < nblock && bhtab[r + 1]
                      && (forall i :: from <= i <= l ==> bhtab[i]) && (forall i :: l < i <= r ==> !bhtab[i])
    ensures !found ==> forall i :: from <= i <= nblock ==> bhtab[i]
  {
    assert bhtab[..][nblock] && !bhtab[..][nblock + 1];
    var k := SkipBits(bhtab, from, true, nblock + 1);
    l := k - 1;
    if l >= nblock {
      return false, l, l;
    }
    k := SkipBits(bhtab, k, false, nblock);
    r := k - 1;
    return true, l, r;
  }

  /** Sets the bits of [l, r] at which the key changes. */
  method MarkBucket(fmap: array<int>, eclass: array<int>, bhtab: array<bool>, l: nat, r: nat, ghost ec: seq<int>)
    requires fmap != eclass && eclass[..] == ec && l <= r < fmap.Length && r < bhtab.Length
    requires Keyed(fmap[..], ec, l, r + 1) && (forall i :: l <= i <= r ==> ec[fmap[i]] >= 0)
    requires bhtab[l] && forall i :: l < i <= r ==> !bhtab[i]
    modifies bhtab
    ensures bhtab[l] && forall i :: 0 <= i < bhtab.Length && !(l <= i <= r) ==> bhtab[i] == old(bhtab[i])
    ensures forall i :: l < i <= r ==> (bhtab[i] <==> ec[fmap[i - 1]] != ec[fmap[i]])
  {
    var cc := -1;
    var i := l;
    while i <= r
      invariant l <= i <= r + 1
      invariant cc == if i == l then -1 else ec[fmap[i - 1]]
      invariant bhtab[l] && forall k :: i <= k <= r && k != l ==> !bhtab[k]
      invariant forall k :: 0 <= k < bhtab.Length && !(l <= k <= r) ==> bhtab[k] == old(bhtab[k])
      invariant forall k :: l < k < i ==> (bhtab[k] <==> ec[fmap[k - 1]] != ec[fmap[k]])
    {
      var cc1 := eclass[fmap[i]];
      if cc != cc1 {
        bhtab[i] := true;
        cc := cc1;
      }
      i := i + 1;
    }
  }

  /** Writes down, for every rotation, the class of the rotation `h` places behind it. */
  method AssignClasses(fmap: array<int>, eclass: array<int>, bhtab: array<bool>, nblock: nat, h: nat)
    requires fmap != eclass && PermUpTo(fmap[..], nblock) && nblock <= eclass.Length && nblock < bhtab.Length
    requires h <= nblock && bhtab[0]
    modifies eclass
    ensures ClassesAssigned(eclass[..], fmap[..], bhtab[..], nblock, h, nblock)
    ensures forall x :: 0 <= x < nblock ==> eclass[x] >= 0
  {
    ghost var f, bh := fmap[..], bhtab[..];
    var j := 0;
    var i := 0;
    while i < nblock
      invariant 0 <= i <= nblock
      invariant 0 < i ==> j == StartOf(bh, i - 1)
      invariant 0 <= j
      invariant ClassesAssigned(eclass[..], f, bh, nblock, h, i)
    {
      if bhtab[i] { j := i; }
      var k := fmap[i] - h;
      if k < 0 { k := k + nblock; }
      ghost var ec := eclass[..];
      Store(eclass, k, j);
      ClassesStep(ec, f, bh, nblock, h, i, j);
      i := i + 1;
    }
    forall x | 0 <= x < nblock
      ensures eclass[x] >= 0
    {
      UnshiftOnto(eclass[..], f, bh, nblock, h, x);
    }
  }

  lemma ClassesStep(ec: seq<int>, f: seq<int>, bh: seq<bool>, n: nat, h: nat, i: nat, j: nat)
    requires ClassesAssigned(ec, f, bh, n, h, i) && i < n && j == StartOf(bh, i)
    ensures ClassesAssigned(ec[Unshift(n, f[i], h) := j], f, bh, n, h, i + 1)
  {
    forall r | 0 <= r < i
      ensures Unshift(n, f[r], h) != Unshift(n, f[i], h)
    {
      assert f[r] != f[i];
    }
  }

  lemma UnshiftOnto(ec: seq<int>, f: seq<int>, bh: seq<bool>, n: nat, h: nat, x: nat)
    requires ClassesAssigned(ec, f, bh, n, h, n) && x < n
    ensures ec[x] >= 0
  {
    var r := ClassAt(ec, f, bh, n, h, x);
  }

  /** Every position holds a rotation whose first byte is the one due there. */
  ghost predicate FirstBytes(b: seq<Byte>, f: seq<int>) {
    && |b| <= |f|
    && forall r :: 0 <= r < |b| ==> 0 <= f[r] < |b| && Cum(b, b[f[r]]) <= r < Cum(b, b[f[r]] as int + 1)
  }

  lemma FirstBytesKept(b: seq<Byte>, f0: seq<int>, bh0: seq<bool>, f: seq<int>, bh: seq<bool>, h: nat, d: nat)
    requires PassState(b, f0, bh0, f, bh, h, d) && FirstBytes(b, f0) && h > 0
    ensures FirstBytes(b, f)
  {
    forall r | 0 <= r < |b|
      ensures b[f[r]] == b[f0[r]]
    {
      assert Cmp(b, f[r], f0[r], h) == 0;
    }
  }

  /** Sorts one class and marks its new boundaries. */
  method RefineBucket(fmap: array<int>, eclass: array<int>, bhtab: array<bool>, l: nat, r: nat, ghost b: seq<Byte>,
                      ghost f0: seq<int>, ghost bh0: seq<bool>, ghost ec: seq<int>, ghost h: nat)
    requires fmap != eclass && eclass[..] == ec && |b| <= MAX_BLOCK
    requires PassState(b, f0, bh0, fmap[..], bhtab[..], h, l) && ClassesAssigned(ec, f0, bh0, |b|, h, |b|)
    requires |b| <= |ec| && forall x :: 0 <= x < |b| ==> ec[x] >= 0
    requires l < r < |b| && (forall k :: l < k <= r ==> !bh0[k]) && bh0[r + 1]
    modifies fmap, bhtab
    ensures PassState(b, f0, bh0, fmap[..], bhtab[..], h, r + 1)
  {
    ghost var f, bh := fmap[..], bhtab[..];
    assert forall i :: l <= i <= r ==> 0 <= f[i] < |b|;
    FallbackQSort3(fmap, eclass, l, r, ec);
    ghost var f' := fmap[..];
    assert bhtab[..] == bh;
    PermUpToRearranged(f', f, |b|, l, r + 1);
    assert bh[l] && forall k :: l < k <= r ==> !bh[k];
    MarkBucket(fmap, eclass, bhtab, l, r, ec);
    assert fmap[..] == f';
    PassBucket(b, f0, bh0, ec, f, bh, f', bhtab[..], h, l, r);
  }

  /** One pass of the log(N) loop over all classes of `h` bytes. */
  method RefineBuckets(fmap: array<int>, eclass: array<int>, bhtab: array<bool>, nblock: nat, ghost b: seq<Byte>, ghost h: nat)
    returns (nNotDone: nat)
    requires fmap != eclass && nblock == |b| <= MAX_BLOCK && 0 < h <= |b|
    requires Ordered(b, fmap[..], h) && Marked(b, fmap[..], bhtab[..], h) && Sentinels(bhtab[..], |b|)
    requires ClassesAssigned(eclass[..], fmap[..], bhtab[..], |b|, h, |b|) && FirstBytes(b, fmap[..])
    requires |b| <= eclass.Length && forall x :: 0 <= x < |b| ==> eclass[x] >= 0
    modifies fmap, bhtab
    ensures Ordered(b, fmap[..], 2 * h) && Marked(b, fmap[..], bhtab[..], 2 * h) && Sentinels(bhtab[..], |b|)
    ensures FirstBytes(b, fmap[..])
    ensures nNotDone == 0 ==> WeaklySorted(b, fmap[..nblock])
  {
    hide PermUpTo, FirstBytes, ClassesAssigned;
    ghost var f0, bh0, ec := fmap[..], bhtab[..], eclass[..];
    PassStart(b, f0, bh0, h);
    nNotDone := 0;
    var from := 0;
    while true
      invariant PassState(b, f0, bh0, fmap[..], bhtab[..], h, from)
      invariant nNotDone == 0 ==> fmap[..] == f0 && forall i :: 0 <= i < from ==> bh0[i]
      decreases nblock - from
    {
      assert bhtab[from] && Sentinels(bhtab[..], nblock);
      var found, l, r := FindBucket(bhtab, from, nblock);
      assert forall i :: from <= i < |bh0| ==> bhtab[i] == bh0[i];
      if !found {
        PassSingles(b, f0, bh0, fmap[..], bhtab[..], h, from, nblock);
        break;
      }
      PassSingles(b, f0, bh0, fmap[..], bhtab[..], h, from, l);
      nNotDone := nNotDone + (r - l + 1);
      RefineBucket(fmap, eclass, bhtab, l, r, b, f0, bh0, ec, h);
      from := r + 1;
    }
    RefinedEnd(b, f0, bh0, fmap[..], bhtab[..], h, nNotDone == 0);
  }

  lemma RefinedEnd(b: seq<Byte>, f0: seq<int>, bh0: seq<bool>, f: seq<int>, bh: seq<bool>, h: nat, nothingDone: bool)
    requires PassState(b, f0, bh0, f, bh, h, |b|) && FirstBytes(b, f0) && Sentinels(bh0, |b|) && 0 < h <= |b|
    requires nothingDone ==> f == f0 && forall i :: 0 <= i < |b| ==> bh0[i]
    ensures Ordered(b, f, 2 * h) && Marked(b, f, bh, 2 * h) && Sentinels(bh, |b|) && FirstBytes(b, f)
    ensures nothingDone ==> WeaklySorted(b, f[..|b|])
  {
    PassEnd(b, f0, bh0, f, bh, h);
    FirstBytesKept(b, f0, bh0, f, bh, h, |b|);
    if nothingDone {
      SortedByMarks(b, f0, bh0, h);
    }
  }

  // ----- Before the passes: a radix sort by the first byte.

  /** Where the radix sort puts rotation `i`: its bucket is filled from the top. */
  ghost function Slot(b: seq<Byte>, i: nat): int
    requires i < |b|
  {
    Cum(b, b[i] as int + 1) - 1 - Count(b[..i], b[i])
  }

  lemma SlotRange(b: seq<Byte>, i: nat)
    requires i < |b|
    ensures 0 <= Cum(b, b[i]) <= Slot(b, i) < Cum(b, b[i] as int + 1) <= |b|
  {
    LFRange(b, i);
    CountPrefix(b, b[i], i, |b|);
    assert b[..|b|] == b;
  }

  lemma SlotInjective(b: seq<Byte>, i: nat, j: nat)
    requires i < j < |b|
    ensures Slot(b, i) != Slot(b, j)
  {
    SlotRange(b, i);
    SlotRange(b, j);
    if b[i] < b[j] {
      CumMono(b, b[i] as int + 1, b[j]);
    } else if b[j] < b[i] {
      CumMono(b, b[j] as int + 1, b[i]);
    } else {
      CountPrefix(b, b[i], i, j);
    }
  }

  /** The state of the filling loop: `ft` points at the last entry placed in each bucket. */
  ghost predicate Radixing(ft: seq<int>, f: seq<int>, b: seq<Byte>, i: nat) {
    && |ft| == 257 && i <= |b| <= |f|
    && (forall c :: 0 <= c < 256 ==> ft[c] == Cum(b, c + 1) - Count(b[..i], c))
    && (forall k :: 0 <= k < i ==> 0 <= Slot(b, k) < |b| && f[Slot(b, k)] == k)
  }

  lemma RadixStep(ft: seq<int>, f: seq<int>, b: seq<Byte>, i: nat)
    requires Radixing(ft, f, b, i) && i < |b|
    ensures ft[b[i]] - 1 == Slot(b, i) && 0 <= Slot(b, i) < |b|
    ensures Radixing(ft[b[i] := ft[b[i]] - 1], f[Slot(b, i) := i], b, i + 1)
  {
    SlotRange(b, i);
    forall c | 0 <= c < 256
      ensures Count(b[..i + 1], c) == Count(b[..i], c) + if b[i] == c then 1 else 0
    {
      CountPush(b, c, i);
    }
    forall k | 0 <= k < i
      ensures Slot(b, k) != Slot(b, i)
    {
      SlotInjective(b, k, i);
    }
  }

  /** Every position is the slot of some rotation. */
  lemma SlotOnto(b: seq<Byte>, r: nat) returns (k: nat)
    requires r < |b|
    ensures k < |b| && Slot(b, k) == r
  {
    var n := |b|;
    var slots := seq(n, k requires 0 <= k < n => Slot(b, k));
    forall i | 0 <= i < n
      ensures 0 <= slots[i] < n
    {
      SlotRange(b, i);
    }
    forall i, j | 0 <= i < j < n
      ensures slots[i] != slots[j]
    {
      SlotInjective(b, i, j);
    }
    k := IndexOf(slots, n, r);
  }

  lemma RadixEntry(ft: seq<int>, f: seq<int>, b: seq<Byte>, r: nat)
    requires Radixing(ft, f, b, |b|) && r < |b|
    ensures 0 <= f[r] < |b| && Slot(b, f[r]) == r
    ensures Cum(b, b[f[r]]) <= r < Cum(b, b[f[r]] as int + 1)
  {
    var k := SlotOnto(b, r);
    SlotRange(b, k);
  }

  lemma RadixEnd(ft: seq<int>, f: seq<int>, b: seq<Byte>)
    requires Radixing(ft, f, b, |b|)
    ensures forall c :: 0 <= c < 256 ==> ft[c] == Cum(b, c)
    ensures PermUpTo(f, |b|) && FirstBytes(b, f)
  {
    assert b[..|b|] == b;
    forall r | 0 <= r < |b|
      ensures 0 <= f[r] < |b| && Slot(b, f[r]) == r
      ensures Cum(b, b[f[r]]) <= r < Cum(b, b[f[r]] as int + 1)
    {
      RadixEntry(ft, f, b, r);
    }
  }

  /** Counts the bytes of the block and forms the cumulative counts; keeps a copy of the counts. */
  method CountBytes(eclass8: array<int>, ftab: array<int>, ftabCopy: array<int>, nblock: nat, ghost b: seq<Byte>)
    requires ftab.Length == 257 && ftabCopy.Length == 256 && ftab != ftabCopy && ftab != eclass8 && ftabCopy != eclass8
    requires nblock == |b| <= eclass8.Length && eclass8[..nblock] == b
    modifies ftab, ftabCopy
    ensures forall c :: 0 <= c < 256 ==> ftabCopy[c] == Count(b, c)
    ensures forall c :: 0 <= c < 256 ==> ftab[c] == Cum(b, c + 1)
  {
    var i := 0;
    while i < 257
      invariant 0 <= i <= 257 && forall c :: 0 <= c < i ==> ftab[c] == 0
    {
      ftab[i] := 0;
      i := i + 1;
    }
    i := 0;
    while i < nblock
      invariant 0 <= i <= nblock
      invariant ftab[256] == 0 && forall c :: 0 <= c < 256 ==> ftab[c] == Count(b[..i], c)
    {
      assert eclass8[i] == eclass8[..nblock][i] == b[i];
      ftab[eclass8[i]] := ftab[eclass8[i]] + 1;
      forall c | 0 <= c < 256
        ensures Count(b[..i + 1], c) == Count(b[..i], c) + if b[i] == c then 1 else 0
      {
        CountPush(b, c, i);
      }
      i := i + 1;
    }
    assert b[..nblock] == b;
    i := 0;
    while i < 256
      invariant 0 <= i <= 256
      invariant forall c :: 0 <= c < i ==> ftabCopy[c] == Count(b, c)
      invariant forall c :: 0 <= c < 256 ==> ftab[c] == Count(b, c)
    {
      ftabCopy[i] := ftab[i];
      i := i + 1;
    }
    i := 1;
    while i < 257
      invariant 1 <= i <= 257
      invariant forall c :: 0 <= c < i && c < 256 ==> ftab[c] == Cum(b, c + 1)
      invariant forall c :: i <= c < 256 ==> ftab[c] == Count(b, c)
      invariant forall c :: 0 <= c < 256 ==> ftabCopy[c] == Count(b, c)
    {
      ftab[i] := ftab[i] + ftab[i - 1];
      i := i + 1;
    }
  }

  /** Sorts the rotations by their first byte. */
  method RadixSort(fmap: array<int>, eclass8: array<int>, ftab: array<int>, nblock: nat, ghost b: seq<Byte>)
    requires ftab.Length == 257 && ftab != fmap && ftab != eclass8 && fmap != eclass8
    requires nblock == |b| <= eclass8.Length && eclass8[..nblock] == b && nblock <= fmap.Length
    requires forall c :: 0 <= c < 256 ==> ftab[c] == Cum(b, c + 1)
    modifies ftab, fmap
    ensures forall c :: 0 <= c < 256 ==> ftab[c] == Cum(b, c)
    ensures PermUpTo(fmap[..], nblock) && FirstBytes(b, fmap[..])
  {
    var i := 0;
    while i < nblock
      invariant 0 <= i <= nblock
      invariant Radixing(ftab[..], fmap[..], b, i)
    {
      assert eclass8[i] == eclass8[..nblock][i] == b[i];
      RadixStep(ftab[..], fmap[..], b, i);
      var j := eclass8[i];
      var k := ftab[j] - 1;
      Store(ftab, j, k);
      Store(fmap, k, i);
      i := i + 1;
    }
    RadixEnd(ftab[..], fmap[..], b);
  }

  ghost predicate IsStart(b: seq<Byte>, k: int, i: nat) {
    exists c :: 0 <= c < i && Cum(b, c) == k
  }

  /** Bucket starts are exactly the positions where the first byte changes. */
  lemma StartsAreChanges(b: seq<Byte>, f: seq<int>, k: nat)
    requires PermUpTo(f, |b|) && FirstBytes(b, f) && 0 < k < |b|
    ensures IsStart(b, k, 256) <==> Cmp(b, f[k - 1], f[k], 1) != 0
    ensures Cmp(b, f[k - 1], f[k], 1) <= 0
  {
    var c, d := b[f[k - 1]], b[f[k]];
    assert Cum(b, c) <= k - 1 < Cum(b, c as int + 1) && Cum(b, d) <= k < Cum(b, d as int + 1);
    if d < c {
      CumMono(b, d as int + 1, c);
    }
    if c < d {
      CumMono(b, c as int + 1, d);
      assert Cum(b, d) == k;
    }
    if IsStart(b, k, 256) {
      var e :| 0 <= e < 256 && Cum(b, e) == k;
      if e <= c {
        CumMono(b, e, c);
      } else if d < e {
        CumMono(b, d as int + 1, e);
      }
    }
    OneByte(b, f[k - 1], f[k]);
  }

  lemma OneByte(b: seq<Byte>, i: nat, j: nat)
    requires i < |b| && j < |b|
    ensures Cmp(b, i, j, 1) == if b[i] < b[j] then -1 else if b[i] > b[j] then 1 else 0
  {
  }

  lemma OrderedByFirstByte(b: seq<Byte>, f: seq<int>)
    requires PermUpTo(f, |b|) && FirstBytes(b, f)
    ensures Ordered(b, f, 1)
  {
    forall i, j | 0 <= i < j < |b|
      ensures Cmp(b, f[i], f[j], 1) <= 0
    {
      OneByte(b, f[i], f[j]);
      if b[f[j]] < b[f[i]] {
        CumMono(b, b[f[j]] as int + 1, b[f[i]]);
      }
    }
  }

  /** Clears the bits, sets those at the bucket starts, and sets up the sentinels. */
  method InitMarks(bhtab: array<bool>, ftab: array<int>, nblock: nat, ghost b: seq<Byte>, ghost f: seq<int>)
    requires nblock == |b| > 0 && ftab.Length == 257 && nblock + 96 <= bhtab.Length
    requires forall c :: 0 <= c < 256 ==> ftab[c] == Cum(b, c)
    requires PermUpTo(f, |b|) && FirstBytes(b, f)
    modifies bhtab
    ensures Marked(b, f, bhtab[..], 1) && Sentinels(bhtab[..], nblock)
  {
    var nBhtab := 2 + nblock / 32;
    var i := 0;
    while i < nBhtab
      invariant 0 <= i <= nBhtab
      invariant forall k :: 0 <= k < 32 * i ==> !bhtab[k]
    {
      forall k | 32 * i <= k < 32 * i + 32 {
        bhtab[k] := false;
      }
      i := i + 1;
    }
    CumAll(b);
    i := 0;
    while i < 256
      invariant 0 <= i <= 256
      invariant forall k :: 0 <= k < nblock ==> (bhtab[k] <==> IsStart(b, k, i))
    {
      CumMono(b, i, 256);
      forall k | 0 <= k < nblock
        ensures IsStart(b, k, i + 1) <==> IsStart(b, k, i) || k == Cum(b, i)
      {
        IsStartNext(b, k, i);
      }
      bhtab[ftab[i]] := true;
      i := i + 1;
    }
    i := 0;
    while i < 32
      invariant 0 <= i <= 32
      invariant forall k :: 0 <= k < nblock ==> (bhtab[k] <==> IsStart(b, k, 256))
      invariant forall k :: nblock <= k < nblock + 2 * i ==> bhtab[k] == ((k - nblock) % 2 == 0)
    {
      bhtab[nblock + 2 * i] := true;
      bhtab[nblock + 2 * i + 1] := false;
      i := i + 1;
    }
    IsStartNext(b, 0, 0);
    IsStartMono(b, 0, 1, 256);
    forall k | 0 < k < nblock
      ensures bhtab[k] <==> Cmp(b, f[k - 1], f[k], 1) != 0
    {
      StartsAreChanges(b, f, k);
    }
  }

  lemma IsStartNext(b: seq<Byte>, k: int, i: nat)
    ensures IsStart(b, k, i + 1) <==> IsStart(b, k, i) || k == Cum(b, i)
  {
    if IsStart(b, k, i + 1) {
      var c :| 0 <= c < i + 1 && Cum(b, c) == k;
    }
  }

  lemma IsStartMono(b: seq<Byte>, k: int, i: nat, j: nat)
    requires IsStart(b, k, i) && i <= j
    ensures IsStart(b, k, j)
  {
  }

  // ----- After the passes: rebuilding the block.

  /** The block is rebuilt from the order and the byte counts alone. */
  method Rebuild(fmap: array<int>, eclass8: array<int>, ftabCopy: array<int>, nblock: nat, ghost b: seq<Byte>)
    requires ftabCopy.Length == 256 && ftabCopy != fmap && ftabCopy != eclass8 && fmap != eclass8
    requires nblock == |b| <= eclass8.Length && PermUpTo(fmap[..], nblock) && FirstBytes(b, fmap[..])
    requires forall c :: 0 <= c < 256 ==> ftabCopy[c] == Count(b, c)
    modifies ftabCopy, eclass8
    ensures eclass8[..nblock] == b
  {
    ghost var f := fmap[..];
    CumAll(b);
    var j := 0;
    var i := 0;
    while i < nblock
      invariant 0 <= i <= nblock && 0 <= j < 256
      invariant Cum(b, j) <= i <= Cum(b, j + 1) && ftabCopy[j] == Cum(b, j + 1) - i
      invariant forall c :: j < c < 256 ==> ftabCopy[c] == Count(b, c)
      invariant forall r :: 0 <= r < i ==> eclass8[f[r]] == b[f[r]]
    {
      while ftabCopy[j] == 0
        invariant 0 <= j < 256
        invariant Cum(b, j) <= i <= Cum(b, j + 1) && ftabCopy[j] == Cum(b, j + 1) - i
        invariant forall c :: j < c < 256 ==> ftabCopy[c] == Count(b, c)
        decreases 256 - j
      {
        assert j != 255;  // assertion 1005
        j := j + 1;
      }
      ftabCopy[j] := ftabCopy[j] - 1;
      FirstByteAt(b, f, i, j);
      eclass8[fmap[i]] := j;
      i := i + 1;
    }
    forall x | 0 <= x < nblock
      ensures eclass8[x] == b[x]
    {
      var r := IndexOf(f[..nblock], nblock, x);
      assert f[r] == f[..nblock][r];
    }
  }

  lemma FirstByteAt(b: seq<Byte>, f: seq<int>, i: nat, j: nat)
    requires FirstBytes(b, f) && i < |b| && Cum(b, j) <= i < Cum(b, j + 1)
    ensures b[f[i]] == j
  {
    if b[f[i]] < j {
      CumMono(b, b[f[i]] as int + 1, j);
    } else if j < b[f[i]] {
      CumMono(b, j + 1, b[f[i]]);
    }
  }

  // ----- The whole sort.

  /** `eclass` and `eclass8` are the same memory: writing words destroys the bytes.  Nothing is promised about them. */
  method OverwriteBytes(eclass8: array<int>)
    modifies eclass8
  {
    for i := 0 to eclass8.Length {
      eclass8[i] := 0;
    }
  }

  /** The first sort and its marks, for prefix length 1. */
  method SortFirstBytes(fmap: array<int>, eclass8: array<int>, bhtab: array<bool>, ftabCopy: array<int>, nblock: nat, ghost b: seq<Byte>)
    requires fmap != eclass8 && ftabCopy != fmap && ftabCopy != eclass8 && ftabCopy.Length == 256
    requires 0 < nblock == |b| && nblock <= fmap.Length && nblock <= eclass8.Length
    requires nblock + 96 <= bhtab.Length && eclass8[..nblock] == b
    modifies fmap, bhtab, ftabCopy
    ensures forall c :: 0 <= c < 256 ==> ftabCopy[c] == Count(b, c)
    ensures Ordered(b, fmap[..], 1) && Marked(b, fmap[..], bhtab[..], 1) && Sentinels(bhtab[..], |b|) && FirstBytes(b, fmap[..])
  {
    var ftab := new int[257];
    CountBytes(eclass8, ftab, ftabCopy, nblock, b);
    RadixSort(fmap, eclass8, ftab, nblock, b);
    InitMarks(bhtab, ftab, nblock, b, fmap[..]);
    OrderedByFirstByte(b, fmap[..]);
  }

  /** Sorts the rotations of the block in eclass8[..nblock], for every block, and restores the block. */
  method FallbackSort(fmap: array<int>, eclass: array<int>, eclass8: array<int>, bhtab: array<bool>, nblock: nat, ghost b: seq<Byte>)
    requires fmap != eclass && fmap != eclass8 && eclass != eclass8
    requires 0 < nblock == |b| <= MAX_BLOCK && nblock <= fmap.Length && nblock <= eclass.Length && nblock <= eclass8.Length
    requires nblock + 96 <= bhtab.Length && eclass8[..nblock] == b
    modifies fmap, eclass, eclass8, bhtab
    ensures WeaklySorted(b, fmap[..nblock])
    ensures eclass8[..nblock] == b
  {
    var ftabCopy := new int[256];
    SortFirstBytes(fmap, eclass8, bhtab, ftabCopy, nblock, b);
    OverwriteBytes(eclass8);
    RefineAll(fmap, eclass, bhtab, nblock, b);
    Rebuild(fmap, eclass8, ftabCopy, nblock, b);
  }

  /** The log(N) loop. */
  method RefineAll(fmap: array<int>, eclass: array<int>, bhtab: array<bool>, nblock: nat, ghost b: seq<Byte>)
    requires fmap != eclass && 0 < nblock == |b| <= MAX_BLOCK && nblock <= eclass.Length
    requires Ordered(b, fmap[..], 1) && Marked(b, fmap[..], bhtab[..], 1) && Sentinels(bhtab[..], |b|) && FirstBytes(b, fmap[..])
    modifies fmap, eclass, bhtab
    ensures WeaklySorted(b, fmap[..nblock]) && PermUpTo(fmap[..], nblock) && FirstBytes(b, fmap[..])
  {
    hide FirstBytes;
    var h := 1;
    while true
      invariant 0 < h <= nblock
      invariant Ordered(b, fmap[..], h) && Marked(b, fmap[..], bhtab[..], h) && Sentinels(bhtab[..], |b|)
      invariant FirstBytes(b, fmap[..])
      decreases nblock - h
    {
      AssignClasses(fmap, eclass, bhtab, nblock, h);
      var nNotDone := RefineBuckets(fmap, eclass, bhtab, nblock, b, h);
      h := h * 2;
      if h > nblock || nNotDone == 0 {
        if nNotDone != 0 {
          SortedByLength(b, fmap[..], h);
        }
        break;
      }
    }
  }
}
