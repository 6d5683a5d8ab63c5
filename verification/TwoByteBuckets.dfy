/** The first stage of the main sort: a radix sort by the first two bytes.

    Rotations with the same first two bytes form a small bucket; bucket `k` occupies the positions from `Start(b, k)` up
    to `Start(b, k + 1)`.  The 256 small buckets with the same first byte form a big bucket.
 */
module TwoByteBuckets {
  import opened Arrays
  import opened InverseBwt
  import opened MainCompare
  import opened Permutations
  import opened Rotations

  const KEYS: nat := 65536

  /** The first two bytes of a rotation as a number. */
  function Key(b: seq<Byte>, i: int): (k: nat)
    requires 0 <= i < |b|
    ensures k < KEYS && k / 256 == b[i] && k % 256 == b[Next(|b|, i)]
  {
    b[i] as int * 256 + b[Next(|b|, i)]
  }

  ghost function Keys(b: seq<Byte>): (s: seq<int>)
    ensures |s| == |b| && forall i :: 0 <= i < |b| ==> s[i] == Key(b, i)
  {
    seq(|b|, i requires 0 <= i < |b| => Key(b, i))
  }

  /** How many rotations have a smaller key. */
  ghost function Start(b: seq<Byte>, k: nat): nat {
    Cum(Keys(b), k)
  }

  lemma StartMono(b: seq<Byte>, k: nat, k': nat)
    requires k <= k'
    ensures Start(b, k) <= Start(b, k')
  {
    CumMono(Keys(b), k, k');
  }

  lemma StartEnds(b: seq<Byte>)
    ensures Start(b, 0) == 0 && Start(b, KEYS) == |b|
  {
    CumBelow(Keys(b), KEYS);
  }

  lemma StartNext(b: seq<Byte>, k: nat)
    ensures Start(b, k + 1) == Start(b, k) + Count(Keys(b), k)
  {
  }

  /** Position `r` belongs to small bucket `k`. */
  ghost predicate InBucket(b: seq<Byte>, k: nat, r: int) {
    Start(b, k) <= r < Start(b, k + 1)
  }

  /** Buckets do not overlap. */
  lemma OneBucket(b: seq<Byte>, k: nat, k': nat, r: int, s: int)
    requires InBucket(b, k, r) && InBucket(b, k', s)
    ensures k < k' ==> r < s
    ensures r == s ==> k == k'
  {
    if k < k' {
      StartMono(b, k + 1, k');
    } else if k' < k {
      StartMono(b, k' + 1, k);
    }
  }

  /** Every position belongs to a bucket. */
  lemma {:induction false} SomeBucket(b: seq<Byte>, m: nat, r: nat) returns (k: nat)
    requires r < Start(b, m)
    ensures k < m && InBucket(b, k, r)
  {
    if m > 0 {
      if Start(b, m - 1) <= r {
        k := m - 1;
      } else {
        k := SomeBucket(b, m - 1, r);
      }
    }
  }

  /** All rotations stand in their small buckets. */
  ghost predicate Bucketed(b: seq<Byte>, f: seq<int>) {
    PermUpTo(f, |b|) && forall r :: 0 <= r < |b| ==> InBucket(b, Key(b, f[r]), r)
  }

  lemma BucketKey(b: seq<Byte>, f: seq<int>, k: nat, r: nat)
    requires Bucketed(b, f) && r < |b| && InBucket(b, k, r)
    ensures Key(b, f[r]) == k
  {
    OneBucket(b, k, Key(b, f[r]), r, r);
  }

  // ----- Counting.

  /** Counts the keys, last rotation first; clears the quadrants. */
  method CountKeys(block: array<int>, quadrant: array<int>, ftab: array<int>, nblock: nat, ghost b: seq<Byte>)
    requires block != quadrant && block != ftab && quadrant != ftab && ftab.Length == KEYS + 1
    requires 0 < nblock == |b| <= block.Length && nblock <= quadrant.Length && block[..nblock] == b
    modifies ftab, quadrant
    ensures ftab[KEYS] == 0 && forall k :: 0 <= k < KEYS ==> ftab[k] == Count(Keys(b), k)
    ensures forall i :: 0 <= i < nblock ==> quadrant[i] == 0
  {
    hide Count;
    ghost var ks := Keys(b);
    var z := KEYS;
    while z >= 0
      invariant -1 <= z <= KEYS && forall k :: z < k <= KEYS ==> ftab[k] == 0
    {
      ftab[z] := 0;
      z := z - 1;
    }
    assert block[..nblock][0] == block[0];
    var j := block[0] * 256;
    var i := nblock - 1;
    assert ks[..i + 1] == ks;
    while i >= 0
      invariant -1 <= i < nblock && 0 <= j < KEYS && (i >= 0 ==> j / 256 == b[Next(nblock, i)])
      invariant ftab[KEYS] == 0 && forall k :: 0 <= k < KEYS ==> ftab[k] + Count(ks[..i + 1], k) == Count(ks, k)
      invariant forall x :: i < x < nblock ==> quadrant[x] == 0
    {
      quadrant[i] := 0;
      assert block[..nblock][i] == block[i];
      j := j / 256 + block[i] * 256;
      assert j == ks[i];
      forall k | 0 <= k < KEYS
        ensures Count(ks[..i + 1], k) == Count(ks[..i], k) + if j == k then 1 else 0
      {
        CountPush(ks, k, i);
      }
      ftab[j] := ftab[j] + 1;
      i := i - 1;
    }
    assert ks[..0] == [];
  }

  /** Copies the first bytes behind the block. */
  method Overshoot(block: array<int>, quadrant: array<int>, nblock: nat, ghost b: seq<Byte>)
    requires block != quadrant && N_OVERSHOOT < nblock == |b|
    requires nblock + N_OVERSHOOT <= block.Length && nblock + N_OVERSHOOT <= quadrant.Length
    requires block[..nblock] == b && forall i :: 0 <= i < nblock ==> quadrant[i] == 0
    modifies block, quadrant
    ensures block[..nblock] == b && Extended(block[..], b)
    ensures forall i :: 0 <= i < nblock + N_OVERSHOOT ==> quadrant[i] == 0
  {
    var i := 0;
    while i < N_OVERSHOOT
      invariant 0 <= i <= N_OVERSHOOT && block[..nblock] == b
      invariant forall k :: 0 <= k < i ==> block[nblock + k] == b[k]
      invariant forall k :: 0 <= k < nblock + i ==> quadrant[k] == 0
    {
      assert block[..nblock][i] == block[i];
      block[nblock + i] := block[i];
      quadrant[nblock + i] := 0;
      i := i + 1;
    }
    assert forall k :: 0 <= k < nblock ==> block[k] == block[..nblock][k];
  }

  /** From counts to ends of buckets. */
  method SumUp(ftab: array<int>, ghost b: seq<Byte>)
    requires ftab.Length == KEYS + 1 && ftab[KEYS] == 0 && forall k :: 0 <= k < KEYS ==> ftab[k] == Count(Keys(b), k)
    modifies ftab
    ensures ftab[KEYS] == |b| && forall k :: 0 <= k < KEYS ==> ftab[k] == Start(b, k + 1)
  {
    StartEnds(b);
    StartNext(b, 0);
    var i := 1;
    while i <= KEYS
      invariant 1 <= i <= KEYS + 1
      invariant forall k :: 0 <= k < i && k < KEYS ==> ftab[k] == Start(b, k + 1)
      invariant forall k :: i <= k < KEYS ==> ftab[k] == Count(Keys(b), k)
      invariant ftab[KEYS] == if i <= KEYS then 0 else |b|
    {
      StartNext(b, i);
      ftab[i] := ftab[i] + ftab[i - 1];
      i := i + 1;
    }
  }

  // ----- Placing.

  /** Bucket `k` is filled from ft[k] up, in ascending order, with rotations from `i` on. */
  ghost predicate Filled(ft: seq<int>, f: seq<int>, b: seq<Byte>, i: nat, k: nat)
    requires k < |ft|
  {
    && Start(b, k + 1) <= |b| <= |f| && Start(b, k) <= ft[k]
    && (forall r :: ft[k] <= r < Start(b, k + 1) ==> i <= f[r] < |b| && Key(b, f[r]) == k)
    && (forall r, s :: ft[k] <= r < s < Start(b, k + 1) ==> f[r] < f[s])
  }

  /** With the rotations from `i` on placed, so many are missing in each bucket. */
  ghost predicate Filling(ft: seq<int>, f: seq<int>, b: seq<Byte>, i: nat) {
    && |ft| == KEYS + 1 && i <= |b| <= |f| && ft[KEYS] == |b|
    && (forall k :: 0 <= k < KEYS ==> ft[k] == Start(b, k) + Count(Keys(b)[..i], k))
    && (forall k :: 0 <= k < KEYS ==> Filled(ft, f, b, i, k))
  }

  lemma FillStart(ft: seq<int>, f: seq<int>, b: seq<Byte>)
    requires |ft| == KEYS + 1 && ft[KEYS] == |b| <= |f| && forall k :: 0 <= k < KEYS ==> ft[k] == Start(b, k + 1)
    ensures Filling(ft, f, b, |b|)
  {
    assert Keys(b)[..|b|] == Keys(b);
    StartEnds(b);
    forall k | 0 <= k < KEYS
      ensures ft[k] == Start(b, k) + Count(Keys(b), k) && Filled(ft, f, b, |b|, k)
    {
      StartNext(b, k);
      StartMono(b, k + 1, KEYS);
    }
  }

  lemma FillStep(ft: seq<int>, f: seq<int>, b: seq<Byte>, i: nat)
    requires Filling(ft, f, b, i + 1)
    ensures var k := Key(b, i); 0 <= ft[k] - 1 < |f| && Filling(ft[k := ft[k] - 1], f[ft[k] - 1 := i], b, i)
  {
    var k0 := Key(b, i);
    var p := ft[k0] - 1;
    var ks := Keys(b);
    forall k | 0 <= k < KEYS
      ensures Count(ks[..i + 1], k) == Count(ks[..i], k) + if k0 == k then 1 else 0
    {
      CountPush(ks, k, i);
    }
    StartNext(b, k0);
    CountPrefix(ks, k0, i + 1, |b|);
    assert ks[..|b|] == ks;
    assert Filled(ft, f, b, i + 1, k0) && InBucket(b, k0, p);
    var ft', f' := ft[k0 := p], f[p := i];
    forall k | 0 <= k < KEYS
      ensures Filled(ft', f', b, i, k)
    {
      assert Filled(ft, f, b, i + 1, k);
      forall r | ft'[k] <= r < Start(b, k + 1)
        ensures k != k0 ==> f'[r] == f[r]
      {
        assert InBucket(b, k, r);
        OneBucket(b, k, k0, r, p);
      }
    }
  }

  lemma FillEnd(ft: seq<int>, f: seq<int>, b: seq<Byte>)
    requires Filling(ft, f, b, 0)
    ensures Bucketed(b, f)
    ensures forall k :: 0 <= k <= KEYS ==> ft[k] == Start(b, k)
  {
    StartEnds(b);
    assert Keys(b)[..0] == [];
    forall r | 0 <= r < |b|
      ensures 0 <= f[r] < |b| && InBucket(b, Key(b, f[r]), r)
    {
      var k := SomeBucket(b, KEYS, r);
      assert Filled(ft, f, b, 0, k);
    }
    forall r, s | 0 <= r < s < |b|
      ensures f[r] != f[s]
    {
      var k := SomeBucket(b, KEYS, r);
      assert Filled(ft, f, b, 0, k);
      if Key(b, f[s]) == k {
        assert InBucket(b, k, s);
      }
    }
  }

  /** Places the rotations, last one first; the table ends with the starts of the buckets. */
  method PlaceByKey(ptr: array<int>, block: array<int>, ftab: array<int>, nblock: nat, ghost b: seq<Byte>)
    requires ptr != block && ptr != ftab && block != ftab && ftab.Length == KEYS + 1
    requires 0 < nblock == |b| <= block.Length && nblock <= ptr.Length && block[..nblock] == b
    requires ftab[KEYS] == |b| && forall k :: 0 <= k < KEYS ==> ftab[k] == Start(b, k + 1)
    modifies ptr, ftab
    ensures Bucketed(b, ptr[..])
    ensures forall k :: 0 <= k <= KEYS ==> ftab[k] == Start(b, k)
  {
    hide Filling, Bucketed;
    FillStart(ftab[..], ptr[..], b);
    assert block[..nblock][0] == block[0];
    var s := block[0] * 256;
    var i := nblock - 1;
    while i >= 0
      invariant -1 <= i < nblock && 0 <= s < KEYS && (i >= 0 ==> s / 256 == b[Next(nblock, i)])
      invariant Filling(ftab[..], ptr[..], b, i + 1)
    {
      assert block[..nblock][i] == block[i];
      s := s / 256 + block[i] * 256;
      FillStep(ftab[..], ptr[..], b, i);
      var j := ftab[s] - 1;
      Store(ftab, s, j);
      Store(ptr, j, i);
      i := i - 1;
    }
    FillEnd(ftab[..], ptr[..], b);
  }
}
