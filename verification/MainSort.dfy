/** The main block sort: radix sort by two bytes, then big bucket after big bucket, the smallest first.

    A big bucket is completed by sorting those of its small buckets that are not yet in order; reading it then puts the
    small buckets [c, ss] of all unfinished big buckets c in order without comparing anything.  The order found is
    kept in the quadrants, which later comparisons use.
 */
module MainSort {
  import opened Arrays
  import opened BucketScan
  import opened Cuts
  import opened FallbackQSort
  import opened MainCompare
  import opened MainQSort
  import opened MainShellSort
  import opened Permutations
  import opened Ranks
  import opened Rotations
  import opened TwoByteBuckets

  // ----- The table of bucket starts, with a mark on the buckets that are in order.

  /** The mark: bit 21 of a table entry. */
  const SETMASK: nat := 2097152

  predicate IsSet(v: int) {
    v / SETMASK % 2 == 1
  }

  function Cleared(v: int): int {
    if IsSet(v) then v - SETMASK else v
  }

  function WithMark(v: int): int {
    if IsSet(v) then v else v + SETMASK
  }

  /** The table holds the starts of the buckets, some of them marked. */
  ghost predicate TableOk(ft: seq<int>, b: seq<Byte>) {
    |ft| == KEYS + 1 && |b| <= MAX_BLOCK && forall k :: 0 <= k <= KEYS ==> ft[k] == Start(b, k) || ft[k] == Start(b, k) + SETMASK
  }

  lemma TableAt(ft: seq<int>, b: seq<Byte>, k: nat)
    requires TableOk(ft, b) && k <= KEYS
    ensures |ft| == KEYS + 1 && Cleared(ft[k]) == Start(b, k) && TableOk(ft[k := WithMark(ft[k])], b) && IsSet(WithMark(ft[k]))
  {
    StartMono(b, k, KEYS);
    StartEnds(b);
  }

  /** Marked buckets are in order. */
  ghost predicate MarkedSorted(ft: seq<int>, b: seq<Byte>, f: seq<int>, rk: seq<int>) {
    |ft| == KEYS + 1 && forall k :: 0 <= k < KEYS && IsSet(ft[k]) ==> BucketSorted(b, f, rk, k)
  }

  /** All small buckets of the finished big buckets are marked. */
  ghost predicate DoneMarked(ft: seq<int>, done: seq<bool>) {
    |ft| == KEYS + 1 && |done| == 256 && forall k :: 0 <= k < KEYS && done[k / 256] ==> IsSet(ft[k])
  }

  // ----- Step 1.

  lemma SameKeyAgree(b: seq<Byte>, i: nat, j: nat)
    requires i < |b| && j < |b| && Key(b, i) == Key(b, j)
    ensures Agree(b, i, j, 2)
  {
    var i', j' := Next(|b|, i), Next(|b|, j);
    assert Cmp(b, Next(|b|, i'), Next(|b|, j'), 0) == 0;
    assert Cmp(b, i', j', 1) == 0;
  }

  /** The rotations of a small bucket agree on two bytes. */
  lemma BucketAgrees(b: seq<Byte>, f: seq<int>, rk: seq<int>, k: nat)
    requires Bucketed(b, f) && |rk| == |b| && k < KEYS
    ensures Start(b, k) <= Start(b, k + 1) <= |b|
    ensures AllAgree(b, f, Start(b, k), Start(b, k + 1) - 1, 2)
    ensures Keyed(f, rk, Start(b, k), Start(b, k + 1))
  {
    StartMono(b, k, k + 1);
    StartMono(b, k + 1, KEYS);
    StartEnds(b);
    forall r | Start(b, k) <= r < Start(b, k + 1)
      ensures 0 <= f[r] < |b| && Key(b, f[r]) == k
    {
      assert InBucket(b, k, r);
      BucketKey(b, f, k, r);
    }
    forall r, s | Start(b, k) <= r < Start(b, k + 1) && Start(b, k) <= s < Start(b, k + 1)
      ensures Agree(b, f[r], f[s], 2)
    {
      SameKeyAgree(b, f[r], f[s]);
    }
  }

  /** Rearranging one small bucket keeps all rotations in their buckets and the other buckets as they are. */
  lemma BucketRearranged(b: seq<Byte>, f: seq<int>, g: seq<int>, k: nat)
    requires Bucketed(b, g) && k < KEYS && Start(b, k + 1) <= |b| && Rearranged(f, g, Start(b, k), Start(b, k + 1))
    ensures Bucketed(b, f)
  {
    var lo, hi := Start(b, k), Start(b, k + 1);
    PermUpToRearranged(f, g, |b|, lo, hi);
    forall r | 0 <= r < |b|
      ensures InBucket(b, Key(b, f[r]), r)
    {
      if lo <= r < hi {
        var r' := RearrangedFrom(f, g, lo, hi, r);
        assert InBucket(b, k, r') && InBucket(b, k, r);
        BucketKey(b, g, k, r');
      } else {
        assert f[r] == g[r];
      }
    }
  }

  lemma OtherBucketSorted(b: seq<Byte>, f: seq<int>, g: seq<int>, rk: seq<int>, k: nat, k': nat)
    requires k != k' && k' < KEYS && BucketSorted(b, g, rk, k') && |f| == |g|
    requires forall r :: 0 <= r < |f| && !InBucket(b, k, r) ==> f[r] == g[r]
    ensures BucketSorted(b, f, rk, k')
  {
    forall r | Start(b, k') <= r < Start(b, k' + 1)
      ensures f[r] == g[r]
    {
      assert InBucket(b, k', r);
      if InBucket(b, k, r) {
        OneBucket(b, k, k', r, r);
      }
    }
  }

  lemma MarkOne(b: seq<Byte>, f: seq<int>, g: seq<int>, rk: seq<int>, ft: seq<int>, sb: nat)
    requires MarkedSorted(ft, b, g, rk) && sb < KEYS && |f| == |g| && BucketSorted(b, f, rk, sb)
    requires forall r :: 0 <= r < |f| && !InBucket(b, sb, r) ==> f[r] == g[r]
    ensures MarkedSorted(ft[sb := WithMark(ft[sb])], b, f, rk)
  {
    hide BucketSorted, InBucket, IsSet;
    forall k | 0 <= k < KEYS && IsSet(ft[k]) && k != sb
      ensures BucketSorted(b, f, rk, k)
    {
      OtherBucketSorted(b, f, g, rk, sb, k);
    }
  }

  /** Sorts the small bucket at table entry `sb`, if it is not marked, and marks it. */
  method SortBucket(ptr: array<int>, block: array<int>, quadrant: array<int>, ftab: array<int>, nblock: nat, sb: nat, budget0: int,
                    ghost b: seq<Byte>, ghost rk: seq<int>)
    returns (budget: int)
    requires ptr != block && ptr != quadrant && ptr != ftab && ftab != block && ftab != quadrant && sb < KEYS
    requires nblock == |b| && Comparable(block[..], quadrant[..], b, rk)
    requires Bucketed(b, ptr[..]) && TableOk(ftab[..], b) && MarkedSorted(ftab[..], b, ptr[..], rk)
    modifies ptr, ftab
    ensures budget <= budget0
    ensures budget >= 0 ==> && Bucketed(b, ptr[..]) && TableOk(ftab[..], b) && MarkedSorted(ftab[..], b, ptr[..], rk)
                            && ftab[..] == old(ftab[..])[sb := WithMark(old(ftab[sb]))]
  {
    hide Comparable, Bucketed, AllAgree, IsSet, Cleared, WithMark;
    budget := budget0;
    ghost var g, ft := ptr[..], ftab[..];
    ComparableFacts(block[..], quadrant[..], b, rk);
    TableAt(ft, b, sb);
    TableAt(ft, b, sb + 1);
    BucketAgrees(b, g, rk, sb);
    if !IsSet(ftab[sb]) {
      var lo := Cleared(ftab[sb]);
      var hi := Cleared(ftab[sb + 1]) - 1;
      if hi > lo {
        budget := MainQSort3(ptr, block, quadrant, nblock, lo, hi, 2, budget, b, rk);
        if budget < 0 { return; }
        BucketRearranged(b, ptr[..], g, sb);
      }
      assert BucketSorted(b, ptr[..], rk, sb);
    }
    MarkOne(b, ptr[..], g, rk, ft, sb);
    ftab[sb] := WithMark(ftab[sb]);
  }

  lemma ComparableFacts(blk: seq<int>, q: seq<int>, b: seq<Byte>, rk: seq<int>)
    requires Comparable(blk, q, b, rk)
    ensures IsRanking(b, rk) && |rk| == |b|
  {
  }

  /** The small bucket [c, x] is marked. */
  ghost predicate Marked(ft: seq<int>, c: nat, x: nat) {
    c < 256 && x < 256 && |ft| == KEYS + 1 && IsSet(ft[c * 256 + x])
  }

  lemma MarkAdded(ft: seq<int>, c: nat, x: nat, ft': seq<int>, done: seq<bool>)
    requires |ft| == KEYS + 1 && c < 256 && x < 256 && ft' == ft[c * 256 + x := WithMark(ft[c * 256 + x])]
    ensures Marked(ft', c, x)
    ensures forall c', x' :: Marked(ft, c', x') ==> Marked(ft', c', x')
    ensures DoneMarked(ft, done) ==> DoneMarked(ft', done)
  {
  }

  /** Step 1: all small buckets [ss, j] with j != ss are in order afterwards. */
  method SortSmallBuckets(ptr: array<int>, block: array<int>, quadrant: array<int>, ftab: array<int>, nblock: nat, ss: nat, budget0: int,
                          ghost b: seq<Byte>, ghost rk: seq<int>, ghost done: seq<bool>)
    returns (budget: int)
    requires ptr != block && ptr != quadrant && ptr != ftab && ftab != block && ftab != quadrant && ss < 256
    requires nblock == |b| && Comparable(block[..], quadrant[..], b, rk)
    requires Bucketed(b, ptr[..]) && TableOk(ftab[..], b) && MarkedSorted(ftab[..], b, ptr[..], rk) && DoneMarked(ftab[..], done)
    modifies ptr, ftab
    ensures budget <= budget0
    ensures budget >= 0 ==> && Bucketed(b, ptr[..]) && TableOk(ftab[..], b) && MarkedSorted(ftab[..], b, ptr[..], rk)
                            && DoneMarked(ftab[..], done)
    ensures budget >= 0 ==> forall j :: 0 <= j < 256 && j != ss ==> Marked(ftab[..], ss, j)
  {
    hide Comparable, Bucketed, MarkedSorted, DoneMarked, Marked, TableOk;
    budget := budget0;
    var j := 0;
    while j <= 255
      invariant 0 <= j <= 256 && budget <= budget0
      invariant Bucketed(b, ptr[..]) && TableOk(ftab[..], b) && MarkedSorted(ftab[..], b, ptr[..], rk) && DoneMarked(ftab[..], done)
      invariant forall x :: 0 <= x < j && x != ss ==> Marked(ftab[..], ss, x)
    {
      if j != ss {
        ghost var ft := ftab[..];
        TableAt(ft, b, ss * 256 + j);
        budget := SortBucket(ptr, block, quadrant, ftab, nblock, ss * 256 + j, budget, b, rk);
        if budget < 0 { return; }
        MarkAdded(ft, ss, j, ftab[..], done);
      }
      j := j + 1;
    }
  }

  // ----- Step 2.

  /** The whole block is the byte `ss`. */
  ghost predicate Constant(b: seq<Byte>, ss: int) {
    forall p :: 0 <= p < |b| ==> b[p] == ss
  }

  lemma {:induction false} ConstantCmp(b: seq<Byte>, ss: int, i: nat, j: nat, m: nat)
    requires Constant(b, ss) && i < |b| && j < |b|
    ensures Cmp(b, i, j, m) == 0
    decreases m
  {
    if m > 0 {
      ConstantCmp(b, ss, Next(|b|, i), Next(|b|, j), m - 1);
    }
  }

  /** In a constant block any order is sorted, and the bucket [ss, ss] is everything. */
  lemma ConstantSorted(b: seq<Byte>, rk: seq<int>, ss: nat, f: seq<int>)
    requires IsRanking(b, rk) && Bucketed(b, f) && Constant(b, ss) && ss < 256 && |b| > 0
    ensures forall c :: 0 <= c < 256 ==> SmallSorted(b, f, rk, c, ss)
    ensures BigLo(b, ss) == Lo(b, ss, ss) == 0 && Hi(b, ss, ss) == BigHi(b, ss) == |b|
  {
    forall c | 0 <= c < 256
      ensures SmallSorted(b, f, rk, c, ss)
    {
      BucketAgrees(b, f, rk, c * 256 + ss);
      forall r, s | Lo(b, ss, c) <= r < s < Hi(b, ss, c)
        ensures rk[f[r]] <= rk[f[s]]
      {
        ConstantCmp(b, ss, f[r], f[s], |b|);
      }
    }
    assert InBucket(b, Key(b, f[0]), 0) && InBucket(b, Key(b, f[|b| - 1]), |b| - 1);
    Layout(b, ss, ss);
  }

  /** The free places of the small buckets [c, ss] at the beginning. */
  method FreePlaces(ftab: array<int>, copyStart: array<int>, copyEnd: array<int>, ss: nat, ghost b: seq<Byte>)
    requires ftab != copyStart && ftab != copyEnd && copyStart != copyEnd && copyStart.Length == copyEnd.Length == 256
    requires ss < 256 && TableOk(ftab[..], b)
    modifies copyStart, copyEnd
    ensures forall c :: 0 <= c < 256 ==> copyStart[c] == Lo(b, ss, c) && copyEnd[c] == Hi(b, ss, c) - 1
  {
    hide IsSet;
    var j := 0;
    while j <= 255
      invariant 0 <= j <= 256
      invariant forall c :: 0 <= c < j ==> copyStart[c] == Lo(b, ss, c) && copyEnd[c] == Hi(b, ss, c) - 1
    {
      TableAt(ftab[..], b, j * 256 + ss);
      TableAt(ftab[..], b, j * 256 + ss + 1);
      copyStart[j] := Cleared(ftab[j * 256 + ss]);
      copyEnd[j] := Cleared(ftab[j * 256 + ss + 1]) - 1;
      j := j + 1;
    }
  }

  lemma ScanFacts(b: seq<Byte>, rk: seq<int>, ss: nat, done: seq<bool>, f0: seq<int>, f: seq<int>, cs: seq<int>,
                  ce: seq<int>, jl: int, jr: int)
    requires Scan(b, rk, ss, done, f0, f, cs, ce, jl, jr)
    ensures |cs| == |ce| == |done| == 256 && ss < 256 && !done[ss]
    ensures BigLo(b, ss) <= jl <= cs[ss] <= ce[ss] + 1 <= jr <= BigHi(b, ss) <= |b| <= |f|
    ensures jl < cs[ss] ==> 0 <= f[jl] < |b|
    ensures ce[ss] + 1 < jr ==> 0 <= f[jr - 1] < |b|
  {
    hide IsRanking, Bucketed, BothEnds, Unwritten;
    if jl < cs[ss] {
      LeftRead(b, rk, ss, done, f0, f, cs, ce, jl, jr);
    }
    if ce[ss] + 1 < jr {
      RightRead(b, rk, ss, done, f0, f, cs, ce, jl, jr);
    }
  }

  /** Reads the big bucket from the left. */
  method ScanUp(ptr: array<int>, block: array<int>, bigDone: array<bool>, copyStart: array<int>, copyEnd: array<int>, nblock: nat, ss: nat,
                ghost b: seq<Byte>, ghost rk: seq<int>, ghost f0: seq<int>, j0: int)
    requires ptr != block && ptr != copyStart && ptr != copyEnd && block != copyStart && copyStart != copyEnd
    requires nblock == |b| <= block.Length && block[..nblock] == b
    requires Scan(b, rk, ss, bigDone[..], f0, ptr[..], copyStart[..], copyEnd[..], j0, BigHi(b, ss))
    modifies ptr, copyStart
    ensures |copyStart[..]| == 256 && ss < 256
    ensures Scan(b, rk, ss, bigDone[..], f0, ptr[..], copyStart[..], copyEnd[..], copyStart[ss], BigHi(b, ss))
    ensures old(copyStart[ss]) <= j0 ==> ptr[..] == old(ptr[..]) && copyStart[..] == old(copyStart[..])
  {
    hide Scan, BigHi, BigLo;
    ghost var done, jr := bigDone[..], BigHi(b, ss);
    ScanFacts(b, rk, ss, done, f0, ptr[..], copyStart[..], copyEnd[..], j0, jr);
    var j := j0;
    while j < copyStart[ss]
      invariant Scan(b, rk, ss, done, f0, ptr[..], copyStart[..], copyEnd[..], j, jr)
      invariant j0 <= j <= copyStart[ss] && old(copyStart[ss]) <= copyStart[ss]
      invariant old(copyStart[ss]) <= j0 ==> j == j0 && ptr[..] == old(ptr[..]) && copyStart[..] == old(copyStart[..])
      decreases nblock - j
    {
      ScanFacts(b, rk, ss, done, f0, ptr[..], copyStart[..], copyEnd[..], j, jr);
      var k := ptr[j] - 1;
      if k < 0 { k := k + nblock; }
      assert k == Prev(nblock, ptr[j]) && block[k] == block[..nblock][k];
      var c1 := block[k];
      if !bigDone[c1] {
        ScanLeftPut(b, rk, ss, done, f0, ptr[..], copyStart[..], copyEnd[..], j, jr);
        Store(ptr, copyStart[c1], k);
        Store(copyStart, c1, copyStart[c1] + 1);
      } else {
        ScanLeftSkip(b, rk, ss, done, f0, ptr[..], copyStart[..], copyEnd[..], j, jr);
      }
      j := j + 1;
      ScanFacts(b, rk, ss, done, f0, ptr[..], copyStart[..], copyEnd[..], j, jr);
    }
  }

  /** Reads the big bucket from the right. */
  method ScanDown(ptr: array<int>, block: array<int>, bigDone: array<bool>, copyStart: array<int>,
                  copyEnd: array<int>, nblock: nat, ss: nat,
                  ghost b: seq<Byte>, ghost rk: seq<int>, ghost f0: seq<int>, j0: int)
    requires ptr != block && ptr != copyStart && ptr != copyEnd && block != copyEnd && copyStart != copyEnd
    requires nblock == |b| <= block.Length && block[..nblock] == b && ss < 256 == copyStart.Length
    requires Scan(b, rk, ss, bigDone[..], f0, ptr[..], copyStart[..], copyEnd[..], copyStart[ss], j0 + 1)
    modifies ptr, copyEnd
    ensures |copyEnd[..]| == 256
    ensures Scan(b, rk, ss, bigDone[..], f0, ptr[..], copyStart[..], copyEnd[..], copyStart[ss], copyEnd[ss] + 1)
    ensures old(copyEnd[..])[ss] >= j0 ==> ptr[..] == old(ptr[..]) && copyEnd[..] == old(copyEnd[..])
  {
    hide Scan, BigHi, BigLo;
    ghost var done, jl := bigDone[..], copyStart[ss];
    ScanFacts(b, rk, ss, done, f0, ptr[..], copyStart[..], copyEnd[..], jl, j0 + 1);
    var j := j0;
    while j > copyEnd[ss]
      invariant Scan(b, rk, ss, done, f0, ptr[..], copyStart[..], copyEnd[..], jl, j + 1)
      invariant copyEnd[ss] <= j <= j0 && copyEnd[ss] <= old(copyEnd[ss])
      invariant old(copyEnd[ss]) >= j0 ==> j == j0 && ptr[..] == old(ptr[..]) && copyEnd[..] == old(copyEnd[..])
      decreases j + 1
    {
      ScanFacts(b, rk, ss, done, f0, ptr[..], copyStart[..], copyEnd[..], jl, j + 1);
      var k := ptr[j] - 1;
      if k < 0 { k := k + nblock; }
      assert k == Prev(nblock, ptr[j]) && block[k] == block[..nblock][k];
      var c1 := block[k];
      if !bigDone[c1] {
        ScanRightPut(b, rk, ss, done, f0, ptr[..], copyStart[..], copyEnd[..], jl, j + 1);
        Store(ptr, copyEnd[c1], k);
        Store(copyEnd, c1, copyEnd[c1] - 1);
      } else {
        ScanRightSkip(b, rk, ss, done, f0, ptr[..], copyStart[..], copyEnd[..], jl, j + 1);
      }
      j := j - 1;
      ScanFacts(b, rk, ss, done, f0, ptr[..], copyStart[..], copyEnd[..], jl, j + 1);
    }
  }

  lemma ConstantResult(b: seq<Byte>, rk: seq<int>, ss: nat, done: seq<bool>, f: seq<int>)
    requires IsRanking(b, rk) && Bucketed(b, f) && Constant(b, ss) && ss < 256 && |b| > 0 && |done| == 256
    ensures ScanResult(b, rk, ss, done, f, f)
  {
    ConstantSorted(b, rk, ss, f);
  }

  /** Step 2: reads the sorted big bucket from both sides.  The assertion with code 1007 holds. */
  method ScanBigBucket(ptr: array<int>, block: array<int>, ftab: array<int>, bigDone: array<bool>, nblock: nat, ss: nat,
                       ghost b: seq<Byte>, ghost rk: seq<int>)
    requires ptr != block && ptr != ftab && ftab != block
    requires 0 < nblock == |b| <= block.Length && block[..nblock] == b && ss < 256 == bigDone.Length && !bigDone[ss]
    requires IsRanking(b, rk) && Bucketed(b, ptr[..]) && TableOk(ftab[..], b)
    requires forall x :: 0 <= x < 256 && x != ss ==> SmallSorted(b, ptr[..], rk, ss, x)
    modifies ptr
    ensures ScanResult(b, rk, ss, bigDone[..], old(ptr[..]), ptr[..])
  {
    hide IsRanking, Bucketed, TableOk, SmallSorted, Scan, ScanResult, IsSet, Start, Constant, Lo, Hi, BigLo, BigHi;
    ghost var f0, done := ptr[..], bigDone[..];
    var copyStart := new int[256];
    var copyEnd := new int[256];
    FreePlaces(ftab, copyStart, copyEnd, ss, b);
    ScanStart(b, rk, ss, done, f0, copyStart[..], copyEnd[..]);
    TableAt(ftab[..], b, ss * 256);
    TableAt(ftab[..], b, ss * 256 + 256);
    BigNames(b, ss);
    ScanUp(ptr, block, bigDone, copyStart, copyEnd, nblock, ss, b, rk, f0, Cleared(ftab[ss * 256]));
    ScanDown(ptr, block, bigDone, copyStart, copyEnd, nblock, ss, b, rk, f0, Cleared(ftab[ss * 256 + 256]) - 1);
    if Constant(b, ss) {
      ConstantSorted(b, rk, ss, f0);
      ConstantResult(b, rk, ss, done, f0);
      assert copyStart[ss] == 0 && copyEnd[ss] == nblock - 1;
      assert ptr[..] == f0;
    } else {
      ghost var p := NotConstant(b, ss);
      ScanEnd(b, rk, ss, done, f0, ptr[..], copyStart[..], copyEnd[..], p);
    }
    assert copyStart[ss] - 1 == copyEnd[ss] || (copyStart[ss] == 0 && copyEnd[ss] == nblock - 1);
  }

  lemma BigNames(b: seq<Byte>, ss: nat)
    ensures BigLo(b, ss) == Start(b, ss * 256) && BigHi(b, ss) == Start(b, ss * 256 + 256)
  {
  }

  lemma NotConstant(b: seq<Byte>, ss: int) returns (p: nat)
    requires !Constant(b, ss)
    ensures p < |b| && b[p] != ss
  {
    p :| p < |b| && b[p] != ss;
  }

  // ----- Marking after the scan.

  lemma AfterScanSorted(b: seq<Byte>, rk: seq<int>, ss: nat, done: seq<bool>, f0: seq<int>, f: seq<int>, k: nat)
    requires ScanResult(b, rk, ss, done, f0, f) && k < KEYS && BucketSorted(b, f0, rk, k)
    requires k % 256 != ss || done[k / 256]
    ensures BucketSorted(b, f, rk, k)
  {
    hide SmallSorted;
    StartEnds(b);
    StartMono(b, k + 1, KEYS);
    forall r | Start(b, k) <= r < Start(b, k + 1)
      ensures f[r] == f0[r]
    {
      assert InBucket(b, k, r);
      BucketKey(b, f0, k, r);
    }
  }

  /** All small buckets [c, ss], whether just put in order or finished before, are in order; so they may be marked. */
  lemma MarkedAfterScan(b: seq<Byte>, rk: seq<int>, ss: nat, done: seq<bool>, f0: seq<int>, f: seq<int>, ft: seq<int>)
    requires ScanResult(b, rk, ss, done, f0, f) && ss < 256
    requires MarkedSorted(ft, b, f0, rk) && DoneMarked(ft, done)
    ensures MarkedSorted(ft, b, f, rk)
    ensures forall c :: 0 <= c < 256 ==> SmallSorted(b, f, rk, c, ss)
  {
    hide BucketSorted, IsSet;
    forall k | 0 <= k < KEYS && (IsSet(ft[k]) || k % 256 == ss)
      ensures BucketSorted(b, f, rk, k)
    {
      if k % 256 == ss && !done[k / 256] {
        assert SmallSorted(b, f, rk, k / 256, ss);
        assert k / 256 * 256 + ss == k;
      } else {
        AfterScanSorted(b, rk, ss, done, f0, f, k);
      }
    }
    forall c | 0 <= c < 256
      ensures SmallSorted(b, f, rk, c, ss)
    {
      assert (c * 256 + ss) % 256 == ss;
    }
  }

  /** Marks the small buckets [c, ss]. */
  method MarkSmallBuckets(ftab: array<int>, ss: nat, ghost b: seq<Byte>, ghost f: seq<int>, ghost rk: seq<int>, ghost done: seq<bool>)
    requires ss < 256 && TableOk(ftab[..], b) && MarkedSorted(ftab[..], b, f, rk) && DoneMarked(ftab[..], done)
    requires forall c :: 0 <= c < 256 ==> SmallSorted(b, f, rk, c, ss)
    requires forall j :: 0 <= j < 256 && j != ss ==> Marked(ftab[..], ss, j)
    modifies ftab
    ensures TableOk(ftab[..], b) && MarkedSorted(ftab[..], b, f, rk) && DoneMarked(ftab[..], done[ss := true])
  {
    hide TableOk, MarkedSorted, DoneMarked, Marked;
    var j := 0;
    while j <= 255
      invariant 0 <= j <= 256
      invariant TableOk(ftab[..], b) && MarkedSorted(ftab[..], b, f, rk) && DoneMarked(ftab[..], done)
      invariant forall x :: 0 <= x < 256 && x != ss ==> Marked(ftab[..], ss, x)
      invariant forall x :: 0 <= x < j ==> Marked(ftab[..], x, ss)
    {
      ghost var ft := ftab[..];
      TableAt(ft, b, j * 256 + ss);
      assert SmallSorted(b, f, rk, j, ss);
      MarkOne(b, f, f, rk, ft, j * 256 + ss);
      Store(ftab, j * 256 + ss, WithMark(ftab[j * 256 + ss]));
      MarkAdded(ft, j, ss, ftab[..], done);
      j := j + 1;
    }
    BigMarked(ftab[..], ss, done);
  }

  lemma BigMarked(ft: seq<int>, ss: nat, done: seq<bool>)
    requires DoneMarked(ft, done) && ss < 256 && forall x :: 0 <= x < 256 ==> Marked(ft, ss, x)
    ensures DoneMarked(ft, done[ss := true])
  {
    forall k | 0 <= k < KEYS && k / 256 == ss
      ensures IsSet(ft[k])
    {
      assert Marked(ft, ss, k % 256);
      assert ss * 256 + k % 256 == k;
    }
  }

  // ----- Step 3.

  /** Quadrants during the update: positions from `j` on in the big bucket have theirs. */
  ghost predicate Updating(q: seq<int>, q0: seq<int>, b: seq<Byte>, f: seq<int>, ss: nat, shifts: nat, j: int) {
    && Bucketed(b, f) && |q| == |q0| >= |b| + N_OVERSHOOT && N_OVERSHOOT < |b|
    && (forall k :: 0 <= k < N_OVERSHOOT ==> q[|b| + k] == q[k])
    && (forall x :: 0 <= x < |b| && b[x] != ss ==> q[x] == q0[x])
    && (forall r :: BigLo(b, ss) + j <= r < BigHi(b, ss) && 0 <= r < |b| ==> q[f[r]] == Halved(Place(b, ss, r), shifts))
  }

  /** The place of position `r` within its big bucket. */
  ghost function Place(b: seq<Byte>, ss: nat, r: nat): nat {
    if r >= BigLo(b, ss) then r - BigLo(b, ss) else 0
  }

  lemma {:induction false} HalvedLess(x: nat, y: nat, e: nat)
    requires x <= y
    ensures Halved(x, e) <= Halved(y, e)
  {
    HalvedMono(x, y, e, e);
  }

  /** A position is in the big bucket exactly if its rotation begins with `ss`. */
  lemma BigByByte(b: seq<Byte>, f: seq<int>, ss: nat, r: nat)
    requires Bucketed(b, f) && ss < 256 && r < |b|
    ensures b[f[r]] == ss <==> BigLo(b, ss) <= r < BigHi(b, ss)
  {
    var k := Key(b, f[r]);
    assert InBucket(b, k, r);
    if k < ss * 256 { StartMono(b, k + 1, ss * 256); }
    if k >= ss * 256 { StartMono(b, ss * 256, k); }
    if k < ss * 256 + 256 { StartMono(b, k + 1, ss * 256 + 256); }
    if k >= ss * 256 + 256 { StartMono(b, ss * 256 + 256, k); }
  }

  /** The places within a sorted big bucket are good quadrants, also with their low bits dropped. */
  lemma UpdateEnds(q: seq<int>, q0: seq<int>, b: seq<Byte>, f: seq<int>, rk: seq<int>, ss: nat, shifts: nat)
    requires Updating(q, q0, b, f, ss, shifts, 0) && QuadrantsOk(q0, b) && IsRanking(b, rk) && ss < 256
    requires forall x :: 0 <= x < 256 ==> SmallSorted(b, f, rk, ss, x)
    ensures QuadrantsOk(q, b)
  {
    hide Leq, SmallSorted, IsRanking;
    forall i, i' | 0 <= i < |b| && 0 <= i' < |b| && b[i] == b[i'] && q[i] < q[i']
      ensures Leq(b, i, i')
    {
      if b[i] == ss {
        PlacesDecide(q, q0, b, f, rk, ss, shifts, i, i');
      }
    }
  }

  lemma PlacesDecide(q: seq<int>, q0: seq<int>, b: seq<Byte>, f: seq<int>, rk: seq<int>, ss: nat, shifts: nat, i: nat, i': nat)
    requires Updating(q, q0, b, f, ss, shifts, 0) && IsRanking(b, rk) && ss < 256
    requires forall x :: 0 <= x < 256 ==> SmallSorted(b, f, rk, ss, x)
    requires i < |b| && i' < |b| && b[i] == b[i'] == ss && q[i] < q[i']
    ensures Leq(b, i, i')
  {
    hide Leq;
    var r, r' := IndexOf(f[..|b|], |b|, i), IndexOf(f[..|b|], |b|, i');
    assert f[r] == i && f[r'] == i';
    BigByByte(b, f, ss, r);
    BigByByte(b, f, ss, r');
    if r' <= r {
      HalvedLess(Place(b, ss, r'), Place(b, ss, r), shifts);
      assert false;
    }
    assert SmallSorted(b, f, rk, ss, Key(b, i) % 256);
    SortedAcross(b, f, rk, r, r');
  }

  lemma UpdateStep(q: seq<int>, q0: seq<int>, b: seq<Byte>, f: seq<int>, ss: nat, shifts: nat, j: nat)
    requires Updating(q, q0, b, f, ss, shifts, j + 1) && ss < 256 && BigLo(b, ss) + j < BigHi(b, ss) <= |b|
    ensures var a := f[BigLo(b, ss) + j]; var v := Halved(j, shifts);
            && 0 <= a < |b|
            && Updating(if a < N_OVERSHOOT then q[a := v][a + |b| := v] else q[a := v], q0, b, f, ss, shifts, j)
  {
    hide Start, Halved, Key;
    var r := BigLo(b, ss) + j;
    BigByByte(b, f, ss, r);
  }

  /** Step 3: the places within the finished big bucket become quadrants, if need be shifted to fit 16 bits. */
  method UpdateQuadrants(ptr: array<int>, quadrant: array<int>, ftab: array<int>, nblock: nat, ss: nat,
                         ghost b: seq<Byte>, ghost rk: seq<int>)
    requires ptr != quadrant && ftab != quadrant && nblock == |b| > N_OVERSHOOT && ss < 256
    requires QuadrantsOk(quadrant[..], b) && Bucketed(b, ptr[..]) && TableOk(ftab[..], b) && IsRanking(b, rk)
    requires forall x :: 0 <= x < 256 ==> SmallSorted(b, ptr[..], rk, ss, x)
    modifies quadrant
    ensures QuadrantsOk(quadrant[..], b)
  {
    hide Bucketed, TableOk, IsRanking, SmallSorted, IsSet, Start, Updating, QuadrantsOk, Leq;
    ghost var q0, f := quadrant[..], ptr[..];
    TableAt(ftab[..], b, ss * 256);
    TableAt(ftab[..], b, ss * 256 + 256);
    BigNames(b, ss);
    Layout(b, ss, ss);
    var bbStart := Cleared(ftab[ss * 256]);
    var bbSize := Cleared(ftab[ss * 256 + 256]) - bbStart;
    var shifts := 0;
    while Halved(bbSize, shifts) > 65534
      decreases Halved(bbSize, shifts)
    {
      shifts := shifts + 1;
    }
    UpdateStart(q0, b, f, ss, shifts);
    var j := bbSize - 1;
    while j >= 0
      invariant -1 <= j < bbSize && Updating(quadrant[..], q0, b, f, ss, shifts, j + 1)
    {
      UpdateRoom(quadrant[..], q0, b, f, ss, shifts, j + 1);
      UpdateStep(quadrant[..], q0, b, f, ss, shifts, j);
      var a2update := ptr[bbStart + j];
      var qVal := Halved(j, shifts);
      HalvedLess(j, bbSize, shifts);
      assert qVal < 65536;
      Store(quadrant, a2update, qVal);
      if a2update < N_OVERSHOOT {
        Store(quadrant, a2update + nblock, qVal);
      }
      j := j - 1;
    }
    if bbSize > 0 {
      HalvedLess(bbSize - 1, bbSize, shifts);
      assert Halved(bbSize - 1, shifts) <= 65535;
    }
    UpdateEnds(quadrant[..], q0, b, f, rk, ss, shifts);
  }

  lemma UpdateRoom(q: seq<int>, q0: seq<int>, b: seq<Byte>, f: seq<int>, ss: nat, shifts: nat, j: int)
    requires Updating(q, q0, b, f, ss, shifts, j)
    ensures |b| <= |f| && |b| + N_OVERSHOOT <= |q|
  {
  }

  lemma UpdateStart(q: seq<int>, b: seq<Byte>, f: seq<int>, ss: nat, shifts: nat)
    requires QuadrantsOk(q, b) && Bucketed(b, f) && N_OVERSHOOT < |b| && BigLo(b, ss) <= BigHi(b, ss)
    ensures Updating(q, q, b, f, ss, shifts, BigHi(b, ss) - BigLo(b, ss))
  {
  }

  // ----- The order of the big buckets.

  /** The sizes of the big buckets. */
  ghost function BigSizes(b: seq<Byte>): (s: seq<int>)
    ensures |s| == 256
  {
    seq(256, c => if c >= 0 then BigHi(b, c) - BigLo(b, c) else 0)
  }

  /** BIGFREQ */
  method BigFreq(ftab: array<int>, c: int, ghost b: seq<Byte>) returns (n: int)
    requires TableOk(ftab[..], b) && 0 <= c < 256 && forall k :: 0 <= k <= KEYS ==> ftab[k] == Start(b, k)
    ensures n == BigSizes(b)[c]
  {
    n := ftab[(c + 1) * 256] - ftab[c * 256];
  }

  /** Inserts runningOrder[i] among the entries h, 2 * h, ... places before it. */
  method InsertBig(ro: array<int>, ftab: array<int>, i: nat, h: nat, ghost b: seq<Byte>)
    requires ro != ftab && ro.Length == 256 && 0 < h <= i < 256 && IsPerm(ro[..], 256)
    requires TableOk(ftab[..], b) && forall k :: 0 <= k <= KEYS ==> ftab[k] == Start(b, k)
    requires Keyed(ro[..], BigSizes(b), 0, 256) && (h == 1 ==> KeySorted(ro[..], BigSizes(b), 0, i))
    modifies ro
    ensures Rearranged(ro[..], old(ro[..]), 0, 256)
    ensures Keyed(ro[..], BigSizes(b), 0, 256) && (h == 1 ==> KeySorted(ro[..], BigSizes(b), 0, i + 1))
  {
    hide TableOk, HoleSortedDown, KeySorted, Start, BigSizes, IsPerm;
    ghost var f0, sizes, ordered := ro[..], BigSizes(b), h == 1;
    LowerStart(f0, sizes, 0, i, 255, ordered);
    var vv := ro[i];
    var size := BigFreq(ftab, vv, b);
    var j: nat := i;
    while true
      invariant Lowering(ro[..], f0, sizes, 0, j, i, 255, vv, ordered) && h <= j
      decreases j
    {
      ghost var f := ro[..];
      var size' := BigFreq(ftab, ro[j - h], b);
      if !(size' > size) { break; }
      Store(ro, j, ro[j - h]);
      LowerMove(f, ro[..], f0, sizes, 0, j, j - h, i, 255, vv, ordered);
      j := j - h;
      if j <= h - 1 { break; }
    }
    ghost var f := ro[..];
    Store(ro, j, vv);
    LowerEnd(f, ro[..], f0, sizes, 0, j, i, 255, vv, ordered);
  }

  /** All big buckets, smallest first. */
  method RunningOrder(ftab: array<int>, ghost b: seq<Byte>) returns (ro: array<int>)
    requires TableOk(ftab[..], b) && forall k :: 0 <= k <= KEYS ==> ftab[k] == Start(b, k)
    ensures fresh(ro) && ro.Length == 256 && IsPerm(ro[..], 256)
    ensures Keyed(ro[..], BigSizes(b), 0, 256) && KeySorted(ro[..], BigSizes(b), 0, 256)
  {
    hide TableOk, KeySorted, Start, BigSizes;
    ro := new int[256];
    var i := 0;
    while i <= 255
      invariant 0 <= i <= 256 && forall c :: 0 <= c < i ==> ro[c] == c
    {
      ro[i] := i;
      i := i + 1;
    }
    var h := 1;
    while true
      invariant h == 1 || h == 4 || h == 13 || h == 40 || h == 121
      decreases 256 - h
    {
      h := 3 * h + 1;
      if !(h <= 256) { break; }
    }
    while true
      invariant h == 364 || h == 121 || h == 40 || h == 13 || h == 4
      invariant IsPerm(ro[..], 256) && Keyed(ro[..], BigSizes(b), 0, 256)
      decreases h
    {
      h := h / 3;
      i := h;
      if h == 1 {
        SortedShort(ro[..], BigSizes(b), 0, 1);
      }
      while i <= 255
        invariant h <= i <= 256
        invariant IsPerm(ro[..], 256) && Keyed(ro[..], BigSizes(b), 0, 256)
        invariant h == 1 ==> KeySorted(ro[..], BigSizes(b), 0, i)
      {
        ghost var f := ro[..];
        InsertBig(ro, ftab, i, h, b);
        RearrangedPerm(ro[..], f, 0, 256);
        i := i + 1;
      }
      if h == 1 { break; }
    }
  }

  // ----- The main loop.

  /** What holds whenever a big bucket has been finished. */
  ghost predicate MainState(b: seq<Byte>, rk: seq<int>, f: seq<int>, ft: seq<int>, q: seq<int>, done: seq<bool>) {
    && IsRanking(b, rk) && Bucketed(b, f) && TableOk(ft, b)
    && MarkedSorted(ft, b, f, rk) && DoneMarked(ft, done) && QuadrantsOk(q, b)
  }

  lemma MarkedSmall(ft: seq<int>, b: seq<Byte>, f: seq<int>, rk: seq<int>, c: nat, x: nat)
    requires MarkedSorted(ft, b, f, rk) && Marked(ft, c, x)
    ensures SmallSorted(b, f, rk, c, x)
  {
  }

  lemma DoneSmall(ft: seq<int>, b: seq<Byte>, f: seq<int>, rk: seq<int>, done: seq<bool>, c: nat)
    requires MarkedSorted(ft, b, f, rk) && DoneMarked(ft, done) && c < 256 && done[c]
    ensures forall x :: 0 <= x < 256 ==> SmallSorted(b, f, rk, c, x)
  {
    forall x | 0 <= x < 256
      ensures SmallSorted(b, f, rk, c, x)
    {
      assert (c * 256 + x) / 256 == c;
    }
  }

  /** One big bucket, in three steps; the quadrants of the last one are not needed any more. */
  method FinishBigBucket(ptr: array<int>, block: array<int>, quadrant: array<int>, ftab: array<int>, bigDone: array<bool>, nblock: nat,
                         ss: nat, last: bool, budget0: int, ghost b: seq<Byte>, ghost rk: seq<int>)
    returns (budget: int)
    requires ptr != block && ptr != quadrant && ptr != ftab && ftab != block && ftab != quadrant && block != quadrant
    requires nblock == |b| <= block.Length && block[..nblock] == b && Extended(block[..], b)
    requires ss < 256 == bigDone.Length && !bigDone[ss]
    requires MainState(b, rk, ptr[..], ftab[..], quadrant[..], bigDone[..])
    modifies ptr, ftab, quadrant, bigDone
    ensures budget <= budget0
    ensures budget >= 0 ==> && MainState(b, rk, ptr[..], ftab[..], quadrant[..], bigDone[..])
                            && bigDone[..] == old(bigDone[..])[ss := true]
  {
    hide IsRanking, Bucketed, TableOk, MarkedSorted, DoneMarked, QuadrantsOk, SmallSorted, Marked, ScanResult;
    ghost var done := bigDone[..];
    assert Comparable(block[..], quadrant[..], b, rk);
    budget := SortSmallBuckets(ptr, block, quadrant, ftab, nblock, ss, budget0, b, rk, done);
    if budget < 0 { return; }
    assert !bigDone[ss];  // assertion 1006
    ghost var f0 := ptr[..];
    forall x | 0 <= x < 256 && x != ss
      ensures SmallSorted(b, f0, rk, ss, x)
    {
      MarkedSmall(ftab[..], b, f0, rk, ss, x);
    }
    ScanBigBucket(ptr, block, ftab, bigDone, nblock, ss, b, rk);
    MarkedAfterScan(b, rk, ss, done, f0, ptr[..], ftab[..]);
    ResultBucketed(b, rk, ss, done, f0, ptr[..]);
    MarkSmallBuckets(ftab, ss, b, ptr[..], rk, done);
    bigDone[ss] := true;
    assert bigDone[..] == done[ss := true];
    DoneSmall(ftab[..], b, ptr[..], rk, bigDone[..], ss);
    if !last {
      UpdateQuadrants(ptr, quadrant, ftab, nblock, ss, b, rk);
    }
  }

  lemma ResultBucketed(b: seq<Byte>, rk: seq<int>, ss: nat, done: seq<bool>, f0: seq<int>, f: seq<int>)
    requires ScanResult(b, rk, ss, done, f0, f)
    ensures Bucketed(b, f)
  {
  }

  /** When every big bucket is finished, all rotations are in order. */
  lemma AllDone(b: seq<Byte>, rk: seq<int>, f: seq<int>, ft: seq<int>, q: seq<int>, done: seq<bool>)
    requires MainState(b, rk, f, ft, q, done) && forall c :: 0 <= c < 256 ==> done[c]
    ensures |b| <= |f| && WeaklySorted(b, f[..|b|])
  {
    hide IsRanking, QuadrantsOk, BucketSorted, Start;
    forall r | 0 <= r < |b|
      ensures BucketSorted(b, f, rk, Key(b, f[r]))
    {
      assert IsSet(ft[Key(b, f[r])]);
    }
    StretchAscends(b, f, rk, 0, |b|);
    SortedAscending(b, rk, f[..|b|]);
  }

  lemma SortedAscending(b: seq<Byte>, rk: seq<int>, p: seq<int>)
    requires IsRanking(b, rk) && Ascending(rk, p) && |p| == |b|
    ensures WeaklySorted(b, p)
  {
    SortedByRank(b, rk, p);
  }

  /** The tables at the beginning: nothing is marked, nothing is done, all quadrants are 0. */
  method SetUp(ptr: array<int>, block: array<int>, quadrant: array<int>, ftab: array<int>, nblock: nat,
               ghost b: seq<Byte>, ghost rk: seq<int>)
    requires ptr != block && ptr != quadrant && ptr != ftab && ftab != block && ftab != quadrant && block != quadrant
    requires N_OVERSHOOT < nblock == |b| <= MAX_BLOCK && nblock <= ptr.Length && ftab.Length == KEYS + 1
    requires nblock + N_OVERSHOOT <= block.Length && nblock + N_OVERSHOOT <= quadrant.Length
    requires block[..nblock] == b && IsRanking(b, rk)
    modifies ptr, block, quadrant, ftab
    ensures block[..nblock] == b && Extended(block[..], b)
    ensures forall k :: 0 <= k <= KEYS ==> ftab[k] == Start(b, k)
    ensures MainState(b, rk, ptr[..], ftab[..], quadrant[..], seq(256, i => false))
  {
    hide IsRanking, Bucketed, Extended;
    CountKeys(block, quadrant, ftab, nblock, b);
    Overshoot(block, quadrant, nblock, b);
    SumUp(ftab, b);
    PlaceByKey(ptr, block, ftab, nblock, b);
    forall k | 0 <= k < KEYS
      ensures !IsSet(ftab[k])
    {
      StartMono(b, k, KEYS);
      StartEnds(b);
    }
  }

  /** Sorts the rotations of the block, unless the budget runs out: a negative result says that the sort was given up. */
  method MainSort(ptr: array<int>, block: array<int>, quadrant: array<int>, ftab: array<int>, nblock: nat, budget0: int, ghost b: seq<Byte>)
    returns (budget: int)
    requires ptr != block && ptr != quadrant && ptr != ftab && ftab != block && ftab != quadrant && block != quadrant
    requires N_OVERSHOOT < nblock == |b| <= MAX_BLOCK && nblock <= ptr.Length && ftab.Length == KEYS + 1
    requires nblock + N_OVERSHOOT <= block.Length && nblock + N_OVERSHOOT <= quadrant.Length && block[..nblock] == b
    modifies ptr, block, quadrant, ftab
    ensures block[..nblock] == b && budget <= budget0
    ensures budget >= 0 ==> WeaklySorted(b, ptr[..nblock])
  {
    hide MainState, Extended, WeaklySorted, TableOk, BigSizes, KeySorted, Start;
    ghost var rk := RanksOf(b);
    budget := budget0;
    SetUp(ptr, block, quadrant, ftab, nblock, b, rk);
    var bigDone := new bool[256](i => false);
    StateTable(b, rk, ptr[..], ftab[..], quadrant[..], bigDone[..]);
    var runningOrder := RunningOrder(ftab, b);
    ghost var order := runningOrder[..];
    var i := 0;
    while i <= 255
      invariant 0 <= i <= 256 && budget <= budget0 && runningOrder[..] == order
      invariant block[..nblock] == b && Extended(block[..], b)
      invariant MainState(b, rk, ptr[..], ftab[..], quadrant[..], bigDone[..])
      invariant forall c :: 0 <= c < 256 ==> (bigDone[c] <==> c in order[..i])
    {
      var ss := runningOrder[i];
      OrderNext(order, i);
      budget := FinishBigBucket(ptr, block, quadrant, ftab, bigDone, nblock, ss, i == 255, budget, b, rk);
      if budget < 0 { return; }
      i := i + 1;
    }
    forall c | 0 <= c < 256
      ensures bigDone[c]
    {
      PermSurjective(order, 256, c);
      assert order[..256] == order;
    }
    AllDone(b, rk, ptr[..], ftab[..], quadrant[..], bigDone[..]);
  }

  lemma StateTable(b: seq<Byte>, rk: seq<int>, f: seq<int>, ft: seq<int>, q: seq<int>, done: seq<bool>)
    requires MainState(b, rk, f, ft, q, seq(256, i => false)) && |done| == 256 && forall c :: 0 <= c < 256 ==> !done[c]
    ensures MainState(b, rk, f, ft, q, done) && TableOk(ft, b)
  {
    assert done == seq(256, i => false);
  }

  /** The next big bucket has not had its turn. */
  lemma OrderNext(order: seq<int>, i: nat)
    requires IsPerm(order, 256) && i < 256
    ensures 0 <= order[i] < 256 && order[i] !in order[..i]
    ensures forall c :: c in order[..i + 1] <==> c in order[..i] || c == order[i]
  {
    assert order[..i + 1] == order[..i] + [order[i]];
  }
}
