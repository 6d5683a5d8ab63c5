/** The quicksort of the main sort: three-way radix quicksort over the bytes at increasing depth, with an explicit stack.

    All rotations of a stacked chunk agree on their first `d` bytes.  A chunk is partitioned by the byte at depth `d`;
    its middle part agrees on one byte more.  The largest part is stacked first, so that the stack stays small.
 */
module MainQSort {
  import opened Cuts
  import opened FallbackQSort
  import opened MainCompare
  import opened MainShellSort
  import opened Permutations
  import opened Ranks
  import opened Rotations
  import opened ThreeWay

  const MAIN_SMALL_THRESH := 20
  const MAIN_DEPTH_THRESH := 14
  const MAIN_STACK_SIZE := 100

  /** A stretch whose rotations agree on their first `d` bytes. */
  datatype Chunk = Chunk(s: Stretch, d: nat)

  ghost function Plain(st: seq<Chunk>): seq<Stretch> {
    seq(|st|, e requires 0 <= e < |st| => st[e].s)
  }

  ghost predicate ChunkAgrees(b: seq<Byte>, f: seq<int>, c: Chunk) {
    AllAgree(b, f, c.s.lo, c.s.hi, c.d) && c.d <= 15
  }

  /** `parts` is what remains to be sorted in [lo, hi]. */
  ghost predicate PartsOk(b: seq<Byte>, f: seq<int>, rk: seq<int>, lo: int, hi: int, parts: seq<Chunk>) {
    Pending(f, rk, lo, hi, Plain(parts)) && forall e :: 0 <= e < |parts| ==> ChunkAgrees(b, f, parts[e])
  }

  // ----- One level deeper.

  lemma ByteAt(blk: seq<int>, ec: seq<int>, b: seq<Byte>, x: nat, d: nat)
    requires Extended(blk, b) && d <= 15 && ec == blk[d..] && x < |b|
    ensures x < |ec| && ec[x] == b[Shift(|b|, x, d)]
  {
    ShiftWrap(|b|, x, d);
    assert ec[x] == blk[x + d];
    if x + d >= |b| {
      assert blk[|b| + (x + d - |b|)] == b[x + d - |b|];
    }
  }

  /** The bytes at depth `d` order the rotations, or show that they agree on one byte more. */
  lemma DeeperByte(blk: seq<int>, ec: seq<int>, b: seq<Byte>, rk: seq<int>, x: nat, y: nat, d: nat)
    requires Extended(blk, b) && IsRanking(b, rk) && d <= 15 && ec == blk[d..] && Agree(b, x, y, d)
    ensures x < |ec| && y < |ec|
    ensures ec[x] < ec[y] ==> rk[x] <= rk[y]
    ensures ec[x] == ec[y] ==> Agree(b, x, y, d + 1)
  {
    ByteAt(blk, ec, b, x, d);
    ByteAt(blk, ec, b, y, d);
    CmpOne(b, x, y, d);
    if ec[x] < ec[y] {
      Decided(b, x, y, d + 1);
      assert Leq(b, x, y);
    }
  }

  /** Partitioning by the byte at depth `d` cuts by rank, and the middle part agrees one byte further. */
  lemma Partitioned(blk: seq<int>, ec: seq<int>, b: seq<Byte>, rk: seq<int>, f: seq<int>, med: int, lo: int, hi: int,
                    n: int, m: int, d: nat)
    requires Extended(blk, b) && IsRanking(b, rk) && d <= 15 && ec == blk[d..]
    requires AllAgree(b, f, lo, hi, d) && ThreeWays(f, ec, med, lo, hi, n, m) && Keyed(f, rk, lo, hi + 1)
    ensures AllAgree(b, f, lo, n, d) && AllAgree(b, f, m, hi, d) && AllAgree(b, f, n + 1, m - 1, d + 1)
    ensures CutAt(f, rk, lo, hi, n + 1) && CutAt(f, rk, lo, hi, m)
  {
    hide Extended, IsRanking, Agree;
    forall a, c | lo <= a <= hi && lo <= c <= hi
      ensures a <= n < c || a < m <= c ==> rk[f[a]] <= rk[f[c]]
      ensures n < a < m && n < c < m ==> Agree(b, f[a], f[c], d + 1)
    {
      assert Agree(b, f[a], f[c], d);
      AgreeIndices(b, f[a], f[c], d);
      DeeperByte(blk, ec, b, rk, f[a], f[c], d);
    }
  }

  lemma AgreeIndices(b: seq<Byte>, x: int, y: int, d: nat)
    requires Agree(b, x, y, d)
    ensures 0 <= x < |b| && 0 <= y < |b|
  {
  }

  /** All bytes at depth `d` are equal: the whole chunk agrees one byte further. */
  lemma AllDeeper(blk: seq<int>, ec: seq<int>, b: seq<Byte>, rk: seq<int>, f: seq<int>, med: int, lo: int, hi: int,
                  ltLo: int, unLo: int, unHi: int, gtHi: int, d: nat)
    requires Extended(blk, b) && IsRanking(b, rk) && d <= 15 && ec == blk[d..] && AllAgree(b, f, lo, hi, d)
    requires Scanning(f, ec, med, lo, hi, ltLo, unLo, unHi, gtHi) && unHi == unLo - 1 && gtHi < ltLo
    ensures AllAgree(b, f, lo, hi, d + 1)
  {
    hide Extended, IsRanking, Agree;
    forall a, c | lo <= a <= hi && lo <= c <= hi
      ensures Agree(b, f[a], f[c], d + 1)
    {
      assert Agree(b, f[a], f[c], d);
      AgreeIndices(b, f[a], f[c], d);
      DeeperByte(blk, ec, b, rk, f[a], f[c], d);
    }
  }

  // ----- The three parts in order of size.

  lemma OuterCuts(f: seq<int>, rk: seq<int>, lo: int, hi: int)
    requires Keyed(f, rk, lo, hi + 1)
    ensures CutAt(f, rk, lo, hi, lo) && CutAt(f, rk, lo, hi, hi + 1)
  {
  }

  lemma PendingThree(f: seq<int>, rk: seq<int>, lo: int, hi: int, n: int, m: int)
    requires Keyed(f, rk, lo, hi + 1) && lo <= n + 1 <= m <= hi + 1
    requires CutAt(f, rk, lo, hi, n + 1) && CutAt(f, rk, lo, hi, m)
    ensures Pending(f, rk, lo, hi, [Stretch(lo, n), Stretch(m, hi), Stretch(n + 1, m - 1)])
  {
    hide CutAt;
    OuterCuts(f, rk, lo, hi);
    var p := [Stretch(lo, n), Stretch(m, hi), Stretch(n + 1, m - 1)];
    forall k | lo < k <= hi
      ensures StrictlyInside(p, k) || CutAt(f, rk, lo, hi, k)
    {
      if k != n + 1 && k != m {
        var e := if k <= n then 0 else if k > m then 1 else 2;
        assert p[e].lo < k <= p[e].hi;
      }
    }
  }

  /** `parts` with entries `i` and `i + 1` exchanged. */
  function Exchanged(parts: seq<Chunk>, i: nat): seq<Chunk>
    requires i + 1 < |parts|
  {
    parts[i := parts[i + 1]][i + 1 := parts[i]]
  }

  lemma ExchangedOk(b: seq<Byte>, f: seq<int>, rk: seq<int>, lo: int, hi: int, parts: seq<Chunk>, i: nat)
    requires PartsOk(b, f, rk, lo, hi, parts) && i + 1 < |parts|
    ensures PartsOk(b, f, rk, lo, hi, Exchanged(parts, i))
  {
    hide CutAt, ChunkAgrees, Keyed;
    var p, q := Plain(parts), Plain(Exchanged(parts, i));
    assert forall e :: 0 <= e < |p| ==> q[e] == p[if e == i then i + 1 else if e == i + 1 then i else e];
    forall k | lo < k <= hi && StrictlyInside(p, k)
      ensures StrictlyInside(q, k)
    {
      var e :| 0 <= e < |p| && p[e].lo < k <= p[e].hi;
      var e' := if e == i then i + 1 else if e == i + 1 then i else e;
      assert q[e'] == p[e];
    }
    forall e, e' | 0 <= e < e' < |q|
      ensures Apart(q[e], q[e'])
    {
      var g := if e == i then i + 1 else if e == i + 1 then i else e;
      var g' := if e' == i then i + 1 else if e' == i + 1 then i else e';
      assert q[e] == p[g] && q[e'] == p[g'] && g != g';
      assert if g < g' then Apart(p[g], p[g']) else Apart(p[g'], p[g]);
    }
  }

  // ----- Stack depth and termination.

  /** Strictly decreases with every turn: deeper chunks count less. */
  ghost function Effort(c: Chunk): (r: nat)
    ensures r > 0
  {
    4 * Size(c.s) * (if c.d <= 16 then 16 - c.d else 0) + 1
  }

  ghost function Work(st: seq<Chunk>): nat {
    if st == [] then 0 else Work(st[..|st| - 1]) + Effort(st[|st| - 1])
  }

  /** The number of entries in the chunks from stack position `e` up. */
  ghost function Load(st: seq<Chunk>, e: nat): nat
    decreases |st| - e
  {
    if e >= |st| then 0 else Size(st[e].s) + Load(st, e + 1)
  }

  /** Two thirds of `total`, taken `e` times, rounding down. */
  function Thirds(total: nat, e: nat): nat {
    if e == 0 then total else Thirds(total, e - 1) * 2 / 3
  }

  /** Of every chunk's parts the largest lies lowest, so that above it at most two thirds are stacked. */
  ghost predicate LoadFits(st: seq<Chunk>, total: nat) {
    forall e :: 0 <= e < |st| ==> Load(st, e) <= Thirds(total, e)
  }

  lemma {:induction false} ThirdsShrink(total: nat, e: nat)
    ensures Thirds(total, e) <= total
  {
    if e > 0 {
      ThirdsShrink(total, e - 1);
    }
  }

  lemma ThirdsThrice(total: nat, e: nat, x: nat)
    requires Thirds(total, e) <= x
    ensures Thirds(total, e + 3) <= x * 8 / 27
  {
    assert Thirds(total, e + 1) <= x * 2 / 3;
    assert Thirds(total, e + 2) == Thirds(total, e + 1) * 2 / 3;
    assert Thirds(total, e + 3) == Thirds(total, e + 2) * 2 / 3;
  }

  /** A chunk long enough to be partitioned sits low in the stack. */
  lemma ThirdsBound(total: nat, e: nat)
    requires total <= MAX_BLOCK && Thirds(total, e) > MAIN_SMALL_THRESH
    ensures e <= 26
  {
    if e > 26 {
      var k := e - 27;
      ThirdsShrink(total, k);
      ThirdsThrice(total, k, 900000);
      ThirdsThrice(total, k + 3, 266666);
      ThirdsThrice(total, k + 6, 79012);
      ThirdsThrice(total, k + 9, 23410);
      ThirdsThrice(total, k + 12, 6936);
      ThirdsThrice(total, k + 15, 2055);
      ThirdsThrice(total, k + 18, 608);
      ThirdsThrice(total, k + 21, 180);
      ThirdsThrice(total, k + 24, 53);
    }
  }

  lemma {:induction false} LoadSame(st: seq<Chunk>, parts: seq<Chunk>, e: nat)
    requires e <= |st|
    ensures Load(st + parts, e) == Load(st, e) + Load(st + parts, |st|)
    decreases |st| - e
  {
    if e < |st| {
      LoadSame(st, parts, e + 1);
    }
  }

  /** What one turn leaves to do: nothing, the chunk one level deeper, or three parts in order of size. */
  ghost predicate TurnSizes(top: Chunk, parts: seq<Chunk>) {
    || parts == []
    || (Size(top.s) > MAIN_SMALL_THRESH
        && ((|parts| == 1 && Size(parts[0].s) == Size(top.s) && Effort(parts[0]) < Effort(top))
            || (|parts| == 3 && Size(parts[0].s) >= Size(parts[1].s) >= Size(parts[2].s)
                && Size(parts[0].s) + Size(parts[1].s) + Size(parts[2].s) == Size(top.s)
                && Effort(parts[0]) + Effort(parts[1]) + Effort(parts[2]) < Effort(top))))
  }

  lemma WorkPush(st: seq<Chunk>, c: Chunk)
    ensures Work(st + [c]) == Work(st) + Effort(c)
  {
    assert (st + [c])[..|st|] == st;
  }

  lemma WorkStep(st: seq<Chunk>, top: Chunk, parts: seq<Chunk>)
    requires TurnSizes(top, parts)
    ensures Work(st + parts) < Work(st + [top])
  {
    hide Effort, Size;
    WorkPush(st, top);
    if parts == [] {
      assert st + parts == st;
    } else if |parts| == 1 {
      assert parts == [parts[0]];
      WorkPush(st, parts[0]);
    } else {
      WorkPush(st, parts[0]);
      WorkPush(st + [parts[0]], parts[1]);
      WorkPush(st + [parts[0]] + [parts[1]], parts[2]);
      assert st + parts == st + [parts[0]] + [parts[1]] + [parts[2]];
    }
  }

  lemma LoadTop(st: seq<Chunk>, parts: seq<Chunk>)
    requires |parts| <= 3
    ensures var s := st + parts;
            && (|parts| >= 1 ==> Load(s, |st|) == Size(parts[0].s) + Load(s, |st| + 1))
            && (|parts| >= 2 ==> Load(s, |st| + 1) == Size(parts[1].s) + Load(s, |st| + 2))
            && (|parts| >= 3 ==> Load(s, |st| + 2) == Size(parts[2].s) + Load(s, |st| + 3))
            && Load(s, |st| + |parts|) == 0
  {
  }

  lemma StackStepDeep(st: seq<Chunk>, top: Chunk, parts: seq<Chunk>, total: nat)
    requires LoadFits(st + [top], total) && total <= MAX_BLOCK && TurnSizes(top, parts)
    ensures LoadFits(st + parts, total)
    ensures parts != [] ==> |st| <= 26
  {
    hide Size, Effort;
    var s, t := st + parts, st + [top];
    LoadTop(st, parts);
    LoadTop(st, [top]);
    assert Load(t, |st|) <= Thirds(total, |st|);
    if parts != [] {
      ThirdsBound(total, |st|);
    }
    forall e | 0 <= e < |s|
      ensures Load(s, e) <= Thirds(total, e)
    {
      if e <= |st| {
        LoadSame(st, parts, e);
        LoadSame(st, [top], e);
        assert Load(t, e) <= Thirds(total, e);
      }
    }
  }

  // ----- The sort.

  /** The middle one of three bytes. */
  method MedianOfThree(a0: int, b0: int, c0: int) returns (m: int)
    ensures m == a0 || m == b0 || m == c0
    ensures (a0 <= m && b0 <= m) || (a0 <= m && c0 <= m) || (b0 <= m && c0 <= m)
    ensures (a0 >= m && b0 >= m) || (a0 >= m && c0 >= m) || (b0 >= m && c0 >= m)
  {
    var a, b, c := a0, b0, c0;
    if a > b { a, b := b, a; }
    if b > c {
      b := c;
      if a > b { b := a; }
    }
    m := b;
  }

  /** Orders the three parts by size, largest first. */
  method BySize(next0: seq<Chunk>, ghost top: Chunk, ghost b: seq<Byte>, ghost f: seq<int>, ghost rk: seq<int>) returns (next: seq<Chunk>)
    requires |next0| == 3 && PartsOk(b, f, rk, top.s.lo, top.s.hi, next0)
    requires Size(next0[0].s) + Size(next0[1].s) + Size(next0[2].s) == Size(top.s) > MAIN_SMALL_THRESH
    requires Effort(next0[0]) + Effort(next0[1]) + Effort(next0[2]) < Effort(top)
    ensures PartsOk(b, f, rk, top.s.lo, top.s.hi, next) && TurnSizes(top, next) && |next| == 3
  {
    hide Effort, PartsOk;
    next := next0;
    if NextSize(next[0]) < NextSize(next[1]) {
      ExchangedOk(b, f, rk, top.s.lo, top.s.hi, next, 0);
      next := Exchanged(next, 0);
    }
    if NextSize(next[1]) < NextSize(next[2]) {
      ExchangedOk(b, f, rk, top.s.lo, top.s.hi, next, 1);
      next := Exchanged(next, 1);
    }
    if NextSize(next[0]) < NextSize(next[1]) {
      ExchangedOk(b, f, rk, top.s.lo, top.s.hi, next, 0);
      next := Exchanged(next, 0);
    }
  }

  function NextSize(c: Chunk): int {
    c.s.hi - c.s.lo
  }

  lemma KeyedByBytes(b: seq<Byte>, f: seq<int>, ec: seq<int>, lo: int, hi: int, d: nat)
    requires AllAgree(b, f, lo, hi, d) && lo <= hi + 1 && |b| <= |ec|
    ensures Keyed(f, ec, lo, hi + 1)
  {
    hide Cmp;
    forall i | lo <= i <= hi
      ensures 0 <= f[i] < |ec|
    {
      assert Agree(b, f[i], f[i], d);
    }
  }

  /** The pivot is the middle one of the first, the last and the middle entry's bytes. */
  method PickPivot(ptr: array<int>, block: array<int>, lo: int, hi: int, d: nat, ghost ec: seq<int>) returns (med: int, ghost at: int)
    requires 0 <= lo <= hi < ptr.Length && d <= block.Length && ec == block[d..] && Keyed(ptr[..], ec, lo, hi + 1)
    ensures lo <= at <= hi && med == ec[ptr[at]]
  {
    var mid := (lo + hi) / 2;
    med := MedianOfThree(block[ptr[lo] + d], block[ptr[hi] + d], block[ptr[mid] + d]);
    at := if med == block[ptr[lo] + d] then lo else if med == block[ptr[hi] + d] then hi else mid;
  }

  /** The three parts after the partition, not yet in order of size. */
  function ThreeParts(lo: int, hi: int, n: int, m: int, d: nat): seq<Chunk> {
    [Chunk(Stretch(lo, n), d), Chunk(Stretch(m, hi), d), Chunk(Stretch(n + 1, m - 1), d + 1)]
  }

  lemma ThreePartsOk(blk: seq<int>, ec: seq<int>, b: seq<Byte>, rk: seq<int>, f: seq<int>, med: int, lo: int,
                     hi: int, n: int, m: int, d: nat)
    requires Extended(blk, b) && IsRanking(b, rk) && d <= 14 && ec == blk[d..]
    requires AllAgree(b, f, lo, hi, d) && ThreeWays(f, ec, med, lo, hi, n, m) && Keyed(f, rk, lo, hi + 1) && n + 1 < m
    ensures PartsOk(b, f, rk, lo, hi, ThreeParts(lo, hi, n, m, d))
    ensures var p, top := ThreeParts(lo, hi, n, m, d), Chunk(Stretch(lo, hi), d);
            && Size(p[0].s) + Size(p[1].s) + Size(p[2].s) == Size(top.s)
            && Effort(p[0]) + Effort(p[1]) + Effort(p[2]) < Effort(top)
  {
    hide Extended, IsRanking, Pending, AllAgree;
    Partitioned(blk, ec, b, rk, f, med, lo, hi, n, m, d);
    PendingThree(f, rk, lo, hi, n, m);
    var p := ThreeParts(lo, hi, n, m, d);
    assert Plain(p) == [Stretch(lo, n), Stretch(m, hi), Stretch(n + 1, m - 1)];
    EffortSplit(n - lo + 1, hi - m + 1, m - n - 1, d);
  }

  lemma EffortSplit(x: nat, y: nat, z: nat, d: nat)
    requires d <= 14 && z > 0
    ensures 4 * x * (16 - d) + 1 + (4 * y * (16 - d) + 1) + (4 * z * (16 - (d + 1)) + 1) < 4 * (x + y + z) * (16 - d) + 1
  {
    assert 4 * z * (16 - (d + 1)) == 4 * z * (16 - d) - 4 * z;
  }

  lemma DeeperEffort(s: Stretch, d: nat)
    requires Size(s) > 0 && d <= 14
    ensures Effort(Chunk(s, d + 1)) < Effort(Chunk(s, d))
  {
    assert 4 * Size(s) * (16 - (d + 1)) == 4 * Size(s) * (16 - d) - 4 * Size(s);
  }

  /** Partitions a chunk by the byte at its depth. */
  method Split(ptr: array<int>, block: array<int>, nblock: nat, lo: int, hi: int, d: nat, ghost b: seq<Byte>,
               ghost rk: seq<int>, ghost q: seq<int>)
    returns (parts: seq<Chunk>)
    requires ptr != block && nblock == |b| && Comparable(block[..], q, b, rk)
    requires 0 <= lo <= hi + 1 <= ptr.Length && hi - lo >= MAIN_SMALL_THRESH && d <= MAIN_DEPTH_THRESH
    requires AllAgree(b, ptr[..], lo, hi, d) && Keyed(ptr[..], rk, lo, hi + 1)
    modifies ptr
    ensures Rearranged(ptr[..], old(ptr[..]), lo, hi + 1)
    ensures PartsOk(b, ptr[..], rk, lo, hi, parts) && TurnSizes(Chunk(Stretch(lo, hi), d), parts)
  {
    hide Effort, AllAgree, QuadrantsOk, IsRanking, PartsOk, Scanning, ThreeWays;
    ghost var ec, g := block[d..], ptr[..];
    KeyedByBytes(b, g, ec, lo, hi, d);
    var med, at := PickPivot(ptr, block, lo, hi, d, ec);
    var ltLo, unLo, unHi, gtHi := Partition(ptr, block, d, med, lo, hi, ec);
    ghost var f := ptr[..];
    AgreeKept(b, f, g, lo, hi, d);
    if gtHi < ltLo {
      AllDeeper(block[..], ec, b, rk, f, med, lo, hi, ltLo, unLo, unHi, gtHi, d);
      KeyedRearranged(f, g, rk, lo, hi + 1);
      WholeOk(b, f, rk, lo, hi, d + 1);
      DeeperEffort(Stretch(lo, hi), d);
      return [Chunk(Stretch(lo, hi), d + 1)];
    }
    var n, m := Gather(ptr, med, lo, hi, ltLo, unLo, unHi, gtHi, ec);
    f := ptr[..];
    AgreeKept(b, f, g, lo, hi, d);
    KeyedRearranged(f, g, rk, lo, hi + 1);
    PivotStays(f, g, ec, med, lo, hi, n, m, at);
    ThreePartsOk(block[..], ec, b, rk, f, med, lo, hi, n, m, d);
    parts := BySize(ThreeParts(lo, hi, n, m, d), Chunk(Stretch(lo, hi), d), b, f, rk);
  }

  lemma WholeOk(b: seq<Byte>, f: seq<int>, rk: seq<int>, lo: int, hi: int, d: nat)
    requires AllAgree(b, f, lo, hi, d) && Keyed(f, rk, lo, hi + 1) && d <= 15
    ensures PartsOk(b, f, rk, lo, hi, [Chunk(Stretch(lo, hi), d)])
  {
    PendingAll(f, rk, lo, hi);
    assert Plain([Chunk(Stretch(lo, hi), d)]) == [Stretch(lo, hi)];
  }

  /** One turn: sorts a short or deep chunk, or partitions a long one by the byte at its depth.  Returns what is left
      to sort, the largest part first. */
  method QTurn(ptr: array<int>, block: array<int>, quadrant: array<int>, nblock: nat, top: Chunk, budget0: int,
               ghost b: seq<Byte>, ghost rk: seq<int>)
    returns (done: bool, parts: seq<Chunk>, budget: int)
    requires ptr != block && ptr != quadrant && nblock == |b| && Comparable(block[..], quadrant[..], b, rk)
    requires 0 <= top.s.lo <= top.s.hi + 1 <= ptr.Length && top.s.hi - top.s.lo < MAX_BLOCK
    requires ChunkAgrees(b, ptr[..], top) && Keyed(ptr[..], rk, top.s.lo, top.s.hi + 1)
    modifies ptr
    ensures Rearranged(ptr[..], old(ptr[..]), top.s.lo, top.s.hi + 1)
    ensures budget <= budget0
    ensures if done then PartsOk(b, ptr[..], rk, top.s.lo, top.s.hi, parts) && TurnSizes(top, parts) else budget < 0
  {
    var lo, hi, d := top.s.lo, top.s.hi, top.d;
    parts := [];
    budget := budget0;
    if hi - lo < MAIN_SMALL_THRESH || d > MAIN_DEPTH_THRESH {
      budget := MainSimpleSort(ptr, block, quadrant, nblock, lo, hi, d, budget, b, rk);
      if budget < 0 {
        return false, [], budget;
      }
      SortedAllCuts(ptr[..], rk, lo, hi);
      return true, [], budget;
    }
    parts := Split(ptr, block, nblock, lo, hi, d, b, rk, quadrant[..]);
    done := true;
  }

  /** What the loop keeps: every cut is made or lies inside a stacked chunk, and the chunks agree as they say. */
  ghost predicate SortingDeep(b: seq<Byte>, f: seq<int>, f0: seq<int>, rk: seq<int>, lo: int, hi: int, st: seq<Chunk>) {
    0 <= lo <= hi && PartsOk(b, f, rk, lo, hi, st) && Rearranged(f, f0, lo, hi + 1) && LoadFits(st, hi - lo + 1)
  }

  lemma PlainAppend(st: seq<Chunk>, parts: seq<Chunk>)
    ensures Plain(st + parts) == Plain(st) + Plain(parts)
  {
  }

  lemma DeepTop(b: seq<Byte>, g: seq<int>, f0: seq<int>, rk: seq<int>, lo: int, hi: int, st: seq<Chunk>, top: Chunk)
    requires SortingDeep(b, g, f0, rk, lo, hi, st + [top])
    ensures lo <= top.s.lo <= top.s.hi + 1 <= hi + 1 && Keyed(g, rk, top.s.lo, top.s.hi + 1) && ChunkAgrees(b, g, top)
  {
    assert (st + [top])[|st|] == top && Plain(st + [top])[|st|] == top.s;
  }

  /** Chunks apart from the rearranged one agree as before. */
  lemma ChunkKept(b: seq<Byte>, f: seq<int>, g: seq<int>, top: Chunk, c: Chunk)
    requires Rearranged(f, g, top.s.lo, top.s.hi + 1) && ChunkAgrees(b, g, c) && Apart(c.s, top.s)
    ensures ChunkAgrees(b, f, c)
  {
    hide Agree;
    forall i, j | c.s.lo <= i <= c.s.hi && c.s.lo <= j <= c.s.hi
      ensures Agree(b, f[i], f[j], c.d)
    {
      assert f[i] == g[i] && f[j] == g[j];
    }
  }

  lemma DeepStep(b: seq<Byte>, f: seq<int>, g: seq<int>, f0: seq<int>, rk: seq<int>, lo: int, hi: int,
                 st: seq<Chunk>, top: Chunk, parts: seq<Chunk>)
    requires SortingDeep(b, g, f0, rk, lo, hi, st + [top])
    requires Rearranged(f, g, top.s.lo, top.s.hi + 1) && PartsOk(b, f, rk, top.s.lo, top.s.hi, parts)
    requires LoadFits(st + parts, hi - lo + 1)
    ensures SortingDeep(b, f, f0, rk, lo, hi, st + parts)
  {
    hide ChunkAgrees, LoadFits;
    var all := st + [top];
    PlainAppend(st, [top]);
    PlainAppend(st, parts);
    assert Plain([top]) == [top.s];
    DeepTop(b, g, f0, rk, lo, hi, st, top);
    PendingReplace(f, g, rk, lo, hi, Plain(st), top.s, Plain(parts));
    forall e | 0 <= e < |st|
      ensures ChunkAgrees(b, f, st[e])
    {
      assert all[e] == st[e] && all[|st|] == top && Plain(all)[e] == st[e].s && Plain(all)[|st|] == top.s;
      assert Apart(Plain(all)[e], Plain(all)[|st|]);
      ChunkKept(b, f, g, top, st[e]);
    }
  }

  lemma DeepStart(b: seq<Byte>, f: seq<int>, rk: seq<int>, lo: int, hi: int, d: nat)
    requires lo <= hi && AllAgree(b, f, lo, hi, d) && Keyed(f, rk, lo, hi + 1) && d <= 15
    ensures SortingDeep(b, f, f, rk, lo, hi, [Chunk(Stretch(lo, hi), d)])
  {
    hide AllAgree;
    WholeOk(b, f, rk, lo, hi, d);
    var st := [Chunk(Stretch(lo, hi), d)];
    assert Load(st, 0) == Size(st[0].s) + Load(st, 1);
  }

  method PushChunks(stack: array<Chunk>, sp: nat, parts: seq<Chunk>) returns (sp': nat)
    requires sp + |parts| <= stack.Length && |parts| <= 3
    modifies stack
    ensures sp' == sp + |parts| && stack[..sp'] == old(stack[..sp]) + parts
  {
    sp' := sp;
    var e := 0;
    while e < |parts|
      invariant 0 <= e <= |parts| && sp' == sp + e && stack[..sp'] == old(stack[..sp]) + parts[..e]
    {
      stack[sp'] := parts[e];
      sp', e := sp' + 1, e + 1;
    }
  }

  /** Pops a chunk, gives it a turn, and pushes what is left of it. */
  method PopAndTurnDeep(ptr: array<int>, block: array<int>, quadrant: array<int>, nblock: nat, stack: array<Chunk>, sp0: nat, budget0: int,
                        ghost f0: seq<int>, ghost b: seq<Byte>, ghost rk: seq<int>, ghost lo: nat, ghost hi: nat, ghost st0: seq<Chunk>)
    returns (done: bool, sp: nat, budget: int, ghost st: seq<Chunk>)
    requires ptr != block && ptr != quadrant && nblock == |b| && Comparable(block[..], quadrant[..], b, rk)
    requires stack.Length == MAIN_STACK_SIZE && lo <= hi < ptr.Length && hi - lo < MAX_BLOCK
    requires 0 < sp0 == |st0| <= stack.Length && stack[..sp0] == st0
    requires SortingDeep(b, ptr[..], f0, rk, lo, hi, st0)
    modifies ptr, stack
    ensures Rearranged(ptr[..], f0, lo, hi + 1) && budget <= budget0
    ensures !done ==> budget < 0
    ensures done ==> |st| == sp <= stack.Length && stack[..sp] == st && (sp < sp0 || sp <= 29)
    ensures done ==> SortingDeep(b, ptr[..], f0, rk, lo, hi, st) && Work(st) < Work(st0)
  {
    hide Comparable, LoadFits, PartsOk, TurnSizes, ChunkAgrees;
    ghost var g := ptr[..];
    sp := sp0 - 1;
    var top := stack[sp];
    st := st0[..sp];
    assert st0 == st + [top];
    DeepTop(b, g, f0, rk, lo, hi, st, top);
    var parts;
    done, parts, budget := QTurn(ptr, block, quadrant, nblock, top, budget0, b, rk);
    if !done { return; }
    StackStepDeep(st, top, parts, hi - lo + 1);
    WorkStep(st, top, parts);
    DeepStep(b, ptr[..], g, f0, rk, lo, hi, st, top, parts);
    SizesShort(top, parts);
    assert stack[..sp] == st;
    sp := PushChunks(stack, sp, parts);
    st := st + parts;
  }

  lemma SizesShort(top: Chunk, parts: seq<Chunk>)
    requires TurnSizes(top, parts)
    ensures |parts| <= 3
  {
  }

  lemma DeepDone(b: seq<Byte>, f: seq<int>, f0: seq<int>, rk: seq<int>, lo: int, hi: int)
    requires SortingDeep(b, f, f0, rk, lo, hi, [])
    ensures Keyed(f, rk, lo, hi + 1) && KeySorted(f, rk, lo, hi + 1)
  {
    assert Plain([]) == [];
    PendingNothing(f, rk, lo, hi);
  }

  /** Sorts [loSt, hiSt], whose rotations agree on `dSt` bytes, unless the budget runs out.  The stack assertion
      (code 1001) holds at every turn for blocks of legal size. */
  method MainQSort3(ptr: array<int>, block: array<int>, quadrant: array<int>, nblock: nat, loSt: nat, hiSt: nat, dSt: nat, budget0: int,
                    ghost b: seq<Byte>, ghost rk: seq<int>)
    returns (budget: int)
    requires ptr != block && ptr != quadrant && nblock == |b| && Comparable(block[..], quadrant[..], b, rk)
    requires loSt <= hiSt < ptr.Length && hiSt - loSt < MAX_BLOCK && dSt <= 15
    requires AllAgree(b, ptr[..], loSt, hiSt, dSt) && Keyed(ptr[..], rk, loSt, hiSt + 1)
    modifies ptr
    ensures Rearranged(ptr[..], old(ptr[..]), loSt, hiSt + 1) && budget <= budget0
    ensures budget >= 0 ==> Keyed(ptr[..], rk, loSt, hiSt + 1) && KeySorted(ptr[..], rk, loSt, hiSt + 1)
  {
    hide Comparable, AllAgree, PartsOk, LoadFits;
    ghost var f0 := ptr[..];
    budget := budget0;
    var stack := new Chunk[MAIN_STACK_SIZE];
    stack[0] := Chunk(Stretch(loSt, hiSt), dSt);
    var sp: nat := 1;
    ghost var st := [Chunk(Stretch(loSt, hiSt), dSt)];
    assert stack[..sp] == st;
    DeepStart(b, f0, rk, loSt, hiSt, dSt);
    while sp > 0
      invariant sp == |st| <= 29 && budget <= budget0
      invariant stack[..sp] == st
      invariant SortingDeep(b, ptr[..], f0, rk, loSt, hiSt, st)
      decreases Work(st)
    {
      assert sp < MAIN_STACK_SIZE - 2;
      var done;
      done, sp, budget, st := PopAndTurnDeep(ptr, block, quadrant, nblock, stack, sp, budget, f0, b, rk, loSt, hiSt, st);
      if !done { return; }
    }
    assert st == [];
    DeepDone(b, ptr[..], f0, rk, loSt, hiSt);
  }
}
