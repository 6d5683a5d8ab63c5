/** The comparison of the main sort: bytes first, then bytes and quadrants in turn.

    The block is followed by a copy of its first `N_OVERSHOOT` bytes, so that the indices need to be brought back
    into the block only once in eight steps.  A quadrant is what is already known about the order of a rotation among
    those with the same first byte; it may decide a comparison early, and is never wrong about it.
 */
module MainCompare {
  import opened Ranks
  import opened Rotations

  const N_OVERSHOOT := 34

  /** The array holds the block `b` and behind it the first bytes once more. */
  ghost predicate Extended(blk: seq<int>, b: seq<Byte>) {
    && N_OVERSHOOT < |b| && |b| + N_OVERSHOOT <= |blk|
    && (forall k :: 0 <= k < |b| ==> blk[k] == b[k])
    && (forall k :: 0 <= k < N_OVERSHOOT ==> blk[|b| + k] == b[k])
  }

  /** Where first bytes agree, different quadrants are in the order of the rotations. */
  ghost predicate QuadrantsOk(q: seq<int>, b: seq<Byte>) {
    && |b| + N_OVERSHOOT <= |q|
    && (forall k :: 0 <= k < N_OVERSHOOT && k < |b| ==> q[|b| + k] == q[k])
    && (forall i, j :: 0 <= i < |b| && 0 <= j < |b| && b[i] == b[j] && q[i] < q[j] ==> Leq(b, i, j))
  }

  /** The index in the block that `i` stands for. */
  function Fold(n: nat, i: nat): (r: nat)
    requires i < 2 * n
    ensures r < n
  {
    if i >= n then i - n else i
  }

  lemma {:induction false} ShiftStep(n: nat, i: nat, m: nat)
    requires i < n
    ensures Shift(n, i, m + 1) == Next(n, Shift(n, i, m))
    decreases m
  {
    if m > 0 {
      ShiftStep(n, Next(n, i), m - 1);
    }
  }

  /** A comparison of rotations `a1` and `a2` that has found `m` equal bytes and has reached `i1` and `i2`. */
  ghost predicate Facing(b: seq<Byte>, a1: nat, a2: nat, m: nat, i1: nat, i2: nat) {
    && a1 < |b| && a2 < |b| && i1 < 2 * |b| && i2 < 2 * |b| && Cmp(b, a1, a2, m) == 0
    && Fold(|b|, i1) == Shift(|b|, a1, m) && Fold(|b|, i2) == Shift(|b|, a2, m)
  }

  lemma FacingStart(b: seq<Byte>, i1: nat, i2: nat)
    requires i1 < 2 * |b| && i2 < 2 * |b|
    ensures Facing(b, Fold(|b|, i1), Fold(|b|, i2), 0, i1, i2)
  {
  }

  lemma FacingStep(b: seq<Byte>, a1: nat, a2: nat, m: nat, i1: nat, i2: nat)
    requires Facing(b, a1, a2, m, i1, i2) && b[Fold(|b|, i1)] == b[Fold(|b|, i2)]
    requires i1 + 1 < 2 * |b| && i2 + 1 < 2 * |b|
    ensures Facing(b, a1, a2, m + 1, i1 + 1, i2 + 1)
  {
    CmpOne(b, a1, a2, m);
    ShiftStep(|b|, a1, m);
    ShiftStep(|b|, a2, m);
  }

  lemma ByteDecides(b: seq<Byte>, a1: nat, a2: nat, m: nat, i1: nat, i2: nat)
    requires Facing(b, a1, a2, m, i1, i2)
    ensures b[Fold(|b|, i1)] > b[Fold(|b|, i2)] ==> Leq(b, a2, a1)
    ensures b[Fold(|b|, i1)] < b[Fold(|b|, i2)] ==> Leq(b, a1, a2)
  {
    CmpOne(b, a1, a2, m);
    if b[Fold(|b|, i1)] != b[Fold(|b|, i2)] {
      Decided(b, a1, a2, m + 1);
      LeqTotal(b, a1, a2);
    }
  }

  lemma QuadrantDecides(q: seq<int>, b: seq<Byte>, a1: nat, a2: nat, m: nat, i1: nat, i2: nat)
    requires Facing(b, a1, a2, m, i1, i2) && QuadrantsOk(q, b)
    requires b[Fold(|b|, i1)] == b[Fold(|b|, i2)]
    ensures q[Fold(|b|, i1)] > q[Fold(|b|, i2)] ==> Leq(b, a2, a1)
    ensures q[Fold(|b|, i1)] < q[Fold(|b|, i2)] ==> Leq(b, a1, a2)
  {
    OrderBehind(b, a1, a2, m);
    CmpAnti(b, a1, a2, m);
    OrderBehind(b, a2, a1, m);
  }

  /** After a whole turn nothing is left that could differ. */
  lemma AllEqual(b: seq<Byte>, a1: nat, a2: nat, m: nat, i1: nat, i2: nat)
    requires Facing(b, a1, a2, m, i1, i2) && |b| <= m
    ensures Leq(b, a1, a2)
  {
    CmpFull(b, a1, a2, m);
  }

  datatype Verdict = Greater | NotGreater | Open

  /** What a verdict may be: `Greater` and `NotGreater` are about the rotations `a1` and `a2`, ties going either way. */
  ghost predicate Fair(v: Verdict, b: seq<Byte>, a1: nat, a2: nat)
    requires a1 < |b| && a2 < |b|
  {
    && (v.Greater? ==> Leq(b, a2, a1))
    && (v.NotGreater? ==> Leq(b, a1, a2))
  }

  /** The first 12 steps compare bytes only. */
  method ByteSteps(block: array<int>, start1: nat, start2: nat, ghost b: seq<Byte>, ghost a1: nat, ghost a2: nat)
    returns (v: Verdict)
    requires Extended(block[..], b) && Facing(b, a1, a2, 0, start1, start2)
    requires start1 <= |b| + 14 && start2 <= |b| + 14
    ensures Fair(v, b, a1, a2)
    ensures v.Open? ==> Facing(b, a1, a2, 12, start1 + 12, start2 + 12)
  {
    var t := 0;
    while t < 12
      invariant 0 <= t <= 12 && Facing(b, a1, a2, t, start1 + t, start2 + t)
    {
      var c1, c2 := block[start1 + t], block[start2 + t];
      ByteDecides(b, a1, a2, t, start1 + t, start2 + t);
      if c1 != c2 {
        return if c1 > c2 then Greater else NotGreater;
      }
      FacingStep(b, a1, a2, t, start1 + t, start2 + t);
      t := t + 1;
    }
    v := Open;
  }

  /** Eight steps over bytes and quadrants. */
  method QuadrantSteps(block: array<int>, quadrant: array<int>, start1: nat, start2: nat, ghost b: seq<Byte>,
                       ghost a1: nat, ghost a2: nat, ghost m: nat)
    returns (v: Verdict)
    requires Extended(block[..], b) && QuadrantsOk(quadrant[..], b) && Facing(b, a1, a2, m, start1, start2)
    requires start1 <= |b| + 26 && start2 <= |b| + 26
    ensures Fair(v, b, a1, a2)
    ensures v.Open? ==> Facing(b, a1, a2, m + 8, start1 + 8, start2 + 8)
  {
    hide Leq, Cmp, Shift;
    var t := 0;
    while t < 8
      invariant 0 <= t <= 8 && Facing(b, a1, a2, m + t, start1 + t, start2 + t)
    {
      var c1, c2 := block[start1 + t], block[start2 + t];
      ByteDecides(b, a1, a2, m + t, start1 + t, start2 + t);
      if c1 != c2 {
        return if c1 > c2 then Greater else NotGreater;
      }
      var s1, s2 := quadrant[start1 + t], quadrant[start2 + t];
      QuadrantDecides(quadrant[..], b, a1, a2, m + t, start1 + t, start2 + t);
      if s1 != s2 {
        return if s1 > s2 then Greater else NotGreater;
      }
      FacingStep(b, a1, a2, m + t, start1 + t, start2 + t);
      t := t + 1;
    }
    v := Open;
  }

  /** Whether the rotation at `i1` comes after the one at `i2`; of equal rotations, either answer is given.
      With i1, i2 <= nblock + 14 no read goes beyond the overshoot area. */
  method MainGtU(start1: nat, start2: nat, block: array<int>, quadrant: array<int>, nblock: nat, budget0: int, ghost b: seq<Byte>)
    returns (gt: bool, budget: int)
    requires nblock == |b| && Extended(block[..], b) && QuadrantsOk(quadrant[..], b)
    requires start1 <= nblock + 14 && start2 <= nblock + 14
    ensures gt ==> Leq(b, Fold(nblock, start2), Fold(nblock, start1))
    ensures !gt ==> Leq(b, Fold(nblock, start1), Fold(nblock, start2))
    ensures budget <= budget0
  {
    hide Cmp, Shift, Leq, QuadrantsOk;
    ghost var a1, a2 := Fold(nblock, start1), Fold(nblock, start2);
    budget := budget0;
    FacingStart(b, start1, start2);
    var v := ByteSteps(block, start1, start2, b, a1, a2);
    if !v.Open? {
      return v.Greater?, budget;
    }
    var i1: nat, i2: nat := start1 + 12, start2 + 12;
    var k := nblock + 8;
    ghost var m := 12;
    while true
      invariant k >= 0 && m + k == nblock + 20 && budget <= budget0
      invariant i1 <= nblock + 26 && i2 <= nblock + 26 && Facing(b, a1, a2, m, i1, i2)
      decreases k
    {
      v := QuadrantSteps(block, quadrant, i1, i2, b, a1, a2, m);
      if !v.Open? {
        return v.Greater?, budget;
      }
      i1, i2, m := i1 + 8, i2 + 8, m + 8;
      if i1 >= nblock { i1 := i1 - nblock; }
      if i2 >= nblock { i2 := i2 - nblock; }
      k := k - 8;
      budget := budget - 1;
      if k < 0 { break; }
    }
    AllEqual(b, a1, a2, m, i1, i2);
    gt := false;
  }
}
