/** Ranks of rotations: numbers that are ordered as the rotations are.  They serve as sort keys in proofs. */
module Ranks {
  import opened Cuts
  import opened Permutations
  import opened Rotations

  /** The rotations that come strictly before rotation `i`. */
  ghost function Before(b: seq<Byte>, i: nat): (s: set<int>)
    requires i < |b|
    ensures forall j :: j in s <==> 0 <= j < |b| && !Leq(b, i, j)
  {
    set j | 0 <= j < |b| && !Leq(b, i, j)
  }

  ghost predicate IsRanking(b: seq<Byte>, rk: seq<int>) {
    |rk| == |b| && forall i, j :: 0 <= i < |b| && 0 <= j < |b| ==> (rk[i] <= rk[j] <==> Leq(b, i, j))
  }

  ghost function RanksOf(b: seq<Byte>): (rk: seq<int>)
    ensures IsRanking(b, rk)
  {
    var rk := seq(|b|, i requires 0 <= i < |b| => |Before(b, i)|);
    forall i, j | 0 <= i < |b| && 0 <= j < |b|
      ensures rk[i] <= rk[j] <==> Leq(b, i, j)
    {
      RankOrder(b, i, j);
    }
    rk
  }

  lemma RankOrder(b: seq<Byte>, i: nat, j: nat)
    requires i < |b| && j < |b|
    ensures |Before(b, i)| <= |Before(b, j)| <==> Leq(b, i, j)
  {
    if Leq(b, i, j) {
      BeforeMono(b, i, j);
    } else {
      LeqTotal(b, i, j);
      BeforeMono(b, j, i);
      LeqTotal(b, j, j);
      assert j in Before(b, i) && j !in Before(b, j);
      if |Before(b, i)| <= |Before(b, j)| {
        SubsetCard(Before(b, j), Before(b, i));
      }
    }
  }

  lemma BeforeMono(b: seq<Byte>, i: nat, j: nat)
    requires i < |b| && j < |b| && Leq(b, i, j)
    ensures Before(b, i) <= Before(b, j) && |Before(b, i)| <= |Before(b, j)|
  {
    forall l | l in Before(b, i)
      ensures l in Before(b, j)
    {
      if Leq(b, j, l) {
        LeqTrans(b, i, j, l);
      }
    }
    SubsetCard(Before(b, i), Before(b, j));
  }

  /** Sorting by rank is sorting the rotations. */
  lemma SortedByRank(b: seq<Byte>, rk: seq<int>, p: seq<int>)
    requires IsRanking(b, rk) && IsPerm(p, |b|) && Keyed(p, rk, 0, |b|) && KeySorted(p, rk, 0, |b|)
    ensures WeaklySorted(b, p)
  {
  }

  // ----- Common beginnings.

  /** Rotations that agree on their first `d` bytes. */
  ghost predicate Agree(b: seq<Byte>, i: int, j: int, d: nat) {
    0 <= i < |b| && 0 <= j < |b| && Cmp(b, i, j, d) == 0
  }

  /** All rotations in [lo, hi] agree on their first `d` bytes. */
  ghost predicate AllAgree(b: seq<Byte>, f: seq<int>, lo: int, hi: int, d: nat) {
    0 <= lo && hi < |f| && forall i, j :: lo <= i <= hi && lo <= j <= hi ==> Agree(b, f[i], f[j], d)
  }

  /** Behind a common beginning the order of the rotations is that of what follows. */
  lemma OrderBehind(b: seq<Byte>, i: nat, j: nat, d: nat)
    requires Agree(b, i, j, d)
    ensures Leq(b, i, j) <==> Leq(b, Shift(|b|, i, d), Shift(|b|, j, d))
  {
    CmpSplit(b, i, j, d, |b|);
    CmpFull(b, i, j, d + |b|);
  }

  /** As soon as two rotations differ, their order is known. */
  lemma Decided(b: seq<Byte>, i: nat, j: nat, m: nat)
    requires i < |b| && j < |b| && Cmp(b, i, j, m) != 0
    ensures Cmp(b, i, j, |b|) == Cmp(b, i, j, m)
  {
    if m <= |b| {
      CmpSplit(b, i, j, m, |b| - m);
    } else {
      CmpFull(b, i, j, m);
    }
  }

  lemma CmpOne(b: seq<Byte>, i: nat, j: nat, m: nat)
    requires i < |b| && j < |b| && Cmp(b, i, j, m) == 0
    ensures var x, y := b[Shift(|b|, i, m)], b[Shift(|b|, j, m)];
            Cmp(b, i, j, m + 1) == if x < y then -1 else if x > y then 1 else 0
  {
    CmpSplit(b, i, j, m, 1);
    assert Cmp(b, Next(|b|, Shift(|b|, i, m)), Next(|b|, Shift(|b|, j, m)), 0) == 0;
  }
}
