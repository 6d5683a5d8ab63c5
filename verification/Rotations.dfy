/** Rotations of a block and the order the block sorts promise.

    A rotation is named by its starting index.  `Cmp` compares two rotations on their first `k` bytes;
    the block is read as a circle, so `k` may exceed its length.
 */
module Rotations {
  import opened Permutations

  type Byte = x: int | 0 <= x < 256

  /** The index after `i` on the circle. */
  function Next(n: nat, i: nat): (r: nat)
    requires i < n
    ensures r < n
  {
    if i + 1 == n then 0 else i + 1
  }

  /** The index before `i` on the circle. */
  function Prev(n: nat, i: nat): (r: nat)
    requires i < n
    ensures r < n && Next(n, r) == i
  {
    if i == 0 then n - 1 else i - 1
  }

  /** The index `k` places after `i` on the circle. */
  ghost function Shift(n: nat, i: nat, k: nat): (r: nat)
    requires i < n
    ensures r < n
    decreases k
  {
    if k == 0 then i else Shift(n, Next(n, i), k - 1)
  }

  /** Negative, zero or positive as the first `k` bytes from `i` are below, equal to or above those from `j`. */
  ghost function Cmp(b: seq<Byte>, i: nat, j: nat, k: nat): int
    requires i < |b| && j < |b|
    decreases k
  {
    if k == 0 then 0
    else if b[i] < b[j] then -1
    else if b[i] > b[j] then 1
    else Cmp(b, Next(|b|, i), Next(|b|, j), k - 1)
  }

  /** Rotation `i` does not come after rotation `j`. */
  ghost predicate Leq(b: seq<Byte>, i: nat, j: nat)
    requires i < |b| && j < |b|
  {
    Cmp(b, i, j, |b|) <= 0
  }

  /** The two rotations are the same string. */
  ghost predicate Same(b: seq<Byte>, i: nat, j: nat)
    requires i < |b| && j < |b|
  {
    Cmp(b, i, j, |b|) == 0
  }

  /** `p` lists all rotations in non-descending order; equal rotations may come in either order. */
  ghost predicate WeaklySorted(b: seq<Byte>, p: seq<int>) {
    && IsPerm(p, |b|)
    && forall r, s :: 0 <= r < s < |p| ==> Leq(b, p[r], p[s])
  }

  lemma {:induction false} ShiftWrap(n: nat, i: nat, k: nat)
    requires i < n && k <= n
    ensures Shift(n, i, k) == if i + k < n then i + k else i + k - n
    decreases k
  {
    if k > 0 {
      if i + 1 == n {
        ShiftWrap(n, 0, k - 1);
      } else {
        ShiftWrap(n, i + 1, k - 1);
      }
    }
  }

  lemma {:induction false} CmpRefl(b: seq<Byte>, i: nat, k: nat)
    requires i < |b|
    ensures Cmp(b, i, i, k) == 0
    decreases k
  {
    if k > 0 {
      CmpRefl(b, Next(|b|, i), k - 1);
    }
  }

  lemma {:induction false} CmpAnti(b: seq<Byte>, i: nat, j: nat, k: nat)
    requires i < |b| && j < |b|
    ensures Cmp(b, i, j, k) == -Cmp(b, j, i, k)
    decreases k
  {
    if k > 0 {
      CmpAnti(b, Next(|b|, i), Next(|b|, j), k - 1);
    }
  }

  /** `Cmp` orders transitively, strictly so as soon as one of the two steps is strict. */
  lemma {:induction false} CmpTrans(b: seq<Byte>, i: nat, j: nat, l: nat, k: nat)
    requires i < |b| && j < |b| && l < |b|
    requires Cmp(b, i, j, k) <= 0 && Cmp(b, j, l, k) <= 0
    ensures Cmp(b, i, l, k) <= 0
    ensures Cmp(b, i, l, k) == 0 <==> Cmp(b, i, j, k) == 0 && Cmp(b, j, l, k) == 0
    decreases k
  {
    if k > 0 && b[i] == b[j] == b[l] {
      CmpTrans(b, Next(|b|, i), Next(|b|, j), Next(|b|, l), k - 1);
    }
  }

  /** Comparing k + m bytes compares the first k, and on a tie the m that follow. */
  lemma {:induction false} CmpSplit(b: seq<Byte>, i: nat, j: nat, k: nat, m: nat)
    requires i < |b| && j < |b|
    ensures Cmp(b, i, j, k + m) ==
            if Cmp(b, i, j, k) != 0 then Cmp(b, i, j, k)
            else Cmp(b, Shift(|b|, i, k), Shift(|b|, j, k), m)
    decreases k
  {
    if k > 0 {
      CmpSplit(b, Next(|b|, i), Next(|b|, j), k - 1, m);
    }
  }

  /** A whole turn decides everything: further bytes repeat. */
  lemma {:induction false} CmpFull(b: seq<Byte>, i: nat, j: nat, k: nat)
    requires i < |b| && j < |b| && |b| <= k
    ensures Cmp(b, i, j, k) == Cmp(b, i, j, |b|)
    decreases k
  {
    var n := |b|;
    CmpSplit(b, i, j, n, k - n);
    ShiftWrap(n, i, n);
    ShiftWrap(n, j, n);
    if Cmp(b, i, j, n) == 0 {
      if k - n >= n {
        CmpFull(b, i, j, k - n);
      } else {
        CmpSplit(b, i, j, k - n, n - (k - n));
      }
    }
  }

  /** Behind an equal first byte the order of two rotations is that of their successors. */
  lemma LeqNext(b: seq<Byte>, i: nat, j: nat)
    requires i < |b| && j < |b| && b[i] == b[j]
    ensures Cmp(b, i, j, |b|) == Cmp(b, Next(|b|, i), Next(|b|, j), |b|)
  {
    CmpFull(b, i, j, |b| + 1);
  }

  /** Same rotations start with the same byte and have the same successors. */
  lemma SameNext(b: seq<Byte>, i: nat, j: nat)
    requires i < |b| && j < |b| && Same(b, i, j)
    ensures b[i] == b[j] && Same(b, Next(|b|, i), Next(|b|, j))
  {
    LeqNext(b, i, j);
  }

  /** Same rotations also have the same predecessors: going back one place is going on |b| - 1. */
  lemma {:induction false} SamePrev(b: seq<Byte>, i: nat, j: nat)
    requires i < |b| && j < |b| && Same(b, i, j)
    ensures b[Prev(|b|, i)] == b[Prev(|b|, j)] && Same(b, Prev(|b|, i), Prev(|b|, j))
  {
    var n := |b|;
    CmpFull(b, i, j, n - 1 + n);
    CmpSplit(b, i, j, n - 1, n);
    CmpSplit(b, i, j, n - 1, 1);
    ShiftWrap(n, i, n - 1);
    ShiftWrap(n, j, n - 1);
    assert Shift(n, i, n - 1) == Prev(n, i) && Shift(n, j, n - 1) == Prev(n, j);
    SameNext(b, Prev(n, i), Prev(n, j));
  }

  lemma LeqTotal(b: seq<Byte>, i: nat, j: nat)
    requires i < |b| && j < |b|
    ensures Leq(b, i, j) || Leq(b, j, i)
    ensures Same(b, i, j) <==> Leq(b, i, j) && Leq(b, j, i)
  {
    CmpAnti(b, i, j, |b|);
  }

  lemma LeqTrans(b: seq<Byte>, i: nat, j: nat, l: nat)
    requires i < |b| && j < |b| && l < |b|
    requires Leq(b, i, j) && Leq(b, j, l)
    ensures Leq(b, i, l)
  {
    CmpTrans(b, i, j, l, |b|);
  }

  /** In a sorted order, the earlier row is never larger, the same row included. */
  lemma SortedAt(b: seq<Byte>, p: seq<int>, r: nat, s: nat)
    requires WeaklySorted(b, p) && r <= s < |p|
    ensures Leq(b, p[r], p[s])
  {
    if r == s {
      CmpRefl(b, p[r], |b|);
    }
  }

  /** Row r of one weakly sorted order cannot be above row r of another. */
  lemma SortedRowsLeq(b: seq<Byte>, p: seq<int>, q: seq<int>, r: nat)
    requires WeaklySorted(b, p) && WeaklySorted(b, q) && r < |b|
    ensures Leq(b, q[r], p[r])
  {
    LeqTotal(b, p[r], q[r]);
    if !Leq(b, q[r], p[r]) {
      // p[0..r] are all below q[r], so they all stand among q[0..r-1]: too many of them.
      DistinctCard(p[..r + 1]);
      DistinctCard(q[..r]);
      forall x | x in Elements(p[..r + 1])
        ensures x in Elements(q[..r])
      {
        var i :| 0 <= i < r + 1 && p[..r + 1][i] == x;
        var s := IndexOf(q, |b|, x);
        SortedAt(b, p, i, r);
        if s >= r {
          SortedAt(b, q, r, s);
          LeqTrans(b, q[r], x, p[r]);
        }
        assert q[..r][s] == x;
      }
      SubsetCard(Elements(p[..r + 1]), Elements(q[..r]));
    }
  }

  /** The rows of a weakly sorted order are unique as strings. */
  lemma SortedRowsSame(b: seq<Byte>, p: seq<int>, q: seq<int>, r: nat)
    requires WeaklySorted(b, p) && WeaklySorted(b, q) && r < |b|
    ensures Same(b, p[r], q[r])
  {
    SortedRowsLeq(b, p, q, r);
    SortedRowsLeq(b, q, p, r);
    LeqTotal(b, p[r], q[r]);
  }

  // ----- The reference definition: rotations as strings in dictionary order.

  function Rot(b: seq<Byte>, i: nat): (r: seq<Byte>)
    requires i < |b|
    ensures |r| == |b|
  {
    b[i..] + b[..i]
  }

  /** Dictionary order. */
  ghost predicate Lex(s: seq<Byte>, t: seq<Byte>) {
    s == [] || (t != [] && (s[0] < t[0] || (s[0] == t[0] && Lex(s[1..], t[1..]))))
  }

  lemma {:induction false} CmpIsLex(b: seq<Byte>, i: nat, j: nat, s: seq<Byte>, t: seq<Byte>)
    requires i < |b| && j < |b| && |s| == |t|
    requires forall m {:trigger s[m]} :: 0 <= m < |s| ==> s[m] == b[Shift(|b|, i, m)] && t[m] == b[Shift(|b|, j, m)]
    ensures Cmp(b, i, j, |s|) <= 0 <==> Lex(s, t)
    decreases |s|
  {
    if s != [] {
      assert s[0] == b[i] && t[0] == b[j];
      forall m | 0 <= m < |s[1..]|
        ensures s[1..][m] == b[Shift(|b|, Next(|b|, i), m)] && t[1..][m] == b[Shift(|b|, Next(|b|, j), m)]
      {
        assert s[m + 1] == b[Shift(|b|, i, m + 1)];
      }
      CmpIsLex(b, Next(|b|, i), Next(|b|, j), s[1..], t[1..]);
    }
  }

  /** `Leq` is dictionary order on the rotations. */
  lemma LeqIsLex(b: seq<Byte>, i: nat, j: nat)
    requires i < |b| && j < |b|
    ensures Leq(b, i, j) <==> Lex(Rot(b, i), Rot(b, j))
  {
    forall m | 0 <= m < |b|
      ensures Rot(b, i)[m] == b[Shift(|b|, i, m)] && Rot(b, j)[m] == b[Shift(|b|, j, m)]
    {
      ShiftWrap(|b|, i, m);
      ShiftWrap(|b|, j, m);
    }
    CmpIsLex(b, i, j, Rot(b, i), Rot(b, j));
  }
}
