/** Index permutations and rearrangements of a stretch of a sequence.

    The block sorts move indices around in place; `IsPerm` says that nothing was lost, and
    `Rearranged` that only one stretch was touched.
 */
module Permutations {

  /** The entries of `p` are pairwise different. */
  ghost predicate Distinct(p: seq<int>) {
    forall i, j :: 0 <= i < j < |p| ==> p[i] != p[j]
  }

  /** All entries of `p` are indices below `n`. */
  ghost predicate InRange(p: seq<int>, n: nat) {
    forall i :: 0 <= i < |p| ==> 0 <= p[i] < n
  }

  /** `p` lists every index 0..n-1 exactly once. */
  ghost predicate IsPerm(p: seq<int>, n: nat) {
    |p| == n && InRange(p, n) && Distinct(p)
  }

  lemma DistinctPush(p: seq<int>, x: int, n: nat)
    requires InRange(p, n) && Distinct(p) && 0 <= x < n && x !in p
    ensures InRange(p + [x], n) && Distinct(p + [x])
  {
  }

  ghost function Elements(p: seq<int>): set<int> {
    set i | 0 <= i < |p| :: p[i]
  }

  lemma {:induction false} DistinctCard(p: seq<int>)
    requires Distinct(p)
    ensures |Elements(p)| == |p|
  {
    if p == [] {
      assert Elements(p) == {};
    } else {
      var k := |p| - 1;
      DistinctCard(p[..k]);
      assert Elements(p) == Elements(p[..k]) + {p[k]};
      assert p[k] !in Elements(p[..k]);
    }
  }

  /** The indices below `n`. */
  ghost function Below(n: nat): (s: set<int>)
    ensures forall x :: x in s <==> 0 <= x < n
    ensures |s| == n
  {
    if n == 0 then {} else Below(n - 1) + {n - 1}
  }

  lemma SubsetCard(s: set<int>, t: set<int>)
    requires s <= t
    ensures |s| <= |t|
    ensures |s| == |t| ==> s == t
  {
    var d := t - s;
    assert t == s + d && s !! d;
    assert |t| == |s| + |d|;
    if d == {} {
      assert s == t;
    } else {
      assert |d| > 0;
    }
  }

  /** Distinct entries of `s` that all occur in `t` are no more than `t` has. */
  lemma DistinctWithin(s: seq<int>, t: seq<int>)
    requires Distinct(s) && Distinct(t) && forall i :: 0 <= i < |s| ==> s[i] in t
    ensures |s| <= |t|
  {
    DistinctCard(s);
    DistinctCard(t);
    SubsetCard(Elements(s), Elements(t));
  }

  /** Pigeonhole: distinct entries, all below `n`, number at most `n`. */
  lemma DistinctBound(p: seq<int>, n: nat)
    requires InRange(p, n) && Distinct(p)
    ensures |p| <= n
  {
    DistinctCard(p);
    SubsetCard(Elements(p), Below(n));
  }

  /** A permutation hits every index. */
  lemma PermSurjective(p: seq<int>, n: nat, x: int)
    requires IsPerm(p, n) && 0 <= x < n
    ensures exists i :: 0 <= i < n && p[i] == x
  {
    DistinctCard(p);
    SubsetCard(Elements(p), Below(n));
    assert x in Elements(p);
  }

  /** `inv` undoes `p`. */
  ghost predicate Inverse(p: seq<int>, inv: seq<int>) {
    && |inv| == |p|
    && InRange(p, |p|) && InRange(inv, |p|)
    && (forall i {:trigger inv[p[i]]} :: 0 <= i < |p| ==> inv[p[i]] == i)
    && (forall r {:trigger p[inv[r]]} :: 0 <= r < |p| ==> p[inv[r]] == r)
  }

  ghost function IndexOf(p: seq<int>, n: nat, x: int): (i: nat)
    requires IsPerm(p, n) && 0 <= x < n
    ensures i < n && p[i] == x
  {
    PermSurjective(p, n, x);
    var i :| 0 <= i < n && p[i] == x;
    i
  }

  ghost function InverseOf(p: seq<int>): (inv: seq<int>)
    requires IsPerm(p, |p|)
    ensures Inverse(p, inv)
  {
    seq(|p|, r requires 0 <= r < |p| => IndexOf(p, |p|, r))
  }

  // ----- Rearranging a stretch.

  /** How often `x` occurs in `s`. */
  ghost function Occ(s: seq<int>, x: int): nat {
    if s == [] then 0 else Occ(s[..|s| - 1], x) + if s[|s| - 1] == x then 1 else 0
  }

  /** `s` is `t` with only the stretch [lo, hi) rearranged. */
  ghost predicate Rearranged(s: seq<int>, t: seq<int>, lo: int, hi: int) {
    && 0 <= lo <= hi <= |s| == |t|
    && (forall i :: 0 <= i < |s| && !(lo <= i < hi) ==> s[i] == t[i])
    && (forall x :: Occ(s, x) == Occ(t, x))
  }

  lemma {:induction false} OccUpdate(s: seq<int>, i: nat, v: int, x: int)
    requires i < |s|
    ensures Occ(s[i := v], x) + (if s[i] == x then 1 else 0) == Occ(s, x) + if v == x then 1 else 0
  {
    var m := |s| - 1;
    if i == m {
      assert s[i := v][..m] == s[..m];
    } else {
      OccUpdate(s[..m], i, v, x);
      assert s[i := v][..m] == s[..m][i := v];
    }
  }

  lemma {:induction false} OccConcat(s: seq<int>, t: seq<int>, x: int)
    ensures Occ(s + t, x) == Occ(s, x) + Occ(t, x)
  {
    if t == [] {
      assert s + t == s;
    } else {
      OccConcat(s, t[..|t| - 1], x);
      assert (s + t)[..|s + t| - 1] == s + t[..|t| - 1];
    }
  }

  lemma {:induction false} OccMember(s: seq<int>, x: int)
    ensures Occ(s, x) > 0 <==> x in s
  {
    if s != [] {
      OccMember(s[..|s| - 1], x);
      assert s == s[..|s| - 1] + [s[|s| - 1]];
    }
  }

  lemma SwapRearranged(s: seq<int>, i: int, j: int, lo: int, hi: int)
    requires 0 <= lo <= i < hi <= |s| && lo <= j < hi
    ensures Rearranged(s[i := s[j]][j := s[i]], s, lo, hi)
  {
    forall x
      ensures Occ(s[i := s[j]][j := s[i]], x) == Occ(s, x)
    {
      OccUpdate(s, i, s[j], x);
      OccUpdate(s[i := s[j]], j, s[i], x);
    }
  }

  /** Moving the free position of an insertion (where `x` will go) from `h` to `k` only rearranges. */
  lemma HoleMoved(s: seq<int>, t: seq<int>, h: nat, k: nat, x: int, lo: int, hi: int)
    requires 0 <= lo <= h < hi <= |s| && lo <= k < hi && h != k && Rearranged(s[h := x], t, lo, hi)
    ensures Rearranged(s[h := s[k]][k := x], t, lo, hi)
  {
    var u := s[h := x];
    assert s[h := s[k]][k := x] == u[h := u[k]][k := u[h]];
    SwapRearranged(u, h, k, lo, hi);
  }

  /** Rearranging keeps the set of entries and their being distinct. */
  lemma RearrangedMembers(s: seq<int>, t: seq<int>, lo: int, hi: int)
    requires Rearranged(s, t, lo, hi)
    ensures forall x :: x in s[lo..hi] <==> x in t[lo..hi]
    ensures Distinct(t[lo..hi]) ==> Distinct(s[lo..hi])
  {
    forall x
      ensures x in s[lo..hi] <==> x in t[lo..hi]
      ensures Occ(s[lo..hi], x) == Occ(t[lo..hi], x)
    {
      StretchOcc(s, t, lo, hi, x);
      OccMember(s[lo..hi], x);
      OccMember(t[lo..hi], x);
    }
    if Distinct(t[lo..hi]) {
      DistinctByOcc(s[lo..hi], t[lo..hi]);
    }
  }

  lemma DistinctByOcc(s: seq<int>, t: seq<int>)
    requires Distinct(t) && forall x :: Occ(s, x) == Occ(t, x)
    ensures Distinct(s)
  {
    forall i, j | 0 <= i < j < |s|
      ensures s[i] != s[j]
    {
      if s[i] == s[j] {
        OccTwice(s, i, j);
        OccDistinct(t, s[i]);
      }
    }
  }

  lemma SplitOcc(s: seq<int>, lo: int, hi: int, x: int)
    requires 0 <= lo <= hi <= |s|
    ensures Occ(s, x) == Occ(s[..lo], x) + Occ(s[lo..hi], x) + Occ(s[hi..], x)
  {
    OccConcat(s[..lo], s[lo..hi], x);
    OccConcat(s[..hi], s[hi..], x);
    assert s == s[..hi] + s[hi..] && s[..hi] == s[..lo] + s[lo..hi];
  }

  lemma StretchOcc(s: seq<int>, t: seq<int>, lo: int, hi: int, x: int)
    requires Rearranged(s, t, lo, hi)
    ensures Occ(s[lo..hi], x) == Occ(t[lo..hi], x)
  {
    SplitOcc(s, lo, hi, x);
    SplitOcc(t, lo, hi, x);
    assert s[..lo] == t[..lo] && s[hi..] == t[hi..];
  }

  /** Every entry of the rearranged stretch was already in that stretch. */
  lemma RearrangedFrom(s: seq<int>, t: seq<int>, lo: int, hi: int, i: int) returns (j: int)
    requires Rearranged(s, t, lo, hi) && lo <= i < hi
    ensures lo <= j < hi && s[i] == t[j]
  {
    StretchOcc(s, t, lo, hi, s[i]);
    OccMember(s[lo..hi], s[i]);
    OccMember(t[lo..hi], s[i]);
    assert s[i] == s[lo..hi][i - lo];
    var k :| 0 <= k < |t[lo..hi]| && t[lo..hi][k] == s[i];
    j := lo + k;
  }

  /** A rearrangement below `n` is one of the first `n` entries. */
  lemma RearrangedPrefix(s: seq<int>, t: seq<int>, lo: int, hi: int, n: int)
    requires Rearranged(s, t, lo, hi) && hi <= n <= |s|
    ensures Rearranged(s[..n], t[..n], lo, hi)
  {
    assert s == s[..n] + s[n..];
    assert t == t[..n] + t[n..];
    assert s[n..] == t[n..];
    forall x
      ensures Occ(s[..n], x) == Occ(t[..n], x)
    {
      OccConcat(s[..n], s[n..], x);
      OccConcat(t[..n], t[n..], x);
    }
  }

  lemma {:induction false} OccDistinct(p: seq<int>, x: int)
    requires Distinct(p)
    ensures Occ(p, x) <= 1
  {
    if p != [] {
      var m := |p| - 1;
      OccDistinct(p[..m], x);
      OccMember(p[..m], x);
    }
  }

  lemma OccTwice(p: seq<int>, i: nat, j: nat)
    requires i < j < |p| && p[i] == p[j]
    ensures Occ(p, p[i]) > 1
  {
    OccConcat(p[..j], p[j..], p[i]);
    assert p == p[..j] + p[j..];
    OccMember(p[..j], p[i]);
    OccMember(p[j..], p[i]);
    assert p[..j][i] == p[j..][0] == p[i];
  }

  /** Rearranging a permutation gives a permutation. */
  lemma RearrangedPerm(s: seq<int>, t: seq<int>, lo: int, hi: int)
    requires Rearranged(s, t, lo, hi)
    requires IsPerm(t, |t|)
    ensures IsPerm(s, |t|)
  {
    DistinctByOcc(s, t);
    forall i | 0 <= i < |s|
      ensures 0 <= s[i] < |s|
    {
      OccMember(s, s[i]);
      OccMember(t, s[i]);
    }
  }

  // ----- Arrays of which only the first `n` entries matter.

  /** The first `n` entries of `f` are a permutation of 0..n-1. */
  ghost predicate PermUpTo(f: seq<int>, n: nat) {
    && n <= |f|
    && (forall i :: 0 <= i < n ==> 0 <= f[i] < n)
    && (forall i, j :: 0 <= i < j < n ==> f[i] != f[j])
  }

  lemma PermUpToRearranged(f: seq<int>, g: seq<int>, n: nat, lo: int, hi: int)
    requires PermUpTo(g, n) && Rearranged(f, g, lo, hi) && hi <= n
    ensures PermUpTo(f, n)
  {
    RearrangedPrefix(f, g, lo, hi, n);
    assert forall i :: 0 <= i < n ==> f[i] == f[..n][i] && g[i] == g[..n][i];
    RearrangedPerm(f[..n], g[..n], lo, hi);
  }
}
