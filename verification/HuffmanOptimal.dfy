/** The codes of joined trees are optimal: no lengths that meet the Kraft inequality take fewer bits in all.

    Lengths are carried over from the leaves to the roots of the forest as it grows.  When the two lightest roots are
    joined, they can first be given the longest codes, of one length, at no cost; their common parent then takes a code
    that is one bit shorter.
 */
module HuffmanOptimal {
  import opened Bits
  import opened HuffmanCodes
  import opened HuffmanTree

  /** How many bits `w[i]` occurrences of every symbol `i` take in all. */
  function Cost(w: seq<nat>, len: seq<nat>): nat
    requires |w| == |len|
  {
    if len == [] then 0
    else
      var k := |len| - 1;
      Cost(w[..k], len[..k]) + w[k] * len[k]
  }

  /** A decodable code that takes no more bits than any other. */
  ghost predicate Optimal(w: seq<nat>, len: seq<nat>) {
    && |w| == |len| && Decodable(len)
    && forall other :: |other| == |w| && Decodable(other) ==> Cost(w, len) <= Cost(w, other)
  }

  // ----- Sums over the roots.

  function SetSum(s: set<int>, val: seq<nat>, k: nat): nat
    requires k < |val|
  {
    if k == 0 then 0 else SetSum(s, val, k - 1) + if k in s then val[k] else 0
  }

  lemma {:induction false} SetSumAgree(s: set<int>, val: seq<nat>, val': seq<nat>, k: nat)
    requires k < |val| && k < |val'| && forall i :: i in s && 1 <= i <= k ==> val[i] == val'[i]
    ensures SetSum(s, val, k) == SetSum(s, val', k)
  {
    if k > 0 {
      SetSumAgree(s, val, val', k - 1);
    }
  }

  lemma {:induction false} SetSumWithout(s: set<int>, val: seq<nat>, x: nat, k: nat)
    requires x in s && 1 <= x && k < |val|
    ensures SetSum(s, val, k) == SetSum(s - {x}, val, k) + if x <= k then val[x] else 0
    decreases k
  {
    if k > 0 {
      SetSumWithout(s, val, x, k - 1);
    }
  }

  lemma SetSumTwo(s: set<int>, val: seq<nat>, x: nat, y: nat, k: nat)
    requires x in s && y in s && x != y && 1 <= x <= k && 1 <= y <= k < |val|
    ensures SetSum(s, val, k) == SetSum(s - {x} - {y}, val, k) + val[x] + val[y]
  {
    SetSumWithout(s, val, x, k);
    SetSumWithout(s - {x}, val, y, k);
  }

  lemma {:induction false} SetSumScale(s: set<int>, val: seq<nat>, val': seq<nat>, d: nat, k: nat)
    requires k < |val| && k < |val'| && forall i :: i in s && 1 <= i <= k ==> val'[i] == Scale(val[i], d)
    ensures SetSum(s, val', k) == Scale(SetSum(s, val, k), d)
    decreases k
  {
    if k == 0 {
      ScaleAdd(0, 0, d);
    } else {
      SetSumScale(s, val, val', d, k - 1);
      ScaleAdd(SetSum(s, val, k - 1), if k in s then val[k] else 0, d);
      ScaleAdd(0, 0, d);
    }
  }

  // ----- Lengths for the roots.

  /** The shares of the code space, at scale `top`. */
  function ShareOf(r: seq<nat>, top: nat): (val: seq<nat>)
    ensures |val| == |r| && forall i :: 0 <= i < |r| && r[i] <= top ==> val[i] == Pow2(top - r[i])
  {
    seq(|r|, i requires 0 <= i < |r| => if r[i] <= top then Pow2(top - r[i]) else 0)
  }

  function CostOf(wt: seq<nat>, r: seq<nat>): (val: seq<nat>)
    requires |r| <= |wt|
    ensures |val| == |r| && forall i :: 0 <= i < |r| ==> val[i] == wt[i] * r[i]
  {
    seq(|r|, i requires 0 <= i < |r| => wt[i] * r[i])
  }

  /** Lengths for the roots among the nodes 1..n that meet the Kraft inequality. */
  ghost predicate Fits(roots: set<int>, n: nat, r: seq<nat>, top: nat) {
    && |r| == n + 1 && (forall i :: i in roots ==> 1 <= i <= n && r[i] <= top)
    && SetSum(roots, ShareOf(r, top), n) <= Pow2(top)
  }

  ghost function RootCost(roots: set<int>, n: nat, wt: seq<nat>, r: seq<nat>): nat
    requires n + 1 == |r| <= |wt|
  {
    SetSum(roots, CostOf(wt, r), n)
  }

  lemma ExchangeCost(u: nat, v: nat, p: nat, q: nat)
    requires u <= v && p <= q
    ensures u * q + v * p <= u * p + v * q
  {
    assert (v - u) * (q - p) >= 0;
  }

  /** Exchanges the lengths of a light root and a root with a longer code. */
  lemma Exchange(roots: set<int>, n: nat, wt: seq<nat>, r: seq<nat>, top: nat, a: nat, z: nat) returns (r': seq<nat>)
    requires Fits(roots, n, r, top) && n < |wt| && a in roots && z in roots && a != z && wt[a] <= wt[z] && r[a] <= r[z]
    ensures r' == r[a := r[z]][z := r[a]] && Fits(roots, n, r', top) && RootCost(roots, n, wt, r') <= RootCost(roots, n, wt, r)
  {
    hide Pow2;
    r' := r[a := r[z]][z := r[a]];
    var v, v' := ShareOf(r, top), ShareOf(r', top);
    var c, c' := CostOf(wt, r), CostOf(wt, r');
    var rest := roots - {a} - {z};
    SetSumTwo(roots, v, a, z, n);
    SetSumTwo(roots, v', a, z, n);
    SetSumAgree(rest, v, v', n);
    SetSumTwo(roots, c, a, z, n);
    SetSumTwo(roots, c', a, z, n);
    SetSumAgree(rest, c, c', n);
    ExchangeCost(wt[a], wt[z], r[a], r[z]);
  }

  /** A root among the nodes 1..k with a longest code, or 0 if there is none. */
  lemma {:induction false} Longest(s: set<int>, r: seq<nat>, k: nat) returns (z: nat)
    requires k < |r|
    ensures z == 0 || (z in s && 1 <= z <= k)
    ensures forall i :: i in s && 1 <= i <= k ==> z != 0 && r[i] <= r[z]
    decreases k
  {
    z := 0;
    if k > 0 {
      z := Longest(s, r, k - 1);
      if k in s && (z == 0 || r[z] < r[k]) {
        z := k;
      }
    }
  }

  /** Gives the light root `a` a code no shorter than those of the roots in `others`. */
  lemma Lengthen(roots: set<int>, n: nat, wt: seq<nat>, r: seq<nat>, top: nat, a: nat, others: set<int>) returns (r': seq<nat>)
    requires Fits(roots, n, r, top) && n < |wt| && a in roots && a !in others && others <= roots
    requires forall z :: z in others ==> wt[a] <= wt[z]
    ensures Fits(roots, n, r', top) && RootCost(roots, n, wt, r') <= RootCost(roots, n, wt, r)
    ensures forall z :: z in others ==> r'[z] <= r'[a]
    ensures forall i :: i in roots && i != a && i !in others ==> r'[i] == r[i]
    ensures forall i :: i in others ==> exists j :: (j == a || j in others) && r'[i] == r[j]
    ensures forall i :: i in others ==> r'[i] <= r[i]
  {
    hide RootCost, SetSum;
    r' := r;
    var z := Longest(others, r, n);
    if z != 0 && r[a] < r[z] {
      r' := Exchange(roots, n, wt, r, top, a, z);
    }
  }

  /** Shares at a smaller scale. */
  lemma Rescaled(s: set<int>, n: nat, r: seq<nat>, top: nat, lo: nat)
    requires |r| == n + 1 && lo <= top && forall i :: i in s ==> 1 <= i <= n && r[i] <= lo
    ensures SetSum(s, ShareOf(r, top), n) == Scale(SetSum(s, ShareOf(r, lo), n), top - lo)
  {
    forall i | i in s && 1 <= i <= n
      ensures ShareOf(r, top)[i] == Scale(ShareOf(r, lo)[i], top - lo)
    {
      ScaleScale(1, lo - r[i], top - lo);
    }
    SetSumScale(s, ShareOf(r, lo), ShareOf(r, top), top - lo, n);
  }

  lemma ScaledBelow(x: nat, lo: nat, top: nat, extra: nat)
    requires lo <= top && Scale(x, top - lo) + extra <= Pow2(top)
    ensures x <= Pow2(lo) && (extra > 0 ==> x < Pow2(lo))
  {
    ScaleScale(1, lo, top - lo);
    ScaleMono(x, Pow2(lo), top - lo);
    ScaleMono(Pow2(lo), x, top - lo);
  }

  /** When the roots `a` and `b` have longest codes, the longer one can be cut to the length of the other: what the rest
      takes of the code space is a multiple of the share of such a code, so there is room for one more. */
  lemma Level(roots: set<int>, n: nat, r: seq<nat>, top: nat, hi: nat, lo: nat)
    requires Fits(roots, n, r, top) && hi in roots && lo in roots && hi != lo && r[lo] <= r[hi]
    requires forall z :: z in roots && z != hi ==> r[z] <= r[lo]
    ensures Fits(roots, n, r[hi := r[lo]], r[lo])
  {
    hide Pow2;
    var l, r', rest := r[lo], r[hi := r[lo]], roots - {hi};
    var v, v' := ShareOf(r, top), ShareOf(r', l);
    SetSumWithout(roots, v, hi, n);
    SetSumWithout(roots, v', hi, n);
    SetSumAgree(rest, ShareOf(r, l), v', n);
    Rescaled(rest, n, r, top, l);
    Pow2Mono(0, top - r[hi]);
    ScaledBelow(SetSum(rest, v', n), l, top, v[hi]);
    SmallPowers();
    assert v'[hi] == 1;
  }

  lemma SmallPowers()
    ensures Pow2(0) == 1 && Pow2(1) == 2
  {
  }

  lemma MulMono(u: nat, p: nat, q: nat)
    requires p <= q
    ensures u * p <= u * q
  {
  }

  lemma LevelCost(roots: set<int>, n: nat, wt: seq<nat>, r: seq<nat>, hi: nat, l: nat)
    requires n + 1 == |r| <= |wt| && hi in roots && 1 <= hi <= n && l <= r[hi]
    ensures RootCost(roots, n, wt, r[hi := l]) <= RootCost(roots, n, wt, r)
  {
    var r' := r[hi := l];
    SetSumWithout(roots, CostOf(wt, r), hi, n);
    SetSumWithout(roots, CostOf(wt, r'), hi, n);
    SetSumAgree(roots - {hi}, CostOf(wt, r), CostOf(wt, r'), n);
    MulMono(wt[hi], l, r[hi]);
  }

  /** The two lightest roots can be given the longest codes, of one length. */
  lemma LightestDeepest(roots: set<int>, n: nat, wt: seq<nat>, r: seq<nat>, top: nat, a: nat, b: nat)
    returns (r': seq<nat>, l: nat)
    requires Fits(roots, n, r, top) && n < |wt| && a in roots && b in roots && a != b
    requires forall z :: z in roots && z != a && z != b ==> wt[a] <= wt[z] && wt[b] <= wt[z]
    ensures Fits(roots, n, r', l) && r'[a] == r'[b] == l && RootCost(roots, n, wt, r') <= RootCost(roots, n, wt, r)
  {
    hide RootCost, SetSum, Pow2;
    var others := roots - {a} - {b};
    var r1 := Lengthen(roots, n, wt, r, top, a, others);
    var r2 := Lengthen(roots, n, wt, r1, top, b, others);
    var hi, lo := if r2[a] >= r2[b] then a else b, if r2[a] >= r2[b] then b else a;
    l := r2[lo];
    r' := r2[hi := l];
    Level(roots, n, r2, top, hi, lo);
    LevelCost(roots, n, wt, r2, hi, l);
  }

  /** Two roots of one length at the scale of that length are replaced by their parent, with a code that is shorter by one. */
  lemma Merge(roots: set<int>, n: nat, wt: seq<nat>, r: seq<nat>, l: nat, a: nat, b: nat)
    requires Fits(roots, n, r, l) && a in roots && b in roots && a != b && r[a] == r[b] == l && n + 1 < |wt|
    requires wt[n + 1] == wt[a] + wt[b]
    ensures l >= 1 && Fits(roots - {a, b} + {n + 1}, n + 1, r + [l - 1], l)
    ensures RootCost(roots - {a, b} + {n + 1}, n + 1, wt, r + [l - 1]) + wt[a] + wt[b] == RootCost(roots, n, wt, r)
  {
    hide Pow2;
    var v, rest, t := ShareOf(r, l), roots - {a} - {b}, n + 1;
    SetSumTwo(roots, v, a, b, n);
    SmallPowers();
    assert l >= 1;
    var roots', r' := roots - {a, b} + {t}, r + [l - 1];
    var v' := ShareOf(r', l);
    assert roots' - {t} == rest && t !in roots;
    SetSumWithout(roots', v', t, t);
    SetSumAgree(rest, v, v', n);
    assert v'[t] == Pow2(1);
    SetSumTwo(roots, CostOf(wt, r), a, b, n);
    SetSumWithout(roots', CostOf(wt, r'), t, t);
    SetSumAgree(rest, CostOf(wt, r), CostOf(wt, r'), n);
    MergeCost(wt[a], wt[b], l);
  }

  lemma MergeCost(u: nat, v: nat, l: nat)
    requires l >= 1
    ensures (u + v) * (l - 1) + u + v == u * l + v * l
  {
  }

  // ----- Growing forests.

  /** What joining has cost so far below node `t`: the weights of the inner nodes there. */
  ghost function Inside(f: Forest, roots: set<int>, t: nat): nat
    requires Linked(f, roots) && 1 <= t <= f.n
  {
    if t <= f.alpha then 0
    else
      assert KidsOk(f, t);
      Inside(f, roots, f.ka[t]) + Inside(f, roots, f.kb[t]) + f.wt[t]
  }

  ghost function Insides(f: Forest, roots: set<int>): (val: seq<nat>)
    requires Linked(f, roots)
    ensures |val| == f.n + 1 && forall k :: 1 <= k <= f.n ==> val[k] == Inside(f, roots, k)
  {
    seq(f.n + 1, k requires 0 <= k <= f.n => if k == 0 then 0 else Inside(f, roots, k))
  }

  /** The leaf weights of the forest, from symbol 0. */
  function LeafWeightsOf(wt: seq<nat>, alpha: nat): (w: seq<nat>)
    requires alpha < |wt|
  {
    wt[1..alpha + 1]
  }

  /** Every code for the leaves takes at least as many bits as some lengths for the roots, and what is inside the trees. */
  ghost predicate Carried(f: Forest, roots: set<int>, len: seq<nat>)
    requires Linked(f, roots) && |len| == f.alpha
  {
    exists r, top ::
      && Fits(roots, f.n, r, top)
      && RootCost(roots, f.n, f.wt, r) + SetSum(roots, Insides(f, roots), f.n) <= Cost(LeafWeightsOf(f.wt, f.alpha), len)
  }

  ghost predicate Frugal(f: Forest, roots: set<int>)
    requires Linked(f, roots)
  {
    forall len :: |len| == f.alpha && Decodable(len) ==> Carried(f, roots, len)
  }

  // The leaves alone.

  lemma {:induction false} LeavesKraft(roots: set<int>, len: seq<nat>, top: nat, r: seq<nat>, k: nat)
    requires k <= |len| && r == [0] + len && (forall i :: 1 <= i <= k ==> i in roots) && forall i :: 0 <= i < |len| ==> len[i] <= top
    ensures SetSum(roots, ShareOf(r, top), k) == Kraft(len[..k], top)
    decreases k
  {
    if k > 0 {
      LeavesKraft(roots, len, top, r, k - 1);
      assert len[..k][..k - 1] == len[..k - 1];
    }
  }

  lemma {:induction false} LeavesCost(roots: set<int>, wt: seq<nat>, len: seq<nat>, r: seq<nat>, k: nat)
    requires k <= |len| < |wt| && r == [0] + len && forall i :: 1 <= i <= k ==> i in roots
    ensures SetSum(roots, CostOf(wt, r), k) == Cost(wt[1..k + 1], len[..k])
    decreases k
  {
    if k > 0 {
      LeavesCost(roots, wt, len, r, k - 1);
      assert len[..k][..k - 1] == len[..k - 1] && wt[1..k + 1][..k - 1] == wt[1..k];
    }
  }

  lemma {:induction false} NothingInside(f: Forest, roots: set<int>, k: nat)
    requires Linked(f, roots) && f.n == f.alpha && k <= f.n
    ensures SetSum(roots, Insides(f, roots), k) == 0
    decreases k
  {
    if k > 0 {
      NothingInside(f, roots, k - 1);
    }
  }

  lemma LeavesFrugal(f: Forest, roots: set<int>)
    requires Linked(f, roots) && f.n == f.alpha && forall k :: 1 <= k <= f.alpha ==> k in roots
    ensures Frugal(f, roots)
  {
    forall len | |len| == f.alpha && Decodable(len)
      ensures Carried(f, roots, len)
    {
      var top :| KraftHolds(len, top);
      var r := [0] + len;
      assert len[..f.alpha] == len;
      LeavesKraft(roots, len, top, r, f.alpha);
      LeavesCost(roots, f.wt, len, r, f.alpha);
      NothingInside(f, roots, f.alpha);
      assert Fits(roots, f.n, r, top);
    }
  }

  // A join.

  lemma {:induction false} InsideStays(f: Forest, roots: set<int>, a: nat, b: nat, t: nat)
    requires Joining(f, roots, a, b) && 1 <= t <= f.n
    ensures Linked(Join(f, roots, a, b), JoinedRoots(f, roots, a, b))
    ensures Inside(Join(f, roots, a, b), JoinedRoots(f, roots, a, b), t) == Inside(f, roots, t)
    decreases t
  {
    JoinLinked(f, roots, a, b);
    if t > f.alpha {
      assert KidsOk(f, t);
      InsideStays(f, roots, a, b, f.ka[t]);
      InsideStays(f, roots, a, b, f.kb[t]);
    }
  }

  lemma InsideJoined(f: Forest, roots: set<int>, a: nat, b: nat)
    requires Joining(f, roots, a, b)
    ensures var g, roots' := Join(f, roots, a, b), JoinedRoots(f, roots, a, b);
            Linked(g, roots') &&
            SetSum(roots', Insides(g, roots'), g.n) == SetSum(roots, Insides(f, roots), f.n) + f.wt[a] + f.wt[b]
  {
    JoinLinked(f, roots, a, b);
    var g, roots' := Join(f, roots, a, b), JoinedRoots(f, roots, a, b);
    var v, v', t, rest := Insides(f, roots), Insides(g, roots'), g.n, roots - {a} - {b};
    forall i | 1 <= i <= f.n
      ensures v'[i] == v[i]
    {
      InsideStays(f, roots, a, b, i);
    }
    assert roots' - {t} == rest && t !in roots;
    SetSumTwo(roots, v, a, b, f.n);
    SetSumWithout(roots', v', t, t);
    SetSumAgree(rest, v, v', f.n);
  }

  lemma JoinFrugal(f: Forest, roots: set<int>, a: nat, b: nat)
    requires Joining(f, roots, a, b) && Frugal(f, roots)
    ensures Linked(Join(f, roots, a, b), JoinedRoots(f, roots, a, b))
    ensures Frugal(Join(f, roots, a, b), JoinedRoots(f, roots, a, b))
  {
    JoinLinked(f, roots, a, b);
    var g, roots' := Join(f, roots, a, b), JoinedRoots(f, roots, a, b);
    forall len | |len| == g.alpha && Decodable(len)
      ensures Carried(g, roots', len)
    {
      assert Carried(f, roots, len);
      JoinCarried(f, roots, a, b, len);
    }
  }

  lemma JoinFacts(f: Forest, roots: set<int>, a: nat, b: nat)
    requires Joining(f, roots, a, b)
    ensures var g := Join(f, roots, a, b);
            && f.alpha <= f.n && g.n == f.n + 1 < |f.wt| == |g.wt| && g.alpha == f.alpha
            && g.wt[g.n] == g.wt[a] + g.wt[b] && g.wt[a] == f.wt[a] && g.wt[b] == f.wt[b]
            && (forall i :: 0 <= i <= f.n ==> g.wt[i] == f.wt[i])
            && LeafWeightsOf(g.wt, g.alpha) == LeafWeightsOf(f.wt, f.alpha)
    ensures forall z :: z in roots && z != a && z != b ==> 1 <= z <= f.n && f.wt[a] <= f.wt[z] && f.wt[b] <= f.wt[z]
    ensures 1 <= a <= f.n && 1 <= b <= f.n && a != b && a in roots && b in roots
  {
  }

  lemma JoinCarried(f: Forest, roots: set<int>, a: nat, b: nat, len: seq<nat>)
    requires Joining(f, roots, a, b) && |len| == f.alpha && Carried(f, roots, len)
    ensures Linked(Join(f, roots, a, b), JoinedRoots(f, roots, a, b))
    ensures Carried(Join(f, roots, a, b), JoinedRoots(f, roots, a, b), len)
  {
    hide SetSum, ShareOf, RootCost;
    JoinLinked(f, roots, a, b);
    InsideJoined(f, roots, a, b);
    JoinFacts(f, roots, a, b);
    hide Cost, Linked, Joining, Join, LeafWeightsOf, SetSum, CostOf, ShareOf;
    var g, roots' := Join(f, roots, a, b), JoinedRoots(f, roots, a, b);
    var r, top :| Fits(roots, f.n, r, top)
                  && RootCost(roots, f.n, f.wt, r) + SetSum(roots, Insides(f, roots), f.n) <= Cost(LeafWeightsOf(f.wt, f.alpha), len);
    var r', l := LightestDeepest(roots, f.n, f.wt, r, top, a, b);
    SameCost(roots, f.n, f.wt, g.wt, r');
    Merge(roots, f.n, g.wt, r', l, a, b);
    assert Fits(roots', g.n, r' + [l - 1], l);
  }

  lemma SameCost(roots: set<int>, n: nat, wt: seq<nat>, wt': seq<nat>, r: seq<nat>)
    requires n + 1 == |r| <= |wt| && |r| <= |wt'| && forall i :: 0 <= i <= n ==> wt[i] == wt'[i]
    ensures RootCost(roots, n, wt, r) == RootCost(roots, n, wt', r)
  {
    assert CostOf(wt, r) == CostOf(wt', r);
  }

  // The finished tree.

  /** Weight times depth, and what is inside: adds up. */
  ghost function Totals(f: Forest, roots: set<int>): (val: seq<nat>)
    requires Linked(f, roots)
    ensures |val| == f.n + 1
    ensures forall k :: 1 <= k <= f.n ==> val[k] == f.wt[k] * Depth(f, roots, k) + Inside(f, roots, k)
  {
    seq(f.n + 1, k requires 0 <= k <= f.n => if k == 0 then 0 else f.wt[k] * Depth(f, roots, k) + Inside(f, roots, k))
  }

  lemma TotalsAdditive(f: Forest, roots: set<int>)
    requires Weighed(f, roots)
    ensures Additive(f, roots, Totals(f, roots))
  {
    var val := Totals(f, roots);
    forall t | f.alpha < t <= f.n
      ensures KidsOk(f, t) && val[t] == val[f.ka[t]] + val[f.kb[t]]
    {
      assert KidsOk(f, t) && SumOk(f, t);
      var d := Depth(f, roots, t);
      assert Depth(f, roots, f.ka[t]) == d + 1 && Depth(f, roots, f.kb[t]) == d + 1;
      Distribute(f.wt[f.ka[t]], f.wt[f.kb[t]], d);
    }
  }

  lemma Distribute(u: nat, v: nat, d: nat)
    ensures u * (d + 1) + v * (d + 1) == (u + v) * d + (u + v)
  {
  }

  lemma {:induction false} LeafTotals(f: Forest, roots: set<int>, k: nat)
    requires Linked(f, roots) && k <= f.alpha
    ensures LeafSum(Totals(f, roots), k) == Cost(f.wt[1..k + 1], Lengths(f, roots)[..k])
    decreases k
  {
    if k > 0 {
      LeafTotals(f, roots, k - 1);
      var len := Lengths(f, roots);
      assert len[..k][..k - 1] == len[..k - 1] && f.wt[1..k + 1][..k - 1] == f.wt[1..k];
    }
  }

  /** The bits all symbols take under the code of the tree are the weights of its inner nodes. */
  lemma TreeCost(f: Forest, roots: set<int>)
    requires Weighed(f, roots) && roots == {f.n}
    ensures Cost(LeafWeightsOf(f.wt, f.alpha), Lengths(f, roots)) == SetSum(roots, Insides(f, roots), f.n)
  {
    hide Weighed;
    TotalsAdditive(f, roots);
    RootSum(f, roots, Totals(f, roots), f.n);
    LeafTotals(f, roots, f.alpha);
    assert Lengths(f, roots)[..f.alpha] == Lengths(f, roots);
    assert ParentOk(f, roots, f.n) && Depth(f, roots, f.n) == 0;
    SetSumWithout(roots, Insides(f, roots), f.n, f.n);
    NoRoots(roots - {f.n}, Insides(f, roots), f.n);
  }

  lemma {:induction false} NoRoots(s: set<int>, val: seq<nat>, k: nat)
    requires s == {} && k < |val|
    ensures SetSum(s, val, k) == 0
  {
    if k > 0 {
      NoRoots(s, val, k - 1);
    }
  }

  /** A code that uses up the code space can be decoded. */
  lemma TreeDecodable(f: Forest, roots: set<int>)
    requires Linked(f, roots) && roots == {f.n}
    ensures Decodable(Lengths(f, roots))
  {
    TreeKraft(f, roots);
    assert KraftHolds(Lengths(f, roots), f.n);
  }

  /** The lengths read off a finished tree are optimal for its leaf weights. */
  lemma TreeOptimal(f: Forest, roots: set<int>)
    requires Weighed(f, roots) && roots == {f.n} && Frugal(f, roots)
    ensures Optimal(LeafWeightsOf(f.wt, f.alpha), Lengths(f, roots))
  {
    hide Cost, SumOk, Depth, Inside;
    TreeDecodable(f, roots);
    TreeCost(f, roots);
    forall other | |other| == f.alpha && Decodable(other)
      ensures Cost(LeafWeightsOf(f.wt, f.alpha), Lengths(f, roots)) <= Cost(LeafWeightsOf(f.wt, f.alpha), other)
    {
      assert Carried(f, roots, other);
    }
  }

  // ----- What optimal means for two symbols.

  lemma {:induction false} CostAt(w: seq<nat>, len: seq<nat>, i: nat, x: nat)
    requires |w| == |len| && i < |len|
    ensures Cost(w, len[i := x]) + w[i] * len[i] == Cost(w, len) + w[i] * x
    decreases |len|
  {
    var k := |len| - 1;
    if i == k {
      assert len[i := x][..k] == len[..k];
    } else {
      CostAt(w[..k], len[..k], i, x);
      assert len[i := x][..k] == len[..k][i := x];
    }
  }

  lemma {:induction false} KraftAt(len: seq<nat>, top: nat, i: nat, x: nat)
    requires (forall j :: 0 <= j < |len| ==> len[j] <= top) && i < |len| && x <= top
    ensures Kraft(len[i := x], top) + Pow2(top - len[i]) == Kraft(len, top) + Pow2(top - x)
    decreases |len|
  {
    hide Pow2;
    var k := |len| - 1;
    if i == k {
      assert len[i := x][..k] == len[..k];
    } else {
      KraftAt(len[..k], top, i, x);
      assert len[i := x][..k] == len[..k][i := x];
    }
  }

  /** A symbol that occurs more often never has the longer code. */
  lemma FrequentIsShort(w: seq<nat>, len: seq<nat>, i: nat, j: nat)
    requires Optimal(w, len) && i < |w| && j < |w| && w[i] > w[j]
    ensures len[i] <= len[j]
  {
    hide Cost, Kraft, Pow2;
    var top :| KraftHolds(len, top);
    var one := len[i := len[j]];
    var other := one[j := len[i]];
    KraftAt(len, top, i, len[j]);
    KraftAt(one, top, j, len[i]);
    CostAt(w, len, i, len[j]);
    CostAt(w, one, j, len[i]);
    assert KraftHolds(other, top);
    if len[i] > len[j] {
      Strictly(w[i], w[j], len[i], len[j]);
    }
  }

  lemma Strictly(u: nat, v: nat, p: nat, q: nat)
    requires u > v && p > q
    ensures u * q + v * p < u * p + v * q
  {
    assert (u - v) * (p - q) > 0;
  }
}
