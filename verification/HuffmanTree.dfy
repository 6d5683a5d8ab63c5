/** What the tree-building loop of the code-length computation keeps, and what follows for the finished tree.

    Nodes 1..alpha are the leaves, later nodes are made by joining two lightest roots.  A packed weight is
    256 * weight + height; joining adds the weights and puts 1 + the larger height below them.
 */
module HuffmanTree {
  import opened Bits
  import opened HuffmanCodes

  /** The nodes 1..n so far: parents, weights, heights, and the two children of every inner node. */
  datatype Forest = Forest(alpha: nat, n: nat, par: seq<int>, wt: seq<nat>, ht: seq<nat>, ka: seq<nat>, kb: seq<nat>)

  /** The least weight of a tree of the given height. */
  function Fib(h: nat): (r: nat)
    ensures r >= 1
  {
    if h == 0 then 1 else if h == 1 then 2 else Fib(h - 1) + Fib(h - 2)
  }

  lemma {:induction false} FibMono(g: nat, h: nat)
    requires g <= h
    ensures Fib(g) <= Fib(h)
  {
    if g < h {
      FibMono(g, h - 1);
    }
  }

  /** There is room for `m` nodes. */
  ghost predicate Sized(f: Forest, m: nat) {
    m < |f.par| && m < |f.wt| && m < |f.ht| && m < |f.ka| && m < |f.kb|
  }

  ghost predicate ParentOk(f: Forest, roots: set<int>, k: nat)
    requires Sized(f, f.n) && 1 <= k <= f.n
  {
    if k in roots then f.par[k] == -1
    else k < f.par[k] <= f.n && f.alpha < f.par[k] && (f.ka[f.par[k]] == k || f.kb[f.par[k]] == k)
  }

  ghost predicate KidsOk(f: Forest, t: nat)
    requires Sized(f, f.n) && 1 <= t <= f.n
  {
    1 <= f.ka[t] < t && 1 <= f.kb[t] < t && f.ka[t] != f.kb[t] && f.par[f.ka[t]] == t && f.par[f.kb[t]] == t
  }

  /** Parents and children agree. */
  ghost predicate Linked(f: Forest, roots: set<int>) {
    && Sized(f, f.n) && 1 <= f.alpha <= f.n
    && (forall k :: k in roots ==> 1 <= k <= f.n)
    && (forall k :: 1 <= k <= f.n ==> ParentOk(f, roots, k))
    && (forall t :: f.alpha < t <= f.n ==> KidsOk(f, t))
  }

  /** Weights add up and heights grow by one. */
  ghost predicate SumOk(f: Forest, t: nat)
    requires Sized(f, f.n) && 1 <= t <= f.n && KidsOk(f, t)
  {
    && f.wt[t] == f.wt[f.ka[t]] + f.wt[f.kb[t]]
    && f.ht[t] == 1 + if f.ht[f.ka[t]] > f.ht[f.kb[t]] then f.ht[f.ka[t]] else f.ht[f.kb[t]]
  }

  /** ... and a tree weighs at least as much as its height demands; roots are at least as heavy as inner nodes. */
  ghost predicate Weighed(f: Forest, roots: set<int>) {
    && Linked(f, roots)
    && (forall k :: 1 <= k <= f.alpha ==> f.wt[k] >= 1 && f.ht[k] == 0)
    && (forall t :: f.alpha < t <= f.n ==> SumOk(f, t))
    && (forall t :: 1 <= t <= f.n ==> f.wt[t] >= Fib(f.ht[t]))
    && (forall x, r :: 1 <= x <= f.n && x !in roots && r in roots ==> f.wt[x] <= f.wt[r])
  }

  /** The situation in which the loop joins the roots `a` and `b`: they are lightest ones. */
  ghost predicate Joining(f: Forest, roots: set<int>, a: nat, b: nat) {
    && Weighed(f, roots) && Sized(f, f.n + 1)
    && a in roots && b in roots && a != b
    && forall r :: r in roots && r != a && r != b ==> f.wt[a] <= f.wt[r] && f.wt[b] <= f.wt[r]
  }

  ghost function Join(f: Forest, roots: set<int>, a: nat, b: nat): Forest
    requires Joining(f, roots, a, b)
  {
    var t := f.n + 1;
    Forest(f.alpha, t, f.par[a := t][b := t][t := -1], f.wt[t := f.wt[a] + f.wt[b]],
           f.ht[t := 1 + if f.ht[a] > f.ht[b] then f.ht[a] else f.ht[b]], f.ka[t := a], f.kb[t := b])
  }

  ghost function JoinedRoots(f: Forest, roots: set<int>, a: nat, b: nat): set<int> {
    roots - {a, b} + {f.n + 1}
  }

  lemma JoinParent(f: Forest, roots: set<int>, a: nat, b: nat, k: nat)
    requires Joining(f, roots, a, b) && 1 <= k <= f.n + 1
    ensures ParentOk(Join(f, roots, a, b), JoinedRoots(f, roots, a, b), k)
  {
    if k <= f.n {
      assert ParentOk(f, roots, k);
    }
  }

  lemma JoinKids(f: Forest, roots: set<int>, a: nat, b: nat, t: nat)
    requires Joining(f, roots, a, b) && f.alpha < t <= f.n + 1
    ensures KidsOk(Join(f, roots, a, b), t)
    ensures t <= f.n ==> SumOk(Join(f, roots, a, b), t)
  {
    assert ParentOk(f, roots, a) && ParentOk(f, roots, b);
    if t <= f.n {
      assert KidsOk(f, t) && SumOk(f, t);
    }
  }

  lemma JoinLinked(f: Forest, roots: set<int>, a: nat, b: nat)
    requires Joining(f, roots, a, b)
    ensures Linked(Join(f, roots, a, b), JoinedRoots(f, roots, a, b))
  {
    forall k | 1 <= k <= f.n + 1
      ensures ParentOk(Join(f, roots, a, b), JoinedRoots(f, roots, a, b), k)
    {
      JoinParent(f, roots, a, b, k);
    }
    forall t | f.alpha < t <= f.n + 1
      ensures KidsOk(Join(f, roots, a, b), t)
    {
      JoinKids(f, roots, a, b, t);
    }
  }

  /** A new tree is heavy enough for its height: the root joined with is at least as heavy as the children
      of the higher one. */
  lemma JoinHeavy(f: Forest, roots: set<int>, high: nat, low: nat)
    requires Weighed(f, roots) && high in roots && low in roots
    ensures f.wt[high] + f.wt[low] >= Fib(1 + f.ht[high])
  {
    if f.ht[high] == 0 {
      assert f.wt[low] >= Fib(f.ht[low]);
    } else {
      assert KidsOk(f, high) && SumOk(f, high);
      var c := if f.ht[f.ka[high]] > f.ht[f.kb[high]] then f.ka[high] else f.kb[high];
      assert ParentOk(f, roots, c);
      assert f.wt[c] >= Fib(f.ht[c]);
      assert f.wt[c] <= f.wt[low];
    }
  }

  lemma JoinFib(f: Forest, roots: set<int>, a: nat, b: nat, t: nat)
    requires Joining(f, roots, a, b) && 1 <= t <= f.n + 1
    ensures Join(f, roots, a, b).wt[t] >= Fib(Join(f, roots, a, b).ht[t])
  {
    hide Fib;
    JoinHeavy(f, roots, a, b);
    JoinHeavy(f, roots, b, a);
  }

  lemma JoinOrder(f: Forest, roots: set<int>, a: nat, b: nat, x: nat, r: nat)
    requires Joining(f, roots, a, b) && 1 <= x <= f.n + 1
    requires x !in JoinedRoots(f, roots, a, b) && r in JoinedRoots(f, roots, a, b)
    ensures 1 <= r <= f.n + 1 && Join(f, roots, a, b).wt[x] <= Join(f, roots, a, b).wt[r]
  {
    hide Fib, SumOk, KidsOk, ParentOk;
  }

  lemma JoinWeighed(f: Forest, roots: set<int>, a: nat, b: nat)
    requires Joining(f, roots, a, b)
    ensures Weighed(Join(f, roots, a, b), JoinedRoots(f, roots, a, b))
  {
    var g, roots' := Join(f, roots, a, b), JoinedRoots(f, roots, a, b);
    JoinLinked(f, roots, a, b);
    forall t | f.alpha < t <= g.n
      ensures SumOk(g, t)
    {
      JoinKids(f, roots, a, b, t);
    }
    hide Linked, SumOk, Fib;
    forall t | 1 <= t <= g.n
      ensures g.wt[t] >= Fib(g.ht[t])
    {
      JoinFib(f, roots, a, b, t);
    }
    forall x, r | 1 <= x <= g.n && x !in roots' && r in roots'
      ensures g.wt[x] <= g.wt[r]
    {
      JoinOrder(f, roots, a, b, x, r);
    }
  }

  // ----- Sums over the frontier.

  /** Values that add up like weights: an inner node's is the sum of its children's. */
  ghost predicate Additive(f: Forest, roots: set<int>, val: seq<nat>) {
    && Linked(f, roots) && f.n < |val|
    && forall t :: f.alpha < t <= f.n ==> KidsOk(f, t) && val[t] == val[f.ka[t]] + val[f.kb[t]]
  }

  /** The sum over those of the nodes 1..k that are roots once only the nodes 1..t are considered. */
  ghost function FrontierSum(f: Forest, val: seq<nat>, t: nat, k: nat): nat
    requires Sized(f, f.n) && f.n < |val| && k <= t <= f.n
    decreases k
  {
    if k == 0 then 0
    else FrontierSum(f, val, t, k - 1) + if f.par[k] < 0 || f.par[k] > t then val[k] else 0
  }

  ghost function LeafSum(val: seq<nat>, k: nat): nat
    requires k < |val|
  {
    if k == 0 then 0 else LeafSum(val, k - 1) + val[k]
  }

  lemma {:induction false} FrontierSplit(f: Forest, roots: set<int>, val: seq<nat>, t: nat, k: nat)
    requires Additive(f, roots, val) && f.alpha < t <= f.n && k < t
    ensures FrontierSum(f, val, t - 1, k) ==
            FrontierSum(f, val, t, k) + (if f.ka[t] <= k then val[f.ka[t]] else 0) + (if f.kb[t] <= k then val[f.kb[t]] else 0)
    decreases k
  {
    assert KidsOk(f, t);
    if k > 0 {
      FrontierSplit(f, roots, val, t, k - 1);
      assert ParentOk(f, roots, k);
    }
  }

  /** Undoing a join does not change the sum. */
  lemma {:induction false} FrontierConstant(f: Forest, roots: set<int>, val: seq<nat>, t: nat)
    requires Additive(f, roots, val) && f.alpha <= t <= f.n
    ensures FrontierSum(f, val, t, t) == FrontierSum(f, val, f.alpha, f.alpha)
    decreases t
  {
    if f.alpha < t {
      FrontierConstant(f, roots, val, t - 1);
      FrontierSplit(f, roots, val, t, t - 1);
      assert KidsOk(f, t) && ParentOk(f, roots, t);
    }
  }

  lemma {:induction false} FrontierLeaves(f: Forest, roots: set<int>, val: seq<nat>, k: nat)
    requires Additive(f, roots, val) && k <= f.alpha
    ensures FrontierSum(f, val, f.alpha, k) == LeafSum(val, k)
    decreases k
  {
    if k > 0 {
      FrontierLeaves(f, roots, val, k - 1);
      assert ParentOk(f, roots, k);
    }
  }

  lemma {:induction false} FrontierRoot(f: Forest, roots: set<int>, val: seq<nat>, r: nat, k: nat)
    requires Additive(f, roots, val) && r in roots && k <= f.n
    ensures r <= k ==> FrontierSum(f, val, f.n, k) >= val[r]
    ensures roots == {r} ==> FrontierSum(f, val, f.n, k) == if r <= k then val[r] else 0
    decreases k
  {
    if k > 0 {
      FrontierRoot(f, roots, val, r, k - 1);
      assert ParentOk(f, roots, k);
    }
  }

  /** No root has more than the leaves together, and a single root has exactly that. */
  lemma RootSum(f: Forest, roots: set<int>, val: seq<nat>, r: nat)
    requires Additive(f, roots, val) && r in roots
    ensures val[r] <= LeafSum(val, f.alpha)
    ensures roots == {r} ==> val[r] == LeafSum(val, f.alpha)
  {
    FrontierConstant(f, roots, val, f.n);
    FrontierLeaves(f, roots, val, f.alpha);
    FrontierRoot(f, roots, val, r, f.n);
  }

  lemma WeightsAdditive(f: Forest, roots: set<int>)
    requires Weighed(f, roots)
    ensures Additive(f, roots, f.wt)
  {
    forall t | f.alpha < t <= f.n
      ensures KidsOk(f, t) && f.wt[t] == f.wt[f.ka[t]] + f.wt[f.kb[t]]
    {
      assert SumOk(f, t);
    }
  }

  /** Heights are bounded by the total weight, so they fit into the low byte of a packed weight. */
  lemma HeightBound(f: Forest, roots: set<int>, r: nat, h: nat)
    requires Weighed(f, roots) && r in roots && LeafSum(f.wt, f.alpha) < Fib(h)
    ensures f.ht[r] < h && f.wt[r] <= LeafSum(f.wt, f.alpha)
  {
    WeightsAdditive(f, roots);
    RootSum(f, roots, f.wt, r);
    if h <= f.ht[r] {
      FibMono(h, f.ht[r]);
    }
  }

  // ----- Depths.

  /** The number of steps from node `k` to its root. */
  ghost function Depth(f: Forest, roots: set<int>, k: nat): (d: nat)
    requires Linked(f, roots) && 1 <= k <= f.n
    ensures d <= f.n - k
    decreases f.n - k
  {
    assert ParentOk(f, roots, k);
    if f.par[k] < 0 then 0 else 1 + Depth(f, roots, f.par[k])
  }

  /** A node is at least as far below the root as the heights of the two differ. */
  lemma {:induction false} DepthHeight(f: Forest, roots: set<int>, k: nat)
    requires Weighed(f, roots) && roots == {f.n} && 1 <= k <= f.n
    ensures Depth(f, roots, k) + f.ht[k] <= f.ht[f.n]
    decreases f.n - k
  {
    assert ParentOk(f, roots, k);
    if k != f.n {
      DepthHeight(f, roots, f.par[k]);
      assert SumOk(f, f.par[k]);
    }
  }

  /** A leaf at depth d needs a total weight of at least the d-th Fibonacci number. */
  lemma DeepIsHeavy(f: Forest, roots: set<int>, k: nat)
    requires Weighed(f, roots) && roots == {f.n} && 1 <= k <= f.n
    ensures LeafSum(f.wt, f.alpha) >= Fib(Depth(f, roots, k))
  {
    WeightsAdditive(f, roots);
    RootSum(f, roots, f.wt, f.n);
    DepthHeight(f, roots, k);
    FibMono(Depth(f, roots, k), f.ht[f.n]);
  }

  /** The code length of every symbol: the depth of its leaf. */
  ghost function Lengths(f: Forest, roots: set<int>): (len: seq<nat>)
    requires Linked(f, roots)
    ensures |len| == f.alpha
  {
    seq(f.alpha, i requires 0 <= i < f.alpha => Depth(f, roots, i + 1))
  }

  ghost function Shares(f: Forest, roots: set<int>): (val: seq<nat>)
    requires Linked(f, roots)
    ensures |val| == f.n + 1
  {
    seq(f.n + 1, k requires 0 <= k <= f.n => if k == 0 then 0 else Pow2(f.n - Depth(f, roots, k)))
  }

  lemma SharesAdditive(f: Forest, roots: set<int>)
    requires Linked(f, roots)
    ensures Additive(f, roots, Shares(f, roots))
  {
    var val := Shares(f, roots);
    forall t | f.alpha < t <= f.n
      ensures KidsOk(f, t) && val[t] == val[f.ka[t]] + val[f.kb[t]]
    {
      assert KidsOk(f, t);
      var d := Depth(f, roots, t);
      assert Depth(f, roots, f.ka[t]) == d + 1 && Depth(f, roots, f.kb[t]) == d + 1;
      assert Pow2(f.n - d) == 2 * Pow2(f.n - d - 1);
    }
  }

  lemma {:induction false} SharesAreKraft(f: Forest, roots: set<int>, k: nat)
    requires Linked(f, roots) && k <= f.alpha
    ensures forall i :: 0 <= i < k ==> Lengths(f, roots)[..k][i] <= f.n
    ensures LeafSum(Shares(f, roots), k) == Kraft(Lengths(f, roots)[..k], f.n)
    decreases k
  {
    if k > 0 {
      SharesAreKraft(f, roots, k - 1);
      assert Lengths(f, roots)[..k][..k - 1] == Lengths(f, roots)[..k - 1];
    }
  }

  /** A finished tree uses up the code space exactly. */
  lemma TreeKraft(f: Forest, roots: set<int>)
    requires Linked(f, roots) && roots == {f.n}
    ensures forall i :: 0 <= i < f.alpha ==> Lengths(f, roots)[i] <= f.n
    ensures Kraft(Lengths(f, roots), f.n) == Pow2(f.n)
  {
    SharesAdditive(f, roots);
    RootSum(f, roots, Shares(f, roots), f.n);
    SharesAreKraft(f, roots, f.alpha);
    assert Lengths(f, roots)[..f.alpha] == Lengths(f, roots);
    assert ParentOk(f, roots, f.n);
  }

  lemma {:induction false} KraftScaled(len: seq<nat>, top: nat, top': nat)
    requires top <= top' && forall i :: 0 <= i < |len| ==> len[i] <= top
    ensures Kraft(len, top') == Scale(Kraft(len, top), top' - top)
    decreases |len|
  {
    if len == [] {
      ScaleAdd(0, 0, top' - top);
    } else {
      var k := |len| - 1;
      KraftScaled(len[..k], top, top');
      ScaleAdd(Kraft(len[..k], top), Pow2(top - len[k]), top' - top);
      ScaleScale(1, top - len[k], top' - top);
    }
  }

  lemma ScaledPow2(x: nat, n: nat, n': nat)
    requires n <= n'
    ensures x == Pow2(n) <==> Scale(x, n' - n) == Pow2(n')
  {
    ScaleScale(1, n, n' - n);
    ScaleMono(x, Pow2(n), n' - n);
    ScaleMono(Pow2(n), x, n' - n);
  }

  /** That the code space is used up exactly does not depend on the scale. */
  lemma KraftRescaled(len: seq<nat>, top: nat, top': nat)
    requires top <= top' && forall i :: 0 <= i < |len| ==> len[i] <= top
    ensures Kraft(len, top) == Pow2(top) <==> Kraft(len, top') == Pow2(top')
  {
    var x, y := Kraft(len, top), Kraft(len, top');
    assert y == Scale(x, top' - top) by {
      KraftScaled(len, top, top');
    }
    ScaledPow2(x, top, top');
  }
}
