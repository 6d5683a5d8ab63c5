/** Computing length-limited code lengths from frequencies: build a tree by joining lightest nodes, read the depths of
    its leaves, and start again with scaled-down weights as long as some leaf is too deep.
 */
module HuffmanLengths {
  import opened Permutations
  import opened Arrays
  import opened Bits
  import opened HuffmanCodes
  import opened HuffmanOptimal
  import opened HuffmanTree
  import opened WeightHeap

  const HEAP_SIZE := MAX_ALPHA_SIZE + 2
  const NODES_SIZE := MAX_ALPHA_SIZE * 2
  /** Weights below this fit, shifted by eight bits, into a signed 32-bit word. */
  const MAX_TOTAL := 0x80_0000

  /** ADDWEIGHTS: the low byte of the first operand is clear, so the bitwise or is an addition. */
  function AddWeights(w1: nat, w2: nat): nat {
    w1 / 256 * 256 + w2 / 256 * 256 + 1 + if w1 % 256 > w2 % 256 then w1 % 256 else w2 % 256
  }

  lemma Unpack(a: nat, x: nat)
    requires x < 256
    ensures (256 * a + x) / 256 == a && (256 * a + x) % 256 == x
  {
  }

  lemma AddUnpacked(a: nat, x: nat, b: nat, y: nat)
    requires x < 256 && y < 256
    ensures AddWeights(256 * a + x, 256 * b + y) == 256 * (a + b) + 1 + if x > y then x else y
  {
    Unpack(a, x);
    Unpack(b, y);
  }

  /** The weight array holds weights and heights packed together. */
  ghost predicate Packed(w: seq<nat>, f: Forest) {
    && f.n < |w| && Sized(f, f.n) && w[0] == 0
    && forall k :: 1 <= k <= f.n ==> w[k] == 256 * f.wt[k] + f.ht[k] && f.ht[k] < 256
  }

  /** The state of the joining loop. */
  ghost predicate Building(heap: seq<int>, w: seq<nat>, par: seq<int>, nHeap: nat, f: Forest, roots: set<int>) {
    && |heap| == HEAP_SIZE && |w| == |par| == |f.wt| == |f.ht| == |f.ka| == |f.kb| == NODES_SIZE
    && f.par == par && Weighed(f, roots) && Packed(w, f)
    && IsHeap(heap, w, nHeap, roots) && f.n + nHeap == 2 * f.alpha && f.alpha <= MAX_ALPHA_SIZE
    && LeafSum(f.wt, f.alpha) < MAX_TOTAL && Frugal(f, roots)
  }

  lemma TotalBelowFib() returns (h: nat)
    ensures h < 100 && MAX_TOTAL < Fib(h)
  {
    h := 33;
    assert Fib(2) == 3 && Fib(3) == 5 && Fib(4) == 8 && Fib(5) == 13 && Fib(6) == 21 && Fib(7) == 34 && Fib(8) == 55;
    assert Fib(9) == 89 && Fib(10) == 144 && Fib(11) == 233 && Fib(12) == 377 && Fib(13) == 610 && Fib(14) == 987;
    assert Fib(15) == 1597 && Fib(16) == 2584 && Fib(17) == 4181 && Fib(18) == 6765 && Fib(19) == 10946;
    assert Fib(20) == 17711 && Fib(21) == 28657 && Fib(22) == 46368 && Fib(23) == 75025 && Fib(24) == 121393;
    assert Fib(25) == 196418 && Fib(26) == 317811 && Fib(27) == 514229 && Fib(28) == 832040 && Fib(29) == 1346269;
    assert Fib(30) == 2178309 && Fib(31) == 3524578 && Fib(32) == 5702887 && Fib(33) == 9227465;
  }

  /** Two lightest heap entries are two lightest roots. */
  lemma PoppedAreLightest(w: seq<nat>, f: Forest, roots: set<int>, a: nat, b: nat)
    requires Weighed(f, roots) && Packed(w, f) && a in roots && b in roots && a != b
    requires forall y :: y in roots ==> 0 <= y < |w| && w[a] <= w[y]
    requires forall y :: y in roots - {a} ==> 0 <= y < |w| && w[b] <= w[y]
    requires Sized(f, f.n + 1)
    ensures Joining(f, roots, a, b)
  {
    forall r | r in roots && r != a && r != b
      ensures f.wt[a] <= f.wt[r] && f.wt[b] <= f.wt[r]
    {
      assert w[a] <= w[r] && w[b] <= w[r];
    }
  }

  lemma JoinTotal(f: Forest, roots: set<int>, a: nat, b: nat)
    requires Joining(f, roots, a, b) && LeafSum(f.wt, f.alpha) < MAX_TOTAL
    ensures var g := Join(f, roots, a, b);
            && LeafSum(g.wt, g.alpha) == LeafSum(f.wt, f.alpha)
            && g.wt[g.n] < MAX_TOTAL && g.ht[g.n] < 100
  {
    var g := Join(f, roots, a, b);
    JoinWeighed(f, roots, a, b);
    LeafSumFrame(f.wt, g.wt, f.alpha);
    var h := TotalBelowFib();
    HeightBound(g, JoinedRoots(f, roots, a, b), g.n, h);
  }

  lemma JoinPacked(w: seq<nat>, f: Forest, roots: set<int>, a: nat, b: nat)
    requires Joining(f, roots, a, b) && Packed(w, f) && f.n + 1 < |w| && LeafSum(f.wt, f.alpha) < MAX_TOTAL
    ensures AddWeights(w[a], w[b]) < 0x8000_0000
    ensures Packed(w[f.n + 1 := AddWeights(w[a], w[b])], Join(f, roots, a, b))
  {
    hide AddWeights;
    AddUnpacked(f.wt[a], f.ht[a], f.wt[b], f.ht[b]);
    JoinTotal(f, roots, a, b);
  }

  lemma {:induction false} LeafSumFrame(u: seq<nat>, v: seq<nat>, k: nat)
    requires k < |u| && k < |v| && forall i :: 1 <= i <= k ==> u[i] == v[i]
    ensures LeafSum(u, k) == LeafSum(v, k)
  {
    if k > 0 {
      LeafSumFrame(u, v, k - 1);
    }
  }

  lemma HeapFrame(h: seq<int>, w: seq<nat>, n: nat, s: set<int>, t: nat, x: nat)
    requires IsHeap(h, w, n, s) && t !in s && 0 < t < |w|
    ensures IsHeap(h, w[t := x], n, s)
  {
    forall k | 1 <= k <= n
      ensures h[k] in s
    {
      assert h[1..n + 1][k - 1] == h[k];
    }
    var w' := w[t := x];
    forall k | 2 <= k <= n
      ensures EdgeOk(h, w', k)
    {
      assert EdgeOk(h, w, k);
      assert h[k] in s && h[k / 2] in s;
    }
  }

  method PopTwo(heap: array<int>, weight: array<nat>, nHeap: nat, ghost f: Forest, ghost roots: set<int>, ghost w: seq<nat>)
    returns (n1: int, n2: int)
    requires heap as object != weight && weight[..] == w && nHeap > 1 && Sized(f, f.n + 1)
    requires Weighed(f, roots) && Packed(w, f) && IsHeap(heap[..], w, nHeap, roots)
    modifies heap
    ensures 0 < n1 && 0 < n2 && Joining(f, roots, n1, n2)
    ensures IsHeap(heap[..], w, nHeap - 2, roots - {n1} - {n2})
  {
    n1 := Pop(heap, weight, nHeap, w, roots);
    n2 := Pop(heap, weight, nHeap - 1, w, roots - {n1});
    PoppedAreLightest(w, f, roots, n1, n2);
  }

  method Link(weight: array<nat>, parent: array<int>, t: nat, n1: nat, n2: nat, ghost f: Forest, ghost roots: set<int>, ghost w: seq<nat>)
    requires parent as object != weight && weight[..] == w && parent[..] == f.par && t == f.n + 1 < |w|
    requires Joining(f, roots, n1, n2) && Packed(w, f) && LeafSum(f.wt, f.alpha) < MAX_TOTAL
    modifies weight, parent
    ensures parent[..] == Join(f, roots, n1, n2).par && weight[..] == w[t := AddWeights(w[n1], w[n2])] && weight[t] > 0
  {
    Store(parent, n1, t);
    Store(parent, n2, t);
    JoinPacked(w, f, roots, n1, n2);  // the sum is below 2^31: no overflow
    Store(weight, t, AddWeights(weight[n1], weight[n2]));
    Store(parent, t, -1);
  }

  lemma Joined(heap: seq<int>, w: seq<nat>, w': seq<nat>, par: seq<int>, nHeap: nat, f: Forest, roots: set<int>, a: nat, b: nat)
    requires Joining(f, roots, a, b) && Packed(w, f) && LeafSum(f.wt, f.alpha) < MAX_TOTAL && f.alpha <= MAX_ALPHA_SIZE
    requires Frugal(f, roots)
    requires |heap| == HEAP_SIZE && |w| == |par| == |f.wt| == |f.ht| == |f.ka| == |f.kb| == NODES_SIZE
    requires f.n + nHeap + 1 == 2 * f.alpha
    requires w' == w[f.n + 1 := AddWeights(w[a], w[b])] && par == Join(f, roots, a, b).par
    requires IsHeap(heap, w', nHeap, roots - {a} - {b} + {f.n + 1})
    ensures Building(heap, w', par, nHeap, Join(f, roots, a, b), JoinedRoots(f, roots, a, b))
    ensures SameLeaves(f, Join(f, roots, a, b))
  {
    JoinPacked(w, f, roots, a, b);
    JoinTotal(f, roots, a, b);
    JoinWeighed(f, roots, a, b);
    JoinFrugal(f, roots, a, b);
    assert roots - {a} - {b} + {f.n + 1} == JoinedRoots(f, roots, a, b);
  }

  /** One turn of the joining loop: the two lightest nodes get a common parent. */
  method JoinTwo(heap: array<int>, weight: array<nat>, parent: array<int>, nHeap0: nat, nNodes0: nat,
                 ghost f: Forest, ghost roots: set<int>)
    returns (nHeap: nat, nNodes: nat, ghost g: Forest, ghost roots': set<int>)
    requires heap != parent && heap as object != weight && parent as object != weight && nHeap0 > 1 && f.n == nNodes0
    requires Building(heap[..], weight[..], parent[..], nHeap0, f, roots)
    modifies heap, weight, parent
    ensures Building(heap[..], weight[..], parent[..], nHeap, g, roots') && nHeap == nHeap0 - 1
    ensures g.n == nNodes && SameLeaves(f, g)
  {
    hide Fib;
    ghost var w := weight[..];
    assert f.n + 1 < NODES_SIZE;
    var n1, n2 := PopTwo(heap, weight, nHeap0, f, roots, w);
    nHeap, nNodes := nHeap0 - 2, nNodes0 + 1;
    Link(weight, parent, nNodes, n1, n2, f, roots, w);
    ghost var w' := weight[..];
    ghost var rest := roots - {n1} - {n2};
    HeapFrame(heap[..], w, nHeap, rest, nNodes, w'[nNodes]);
    Push(heap, weight, nHeap, nNodes, w', rest);
    nHeap := nHeap + 1;
    Joined(heap[..], w, w', parent[..], nHeap, f, roots, n1, n2);
    g, roots' := Join(f, roots, n1, n2), JoinedRoots(f, roots, n1, n2);
  }

  ghost predicate SameLeaves(f: Forest, g: Forest) {
    f.alpha == g.alpha < |f.wt| == |g.wt| && forall k :: 1 <= k <= f.alpha ==> f.wt[k] == g.wt[k]
  }

  /** At the end one root is left, the node made last. */
  lemma OneRoot(heap: seq<int>, w: seq<nat>, par: seq<int>, f: Forest, roots: set<int>)
    requires Building(heap, w, par, 1, f, roots)
    ensures roots == {f.n}
  {
    assert ParentOk(f, roots, f.n);
    assert f.n in heap[1..2];
    assert heap[1..2] == [f.n];
    assert forall x :: x in roots ==> x in heap[1..2];
  }

  // ----- Starting a tree.

  /** The leaf weights: multiples of 256, at least one each, and light enough together. */
  ghost predicate LeafWeights(w: seq<nat>, wt: seq<nat>, alpha: nat) {
    && 2 <= alpha <= MAX_ALPHA_SIZE && |w| == |wt| == NODES_SIZE
    && (forall k :: 1 <= k <= alpha ==> wt[k] >= 1 && w[k] == 256 * wt[k])
    && LeafSum(wt, alpha) < MAX_TOTAL
  }

  ghost function Leaves(alpha: nat, par: seq<int>, wt: seq<nat>): Forest {
    var zeros := seq(NODES_SIZE, _ => 0);
    Forest(alpha, alpha, par, wt, zeros, zeros, zeros)
  }

  lemma LeavesBuilding(heap: seq<int>, w: seq<nat>, par: seq<int>, wt: seq<nat>, alpha: nat, roots: set<int>)
    requires LeafWeights(w, wt, alpha) && w[0] == 0 && |heap| == HEAP_SIZE && |par| == NODES_SIZE
    requires forall k :: 1 <= k <= alpha ==> par[k] == -1
    requires forall k :: k in roots <==> 1 <= k <= alpha
    requires IsHeap(heap, w, alpha, roots)
    ensures Building(heap, w, par, alpha, Leaves(alpha, par, wt), roots)
  {
    hide Frugal;
    LeavesFrugal(Leaves(alpha, par, wt), roots);
  }

  /** Puts all leaves into the heap. */
  method StartTree(heap: array<int>, weight: array<nat>, parent: array<int>, alphaSize: nat, ghost wt: seq<nat>)
    returns (ghost roots: set<int>)
    requires heap != parent && heap as object != weight && parent as object != weight
    requires heap.Length == HEAP_SIZE && weight.Length == parent.Length == NODES_SIZE
    requires LeafWeights(weight[..], wt, alphaSize)
    modifies heap, weight, parent
    ensures Building(heap[..], weight[..], parent[..], alphaSize, Leaves(alphaSize, parent[..], wt), roots)
  {
    var nHeap := 0;
    heap[0] := 0;
    weight[0] := 0;
    parent[0] := -2;
    ghost var w := weight[..];
    roots := {};
    assert IsHeap(heap[..], w, 0, {});
    var i := 1;
    while i <= alphaSize
      invariant 1 <= i <= alphaSize + 1 && nHeap == i - 1
      invariant weight[..] == w && w[0] == 0 && LeafWeights(w, wt, alphaSize)
      invariant forall k :: 1 <= k < i ==> parent[k] == -1
      invariant forall k :: k in roots <==> 1 <= k < i
      invariant IsHeap(heap[..], w, nHeap, roots)
    {
      parent[i] := -1;
      assert w[i] == 256 * wt[i];
      Push(heap, weight, nHeap, i, w, roots);
      nHeap := nHeap + 1;
      roots := roots + {i};
      i := i + 1;
    }
    LeavesBuilding(heap[..], w, parent[..], wt, alphaSize, roots);
  }

  /** Joins nodes until one is left. */
  method BuildTree(heap: array<int>, weight: array<nat>, parent: array<int>, alphaSize: nat, ghost wt: seq<nat>)
    returns (ghost f: Forest, ghost roots: set<int>)
    requires heap != parent && heap as object != weight && parent as object != weight
    requires heap.Length == HEAP_SIZE && weight.Length == parent.Length == NODES_SIZE
    requires LeafWeights(weight[..], wt, alphaSize)
    modifies heap, weight, parent
    ensures Weighed(f, roots) && roots == {f.n} && f.par == parent[..] && f.alpha == alphaSize
    ensures LeafSum(f.wt, alphaSize) == LeafSum(wt, alphaSize)
    ensures forall k :: 1 <= k <= alphaSize ==> weight[k] == 256 * wt[k]
    ensures Optimal(LeafWeightsOf(wt, alphaSize), Lengths(f, roots))
  {
    hide Frugal, Optimal, IsHeap, Weighed;
    roots := StartTree(heap, weight, parent, alphaSize, wt);
    f := Leaves(alphaSize, parent[..], wt);
    ghost var f0 := f;
    var nHeap, nNodes := alphaSize, alphaSize;
    while nHeap > 1
      invariant Building(heap[..], weight[..], parent[..], nHeap, f, roots)
      invariant f.n == nNodes && SameLeaves(f0, f) && nHeap >= 1
      decreases nHeap
    {
      nHeap, nNodes, f, roots := JoinTwo(heap, weight, parent, nHeap, nNodes, f, roots);
    }
    OneRoot(heap[..], weight[..], parent[..], f, roots);
    LeafSumFrame(f0.wt, f.wt, alphaSize);
    LeavesStay(weight[..], f, roots, f0.wt);
    TreeOptimal(f, roots);
    assert LeafWeightsOf(f.wt, alphaSize) == LeafWeightsOf(wt, alphaSize);
  }

  lemma LeavesStay(w: seq<nat>, f: Forest, roots: set<int>, wt: seq<nat>)
    requires Weighed(f, roots) && Packed(w, f) && f.alpha < |wt| && forall k :: 1 <= k <= f.alpha ==> f.wt[k] == wt[k]
    ensures forall k :: 1 <= k <= f.alpha ==> w[k] == 256 * wt[k]
  {
  }

  // ----- Reading the lengths.

  /** The number of steps from a leaf to the root. */
  method LengthOf(parent: array<int>, i: nat, ghost f: Forest, ghost roots: set<int>) returns (j: nat)
    requires Linked(f, roots) && f.par == parent[..] && 1 <= i <= f.alpha
    ensures j == Depth(f, roots, i)
  {
    j := 0;
    var k := i;
    while true
      invariant 1 <= k <= f.n && j + Depth(f, roots, k) == Depth(f, roots, i)
      decreases f.n - k
    {
      assert ParentOk(f, roots, k);
      if parent[k] < 0 {
        break;
      }
      k := parent[k];
      j := j + 1;
    }
  }

  /** No depth is anywhere near 256, so all lengths fit into a byte. */
  lemma DepthFits(f: Forest, roots: set<int>, i: nat)
    requires Weighed(f, roots) && roots == {f.n} && LeafSum(f.wt, f.alpha) < MAX_TOTAL && 1 <= i <= f.alpha
    ensures Depth(f, roots, i) < 100
  {
    var h := TotalBelowFib();
    DeepIsHeavy(f, roots, i);
    if h <= Depth(f, roots, i) {
      FibMono(h, Depth(f, roots, i));
    }
  }

  method ReadLengths(len: array<nat>, parent: array<int>, maxLen: nat, alphaSize: nat, ghost f: Forest, ghost roots: set<int>)
    returns (tooLong: bool)
    requires len as object != parent && f.par == parent[..] && f.alpha == alphaSize <= len.Length
    requires Weighed(f, roots) && roots == {f.n} && LeafSum(f.wt, f.alpha) < MAX_TOTAL
    modifies len
    ensures len[..alphaSize] == Lengths(f, roots) && len[alphaSize..] == old(len[alphaSize..])
    ensures forall i :: 0 <= i < alphaSize ==> len[i] < 100
    ensures tooLong <==> exists i :: 0 <= i < alphaSize && Lengths(f, roots)[i] > maxLen
  {
    tooLong := false;
    var i := 1;
    while i <= alphaSize
      invariant 1 <= i <= alphaSize + 1
      invariant forall k :: 0 <= k < i - 1 ==> len[k] == Lengths(f, roots)[k] < 100
      invariant len[alphaSize..] == old(len[alphaSize..])
      invariant tooLong <==> exists k :: 0 <= k < i - 1 && Lengths(f, roots)[k] > maxLen
    {
      var j := LengthOf(parent, i, f, roots);
      DepthFits(f, roots, i);
      assert Lengths(f, roots)[i - 1] == j;
      len[i - 1] := j;
      if j > maxLen {
        tooLong := true;
      }
      i := i + 1;
    }
  }

  // ----- Scaling down.

  /** A limit that no tree over weights of 1 and 2 exceeds; weights of 1 and 2 are what scaling ends with. */
  ghost predicate Reachable(alphaSize: nat, maxLen: nat) {
    Fib(maxLen + 1) > 2 * alphaSize
  }

  /** From 12 on, every limit will do for every alphabet. */
  lemma TwelveReachable(alphaSize: nat, maxLen: nat)
    requires alphaSize <= MAX_ALPHA_SIZE && 12 <= maxLen
    ensures Reachable(alphaSize, maxLen)
  {
    assert Fib(2) == 3 && Fib(3) == 5 && Fib(4) == 8 && Fib(5) == 13 && Fib(6) == 21 && Fib(7) == 34 && Fib(8) == 55;
    assert Fib(9) == 89 && Fib(10) == 144 && Fib(11) == 233 && Fib(12) == 377 && Fib(13) == 610;
    FibMono(13, maxLen + 1);
  }

  /** A tree with a leaf deeper than such a limit has a leaf of weight 3 or more. */
  lemma TooDeepIsHeavy(f: Forest, roots: set<int>, i: nat, maxLen: nat)
    requires Weighed(f, roots) && roots == {f.n} && 1 <= i <= f.alpha && Depth(f, roots, i) > maxLen && Reachable(f.alpha, maxLen)
    ensures LeafSum(f.wt, f.alpha) > 2 * f.alpha
  {
    DeepIsHeavy(f, roots, i);
    FibMono(maxLen + 1, Depth(f, roots, i));
  }

  ghost function Halved(wt: seq<nat>, alpha: nat): (r: seq<nat>)
    requires alpha < |wt|
    ensures |r| == |wt| && forall k :: 1 <= k <= alpha ==> r[k] == 1 + wt[k] / 2
  {
    seq(|wt|, k requires 0 <= k < |wt| => if 1 <= k <= alpha then 1 + wt[k] / 2 else 0)
  }

  /** Scaling does not raise the sum of the weights, and lowers it unless all are 1 or 2. */
  lemma {:induction false} HalvedSum(wt: seq<nat>, alpha: nat, k: nat)
    requires k <= alpha < |wt| && forall i :: 1 <= i <= alpha ==> wt[i] >= 1
    ensures LeafSum(Halved(wt, alpha), k) <= LeafSum(wt, k)
    ensures LeafSum(wt, k) > 2 * k ==> LeafSum(Halved(wt, alpha), k) < LeafSum(wt, k)
    decreases k
  {
    if k > 0 {
      HalvedSum(wt, alpha, k - 1);
    }
  }

  method ScaleDown(weight: array<nat>, alphaSize: nat, ghost wt: seq<nat>)
    requires LeafWeights(weight[..], wt, alphaSize)
    modifies weight
    ensures LeafWeights(weight[..], Halved(wt, alphaSize), alphaSize)
  {
    var i := 1;
    while i <= alphaSize
      invariant 1 <= i <= alphaSize + 1
      invariant forall k :: 1 <= k < i ==> weight[k] == 256 * (1 + wt[k] / 2)
      invariant forall k :: i <= k <= alphaSize ==> weight[k] == 256 * wt[k]
    {
      var j := weight[i] / 256;
      j := 1 + j / 2;
      weight[i] := j * 256;
      i := i + 1;
    }
    HalvedSum(wt, alphaSize, alphaSize);
  }

  // ----- The whole computation.

  /** The weights the computation starts with: the frequencies, with 1 for symbols that do not occur. */
  ghost function StartWeights(freq: seq<nat>): (wt: seq<nat>)
    requires |freq| <= MAX_ALPHA_SIZE
    ensures |wt| == NODES_SIZE && forall k :: 1 <= k <= |freq| ==> wt[k] == if freq[k - 1] == 0 then 1 else freq[k - 1]
  {
    seq(NODES_SIZE, k => if 1 <= k <= |freq| then if freq[k - 1] == 0 then 1 else freq[k - 1] else 0)
  }

  method FirstWeights(weight: array<nat>, freq: array<nat>, alphaSize: nat)
    requires weight != freq && weight.Length == NODES_SIZE && 2 <= alphaSize <= freq.Length && alphaSize <= MAX_ALPHA_SIZE
    requires LeafSum(StartWeights(freq[..alphaSize]), alphaSize) < MAX_TOTAL
    modifies weight
    ensures LeafWeights(weight[..], StartWeights(freq[..alphaSize]), alphaSize)
  {
    ghost var wt := StartWeights(freq[..alphaSize]);
    var i := 0;
    while i < alphaSize
      invariant 0 <= i <= alphaSize
      invariant forall k :: 1 <= k <= i ==> weight[k] == 256 * wt[k]
    {
      weight[i + 1] := (if freq[i] == 0 then 1 else freq[i]) * 256;
      i := i + 1;
    }
  }

  /** Lengths from 1 to `maxLen` that use up the code space exactly. */
  ghost predicate CompleteLengths(len: seq<nat>, maxLen: nat) {
    (forall i :: 0 <= i < |len| ==> 1 <= len[i] <= maxLen) && Kraft(len, maxLen) == Pow2(maxLen)
  }

  lemma LengthsComplete(f: Forest, roots: set<int>, maxLen: nat)
    requires Linked(f, roots) && roots == {f.n} && 2 <= f.alpha
    requires forall i :: 0 <= i < f.alpha ==> Lengths(f, roots)[i] <= maxLen
    ensures CompleteLengths(Lengths(f, roots), maxLen)
  {
    var len := Lengths(f, roots);
    forall i | 0 <= i < f.alpha
      ensures len[i] >= 1
    {
      assert ParentOk(f, roots, 1);
      assert ParentOk(f, roots, i + 1);
    }
    TreeKraft(f, roots);
    if f.n <= maxLen {
      KraftRescaled(len, f.n, maxLen);
    } else {
      KraftRescaled(len, maxLen, f.n);
    }
  }

  /** Weights as they are scaled: first the frequencies, with 1 for symbols that do not occur, then again and again one more
      than half of what they were. */
  ghost predicate ScaledDown(ws: seq<seq<nat>>, freq: seq<nat>) {
    && ws != []
    && var w := ws[|ws| - 1];
       && |w| == |freq|
       && if |ws| == 1 then forall i :: 0 <= i < |w| ==> w[i] == if freq[i] == 0 then 1 else freq[i]
          else
            && ScaledDown(ws[..|ws| - 1], freq) && |ws[|ws| - 2]| == |freq|
            && forall i :: 0 <= i < |w| ==> w[i] == 1 + ws[|ws| - 2][i] / 2
  }

  /** Some optimal code for the weights is too long. */
  ghost predicate TooDeep(w: seq<nat>, maxLen: nat) {
    exists t :: Optimal(w, t) && exists i :: 0 <= i < |t| && t[i] > maxLen
  }

  /** An optimal code for the frequencies, or, as long as such a code comes out too long, for the weights scaled down. */
  ghost predicate BestLengths(len: seq<nat>, freq: seq<nat>, maxLen: nat) {
    exists ws :: ScaledDown(ws, freq) && Optimal(ws[|ws| - 1], len) && forall j :: 0 <= j < |ws| - 1 ==> TooDeep(ws[j], maxLen)
  }

  lemma ScaledOnce(ws: seq<seq<nat>>, freq: seq<nat>, wt: seq<nat>, maxLen: nat, t: seq<nat>, i: nat)
    requires ScaledDown(ws, freq) && |freq| < |wt| && ws[|ws| - 1] == LeafWeightsOf(wt, |freq|)
    requires forall j :: 0 <= j < |ws| - 1 ==> TooDeep(ws[j], maxLen)
    requires Optimal(LeafWeightsOf(wt, |freq|), t) && i < |t| && t[i] > maxLen
    ensures var ws' := ws + [LeafWeightsOf(Halved(wt, |freq|), |freq|)];
            ScaledDown(ws', freq) && forall j :: 0 <= j < |ws'| - 1 ==> TooDeep(ws'[j], maxLen)
  {
    hide Optimal;
    var v := LeafWeightsOf(Halved(wt, |freq|), |freq|);
    var ws' := ws + [v];
    assert TooDeep(ws[|ws| - 1], maxLen);
    assert ws'[..|ws|] == ws;
    forall k | 0 <= k < |freq|
      ensures v[k] == 1 + ws[|ws| - 1][k] / 2
    {
      assert LeafWeightsOf(wt, |freq|)[k] == wt[k + 1];
    }
    forall j | 0 <= j < |ws'| - 1
      ensures TooDeep(ws'[j], maxLen)
    {
      assert ws'[j] == ws[j];
    }
  }

  /** BZ2_hbMakeCodeLengths.  It ends because every repetition lowers the sum of the leaf weights as long as some are
      above 2, and with weights of 1 and 2 the limit is met. */
  method MakeCodeLengths(len: array<nat>, freq: array<nat>, alphaSize: nat, maxLen: nat)
    requires len != freq && 2 <= alphaSize <= MAX_ALPHA_SIZE && alphaSize <= len.Length && alphaSize <= freq.Length
    requires Reachable(alphaSize, maxLen) && LeafSum(StartWeights(freq[..alphaSize]), alphaSize) < MAX_TOTAL
    modifies len
    ensures CompleteLengths(len[..alphaSize], maxLen) && len[alphaSize..] == old(len[alphaSize..])
    ensures forall i :: 0 <= i < alphaSize ==> len[i] < 256
    ensures BestLengths(len[..alphaSize], freq[..alphaSize], maxLen)
  {
    hide Optimal, TooDeep;
    var heap, weight, parent := new int[HEAP_SIZE], new nat[NODES_SIZE], new int[NODES_SIZE];
    FirstWeights(weight, freq, alphaSize);
    ghost var wt := StartWeights(freq[..alphaSize]);
    ghost var ws := [LeafWeightsOf(wt, alphaSize)];
    while true
      invariant LeafWeights(weight[..], wt, alphaSize) && len[alphaSize..] == old(len[alphaSize..])
      invariant ScaledDown(ws, freq[..alphaSize]) && ws[|ws| - 1] == LeafWeightsOf(wt, alphaSize)
      invariant forall j :: 0 <= j < |ws| - 1 ==> TooDeep(ws[j], maxLen)
      decreases LeafSum(wt, alphaSize)
    {
      ghost var f, roots := BuildTree(heap, weight, parent, alphaSize, wt);
      var tooLong := ReadLengths(len, parent, maxLen, alphaSize, f, roots);
      if !tooLong {
        LengthsComplete(f, roots, maxLen);
        break;
      }
      ghost var i :| 0 <= i < alphaSize && Lengths(f, roots)[i] > maxLen;
      TooDeepIsHeavy(f, roots, i + 1, maxLen);
      ScaledOnce(ws, freq[..alphaSize], wt, maxLen, Lengths(f, roots), i);
      HalvedSum(wt, alphaSize, alphaSize);
      ScaleDown(weight, alphaSize, wt);
      wt := Halved(wt, alphaSize);
      ws := ws + [LeafWeightsOf(wt, alphaSize)];
    }
  }
}
