/** The binary heap of tree nodes, ordered by weight, from which code lengths are computed.

    Entries run from 1; entry 0 holds node 0, whose weight 0 stops the upward loop.
 */
module WeightHeap {
  import opened Permutations
  import opened Arrays

  /** Entries 1..n of `h` are nodes with positive weights; entry 0 is the sentinel. */
  ghost predicate Weighted(h: seq<int>, w: seq<nat>, n: nat) {
    && n < |h| && |w| > 0 && h[0] == 0 && w[0] == 0
    && forall k :: 1 <= k <= n ==> 0 < h[k] < |w| && w[h[k]] > 0
  }

  /** Entry `k` is not lighter than its parent. */
  ghost predicate EdgeOk(h: seq<int>, w: seq<nat>, k: nat) {
    k < |h| && 0 <= h[k / 2] < |w| && 0 <= h[k] < |w| && w[h[k / 2]] <= w[h[k]]
  }

  ghost predicate HeapOrdered(h: seq<int>, w: seq<nat>, n: nat) {
    forall k :: 2 <= k <= n ==> EdgeOk(h, w, k)
  }

  /** Entries 1..n form a heap of exactly the nodes in `s`. */
  ghost predicate IsHeap(h: seq<int>, w: seq<nat>, n: nat, s: set<int>) {
    && Weighted(h, w, n) && HeapOrdered(h, w, n)
    && Distinct(h[1..n + 1]) && forall x :: x in h[1..n + 1] <==> x in s
  }

  /** The first entry is a lightest one. */
  lemma {:induction false} RootLightest(h: seq<int>, w: seq<nat>, n: nat, k: nat)
    requires Weighted(h, w, n) && HeapOrdered(h, w, n) && 1 <= k <= n
    ensures w[h[1]] <= w[h[k]]
  {
    if k > 1 {
      RootLightest(h, w, n, k / 2);
      assert EdgeOk(h, w, k);
    }
  }

  lemma RootLightestOf(h: seq<int>, w: seq<nat>, n: nat, s: set<int>, x: int)
    requires IsHeap(h, w, n, s) && x in s
    ensures n >= 1 && h[1] in s && 0 <= x < |w| && w[h[1]] <= w[x]
  {
    assert x in h[1..n + 1];
    var k :| 0 <= k < |h[1..n + 1]| && h[1..n + 1][k] == x;
    assert h[k + 1] == x;
    RootLightest(h, w, n, k + 1);
    assert h[1..n + 1][0] == h[1];
  }

  // ----- Upward.

  /** Entry `k` is not lighter than `x`. */
  ghost predicate NotLighter(h: seq<int>, w: seq<nat>, x: nat, k: nat) {
    k < |h| && 0 <= h[k] < |w| && x <= w[h[k]]
  }

  /** The heap with a free entry `z` on the way up, to be filled with `tmp`, which is not lighter than anything below. */
  ghost predicate Rising(h: seq<int>, w: seq<nat>, n: nat, z: nat, tmp: int) {
    && Weighted(h, w, n) && 1 <= z <= n && 0 < tmp < |w| && w[tmp] > 0
    && (forall k :: 2 <= k <= n && k != z && k / 2 != z ==> EdgeOk(h, w, k))
    && (forall k :: 2 <= k <= n && k / 2 == z ==> NotLighter(h, w, w[tmp], k))
    && (z >= 2 ==> forall k :: 2 <= k <= n && k / 2 == z ==> NotLighter(h, w, w[h[z / 2]], k))
  }

  lemma RiseStep(h: seq<int>, w: seq<nat>, n: nat, z: nat, tmp: int)
    requires Rising(h, w, n, z, tmp) && w[tmp] < w[h[z / 2]]
    ensures 2 <= z && Rising(h[z := h[z / 2]], w, n, z / 2, tmp)
  {
    assert z / 2 == 0 || h[z / 2] > 0;
    var g := h[z := h[z / 2]];
    forall k | 2 <= k <= n && k != z / 2 && k / 2 != z / 2
      ensures EdgeOk(g, w, k)
    {
      if k / 2 == z {
        assert NotLighter(h, w, w[h[z / 2]], k);
      } else if k != z {
        assert EdgeOk(h, w, k);
      }
    }
    forall k | 2 <= k <= n && k / 2 == z / 2
      ensures NotLighter(g, w, w[tmp], k) && (z / 2 >= 2 ==> NotLighter(g, w, w[g[z / 2 / 2]], k))
    {
      assert z / 2 >= 2 ==> EdgeOk(h, w, z / 2);
      assert k == z || EdgeOk(h, w, k);
    }
  }

  lemma RiseEnd(h: seq<int>, w: seq<nat>, n: nat, z: nat, tmp: int)
    requires Rising(h, w, n, z, tmp) && w[tmp] >= w[h[z / 2]]
    ensures Weighted(h[z := tmp], w, n) && HeapOrdered(h[z := tmp], w, n)
  {
    var g := h[z := tmp];
    forall k | 2 <= k <= n
      ensures EdgeOk(g, w, k)
    {
      if k / 2 == z {
        assert NotLighter(h, w, w[tmp], k);
      } else if k != z {
        assert EdgeOk(h, w, k);
      }
    }
  }

  method RiseOnce(heap: array<int>, z: nat, ghost h0: seq<int>, ghost w: seq<nat>, ghost n: nat, ghost tmp: int)
    requires Rising(heap[..], w, n, z, tmp) && w[tmp] < w[heap[z / 2]] && Rearranged(heap[..][z := tmp], h0, 1, n + 1)
    modifies heap
    ensures 2 <= z && Rising(heap[..], w, n, z / 2, tmp) && Rearranged(heap[..][z / 2 := tmp], h0, 1, n + 1)
  {
    RiseStep(heap[..], w, n, z, tmp);
    HoleMoved(heap[..], h0, z, z / 2, tmp, 1, n + 1);
    Store(heap, z, heap[z / 2]);
  }

  method RiseFill(heap: array<int>, z: nat, tmp: int, ghost h0: seq<int>, ghost w: seq<nat>, ghost n: nat)
    requires Rising(heap[..], w, n, z, tmp) && w[tmp] >= w[heap[z / 2]] && Rearranged(heap[..][z := tmp], h0, 1, n + 1)
    modifies heap
    ensures Weighted(heap[..], w, n) && HeapOrdered(heap[..], w, n) && Rearranged(heap[..], h0, 1, n + 1)
  {
    RiseEnd(heap[..], w, n, z, tmp);
    Store(heap, z, tmp);
  }

  /** Restores the order after a node has been put into entry `z`, the last one. */
  method UpHeap(heap: array<int>, weight: array<nat>, z: nat, ghost w: seq<nat>)
    requires heap as object != weight && weight[..] == w && 1 <= z < heap.Length
    requires Weighted(heap[..], w, z) && HeapOrdered(heap[..], w, z - 1)
    modifies heap
    ensures Weighted(heap[..], w, z) && HeapOrdered(heap[..], w, z)
    ensures Rearranged(heap[..], old(heap[..]), 1, z + 1)
  {
    ghost var h0 := heap[..];
    var zz: nat, tmp := z, heap[z];
    assert h0[z := tmp] == h0;
    while weight[tmp] < weight[heap[zz / 2]]
      invariant Rising(heap[..], w, z, zz, tmp)
      invariant Rearranged(heap[..][zz := tmp], h0, 1, z + 1)
      decreases zz
    {
      RiseOnce(heap, zz, h0, w, z, tmp);
      zz := zz / 2;
    }
    RiseFill(heap, zz, tmp, h0, w, z);
  }

  // ----- Downward.

  /** The heap with a free entry `z` on the way down, to be filled with `tmp`, which is not lighter than what is above. */
  ghost predicate Sinking(h: seq<int>, w: seq<nat>, n: nat, z: nat, tmp: int) {
    && Weighted(h, w, n) && 1 <= z && 0 < tmp < |w| && w[tmp] > 0 && z <= n
    && (forall k :: 2 <= k <= n && k / 2 != z ==> EdgeOk(h, w, k))
    && (2 <= z ==> w[h[z / 2]] <= w[tmp])
    && (2 <= z ==> forall k :: 2 <= k <= n && k / 2 == z ==> NotLighter(h, w, w[h[z / 2]], k))
  }

  lemma SinkStep(h: seq<int>, w: seq<nat>, n: nat, z: nat, tmp: int, y: nat)
    requires Sinking(h, w, n, z, tmp) && y / 2 == z && y <= n && w[h[y]] <= w[tmp]
    requires forall k :: 2 <= k <= n && k / 2 == z ==> NotLighter(h, w, w[h[y]], k)
    ensures Sinking(h[z := h[y]], w, n, y, tmp)
  {
    var g := h[z := h[y]];
    forall k | 2 <= k <= n && k / 2 != y
      ensures EdgeOk(g, w, k)
    {
      if k == z {
        assert NotLighter(h, w, w[h[z / 2]], y);
      } else if k / 2 == z {
        assert NotLighter(h, w, w[h[y]], k);
      } else {
        assert EdgeOk(h, w, k);
      }
    }
    forall k | 2 <= k <= n && k / 2 == y
      ensures NotLighter(g, w, w[g[y / 2]], k)
    {
      assert EdgeOk(h, w, k);
    }
  }

  lemma SinkEnd(h: seq<int>, w: seq<nat>, n: nat, z: nat, tmp: int)
    requires Sinking(h, w, n, z, tmp)
    requires forall k :: 2 <= k <= n && k / 2 == z ==> NotLighter(h, w, w[tmp], k)
    ensures Weighted(h[z := tmp], w, n) && HeapOrdered(h[z := tmp], w, n)
  {
    var g := h[z := tmp];
    forall k | 2 <= k <= n
      ensures EdgeOk(g, w, k)
    {
      if k / 2 == z {
        assert NotLighter(h, w, w[tmp], k);
      } else {
        assert EdgeOk(h, w, k);
      }
    }
  }

  /** The lighter child of entry `z`. */
  method LighterChild(heap: array<int>, weight: array<nat>, z: nat, nHeap: nat, ghost w: seq<nat>) returns (yy: nat)
    requires heap as object != weight && weight[..] == w && Weighted(heap[..], w, nHeap) && 1 <= z && 2 * z <= nHeap
    ensures yy / 2 == z && yy <= nHeap
    ensures forall k :: 2 <= k <= nHeap && k / 2 == z ==> NotLighter(heap[..], w, w[heap[yy]], k)
  {
    yy := z * 2;
    assert 0 < heap[..][yy] < |w| && (yy < nHeap ==> 0 < heap[..][yy + 1] < |w|);
    if yy < nHeap && weight[heap[yy + 1]] < weight[heap[yy]] {
      yy := yy + 1;
    }
    forall k | 2 <= k <= nHeap && k / 2 == z
      ensures NotLighter(heap[..], w, w[heap[yy]], k)
    {
      assert k == 2 * z || k == 2 * z + 1;
    }
  }

  lemma LighterStill(h: seq<int>, w: seq<nat>, n: nat, z: nat, y: nat, tmp: nat)
    requires y < |w| && tmp < |w| && w[tmp] < w[y]
    requires forall k :: 2 <= k <= n && k / 2 == z ==> NotLighter(h, w, w[y], k)
    ensures forall k :: 2 <= k <= n && k / 2 == z ==> NotLighter(h, w, w[tmp], k)
  {
    forall k | 2 <= k <= n && k / 2 == z
      ensures NotLighter(h, w, w[tmp], k)
    {
      assert NotLighter(h, w, w[y], k);
    }
  }

  method SinkOnce(heap: array<int>, z: nat, yy: nat, ghost h0: seq<int>, ghost w: seq<nat>, ghost n: nat, ghost tmp: int)
    requires Sinking(heap[..], w, n, z, tmp) && yy / 2 == z && yy <= n && w[heap[yy]] <= w[tmp]
    requires forall k :: 2 <= k <= n && k / 2 == z ==> NotLighter(heap[..], w, w[heap[yy]], k)
    requires Rearranged(heap[..][z := tmp], h0, 1, n + 1)
    modifies heap
    ensures Sinking(heap[..], w, n, yy, tmp) && Rearranged(heap[..][yy := tmp], h0, 1, n + 1)
  {
    ghost var h := heap[..];
    SinkStep(h, w, n, z, tmp, yy);
    HoleMoved(h, h0, z, yy, tmp, 1, n + 1);
    Store(heap, z, heap[yy]);
  }

  method SinkFill(heap: array<int>, z: nat, tmp: int, ghost h0: seq<int>, ghost w: seq<nat>, ghost n: nat)
    requires Sinking(heap[..], w, n, z, tmp) && n >= 1 && Rearranged(heap[..][z := tmp], h0, 1, n + 1)
    requires forall k :: 2 <= k <= n && k / 2 == z ==> NotLighter(heap[..], w, w[tmp], k)
    modifies heap
    ensures Weighted(heap[..], w, n) && HeapOrdered(heap[..], w, n) && Rearranged(heap[..], h0, 1, n + 1)
  {
    SinkEnd(heap[..], w, n, z, tmp);
    Store(heap, z, tmp);
  }

  /** Restores the order after entry 1 has been replaced. */
  method DownHeap(heap: array<int>, weight: array<nat>, nHeap: nat, ghost w: seq<nat>)
    requires heap as object != weight && weight[..] == w && 1 <= nHeap
    requires Weighted(heap[..], w, nHeap) && Sinking(heap[..], w, nHeap, 1, heap[1])
    modifies heap
    ensures Weighted(heap[..], w, nHeap) && HeapOrdered(heap[..], w, nHeap)
    ensures Rearranged(heap[..], old(heap[..]), 1, nHeap + 1)
  {
    ghost var h0 := heap[..];
    var zz: nat, tmp := 1, heap[1];
    assert h0[1 := tmp] == h0;
    while true
      invariant Sinking(heap[..], w, nHeap, zz, tmp)
      invariant Rearranged(heap[..][zz := tmp], h0, 1, nHeap + 1)
      decreases nHeap - zz
    {
      if zz * 2 > nHeap {
        break;
      }
      var yy := LighterChild(heap, weight, zz, nHeap, w);
      if weight[tmp] < weight[heap[yy]] {
        LighterStill(heap[..], w, nHeap, zz, heap[yy], tmp);
        break;
      }
      SinkOnce(heap, zz, yy, h0, w, nHeap, tmp);
      zz := yy;
    }
    SinkFill(heap, zz, tmp, h0, w, nHeap);
  }

  // ----- The heap as a set of nodes.

  lemma PushMembers(h0: seq<int>, h1: seq<int>, h2: seq<int>, w: seq<nat>, n: nat, s: set<int>, x: int)
    requires n + 1 < |h0| && IsHeap(h0, w, n, s) && x !in s && h1 == h0[n + 1 := x]
    requires Rearranged(h2, h1, 1, n + 2)
    ensures Distinct(h2[1..n + 2]) && forall y :: y in h2[1..n + 2] <==> y in s + {x}
  {
    assert h1[1..n + 2] == h0[1..n + 1] + [x];
    RearrangedMembers(h2, h1, 1, n + 2);
  }

  lemma PushStart(h0: seq<int>, h1: seq<int>, w: seq<nat>, n: nat, s: set<int>, x: int)
    requires n + 1 < |h0| && IsHeap(h0, w, n, s) && 0 < x < |w| && w[x] > 0 && h1 == h0[n + 1 := x]
    ensures Weighted(h1, w, n + 1) && HeapOrdered(h1, w, n)
  {
    forall k | 2 <= k <= n
      ensures EdgeOk(h1, w, k)
    {
      assert EdgeOk(h0, w, k);
    }
  }

  /** Puts node `x` into the heap. */
  method Push(heap: array<int>, weight: array<nat>, nHeap: nat, x: int, ghost w: seq<nat>, ghost s: set<int>)
    requires heap as object != weight && weight[..] == w && nHeap + 1 < heap.Length
    requires IsHeap(heap[..], w, nHeap, s) && x !in s && 0 < x < |w| && w[x] > 0
    modifies heap
    ensures IsHeap(heap[..], w, nHeap + 1, s + {x})
  {
    ghost var h0 := heap[..];
    Store(heap, nHeap + 1, x);
    ghost var h1 := heap[..];
    PushStart(h0, h1, w, nHeap, s, x);
    UpHeap(heap, weight, nHeap + 1, w);
    PushMembers(h0, h1, heap[..], w, nHeap, s, x);
  }

  lemma PopStart(h0: seq<int>, h1: seq<int>, w: seq<nat>, n: nat, s: set<int>)
    requires IsHeap(h0, w, n, s) && 1 <= n && h1 == h0[1 := h0[n]]
    ensures h0[1] in s && 0 < h0[1] < |w| && forall y :: y in s ==> 0 <= y < |w| && w[h0[1]] <= w[y]
    ensures Weighted(h1, w, n - 1) && (n > 1 ==> Sinking(h1, w, n - 1, 1, h1[1]))
    ensures Distinct(h1[1..n]) && forall y :: y in h1[1..n] <==> y in s - {h0[1]}
  {
    forall y | y in s
      ensures 0 <= y < |w| && w[h0[1]] <= w[y]
    {
      RootLightestOf(h0, w, n, s, y);
    }
    assert h0[1..n + 1][0] == h0[1];
    forall k | 2 <= k <= n - 1 && k / 2 != 1
      ensures EdgeOk(h1, w, k)
    {
      assert EdgeOk(h0, w, k);
    }
    PopMembers(h0, h1, n, h0[1]);
  }

  /** Takes a lightest node out of the heap. */
  method Pop(heap: array<int>, weight: array<nat>, nHeap: nat, ghost w: seq<nat>, ghost s: set<int>) returns (x: int)
    requires heap as object != weight && weight[..] == w
    requires IsHeap(heap[..], w, nHeap, s) && 1 <= nHeap
    modifies heap
    ensures x in s && 0 < x < |w| && (forall y :: y in s ==> 0 <= y < |w| && w[x] <= w[y])
    ensures IsHeap(heap[..], w, nHeap - 1, s - {x})
  {
    ghost var h0 := heap[..];
    x := heap[1];
    Store(heap, 1, heap[nHeap]);
    ghost var h1 := heap[..];
    PopStart(h0, h1, w, nHeap, s);
    // With the heap now empty, the downward loop would only write entry 1 back.
    if nHeap > 1 {
      DownHeap(heap, weight, nHeap - 1, w);
      RearrangedMembers(heap[..], h1, 1, nHeap);
    }
  }

  lemma PopMembers(h0: seq<int>, h1: seq<int>, n: nat, x: int)
    requires 1 <= n < |h0| && h1 == h0[1 := h0[n]] && x == h0[1] && Distinct(h0[1..n + 1])
    ensures Distinct(h1[1..n]) && forall y :: y in h1[1..n] <==> y in h0[1..n + 1] && y != x
  {
    var a, c := h0[1..n + 1], h1[1..n];
    assert forall i :: 0 <= i < |c| ==> c[i] == if i == 0 then a[n - 1] else a[i];
    forall y | y in a && y != x
      ensures y in c
    {
      var i :| 0 <= i < |a| && a[i] == y;
      if i < n - 1 {
        assert c[i] == y;
      } else {
        assert n > 1 && c[0] == y;
      }
    }
  }
}
