/** Why a quicksort with an explicit stack sorts: cuts.

    A position is a cut of a stretch when no key before it exceeds a key at or behind it.  Throughout both
    quicksorts every position is a cut of the whole, or lies strictly inside a stretch still on the stack.
    Entry `f[i]` is ordered by the key ec[f[i]].
 */
module Cuts {
  import opened Permutations

  datatype Stretch = Stretch(lo: int, hi: int)

  /** Every entry of [lo, hi) has a key. */
  ghost predicate Keyed(f: seq<int>, ec: seq<int>, lo: int, hi: int) {
    0 <= lo <= hi <= |f| && forall i :: lo <= i < hi ==> 0 <= f[i] < |ec|
  }

  ghost predicate KeySorted(f: seq<int>, ec: seq<int>, lo: int, hi: int)
    requires Keyed(f, ec, lo, hi)
  {
    forall i, j :: lo <= i < j < hi ==> ec[f[i]] <= ec[f[j]]
  }

  lemma KeyedRearranged(f: seq<int>, g: seq<int>, ec: seq<int>, lo: int, hi: int)
    requires Rearranged(f, g, lo, hi) && Keyed(g, ec, lo, hi)
    ensures Keyed(f, ec, lo, hi)
  {
    forall i | lo <= i < hi
      ensures 0 <= f[i] < |ec|
    {
      var j := RearrangedFrom(f, g, lo, hi, i);
    }
  }

  /** Position `k` is a cut of [lo, hi]. */
  ghost predicate CutAt(f: seq<int>, ec: seq<int>, lo: int, hi: int, k: int)
    requires Keyed(f, ec, lo, hi + 1)
  {
    forall a, c :: lo <= a < k <= c <= hi ==> ec[f[a]] <= ec[f[c]]
  }

  ghost predicate StrictlyInside(parts: seq<Stretch>, k: int) {
    exists e :: 0 <= e < |parts| && parts[e].lo < k <= parts[e].hi
  }

  ghost predicate Apart(p: Stretch, q: Stretch) {
    p.hi < q.lo || q.hi < p.lo
  }

  /** The stretches `parts` are all that remains to be sorted in [lo, hi]. */
  ghost predicate Pending(f: seq<int>, ec: seq<int>, lo: int, hi: int, parts: seq<Stretch>) {
    && Keyed(f, ec, lo, hi + 1)
    && (forall e :: 0 <= e < |parts| ==>
                      && lo <= parts[e].lo <= parts[e].hi + 1 <= hi + 1
                      && CutAt(f, ec, lo, hi, parts[e].lo) && CutAt(f, ec, lo, hi, parts[e].hi + 1))
    && (forall e, e' :: 0 <= e < e' < |parts| ==> Apart(parts[e], parts[e']))
    && (forall k :: lo < k <= hi ==> StrictlyInside(parts, k) || CutAt(f, ec, lo, hi, k))
  }

  /** At the start the whole stretch is pending. */
  lemma PendingAll(f: seq<int>, ec: seq<int>, lo: int, hi: int)
    requires Keyed(f, ec, lo, hi + 1)
    ensures Pending(f, ec, lo, hi, [Stretch(lo, hi)])
  {
    forall k | lo < k <= hi
      ensures StrictlyInside([Stretch(lo, hi)], k)
    {
      assert [Stretch(lo, hi)][0].lo < k <= [Stretch(lo, hi)][0].hi;
    }
  }

  /** When nothing is pending, the stretch is sorted. */
  lemma PendingNothing(f: seq<int>, ec: seq<int>, lo: int, hi: int)
    requires Pending(f, ec, lo, hi, [])
    ensures KeySorted(f, ec, lo, hi + 1)
  {
    forall i, j | lo <= i < j <= hi
      ensures ec[f[i]] <= ec[f[j]]
    {
      assert CutAt(f, ec, lo, hi, j);
    }
  }

  /** In a sorted stretch every position is a cut. */
  lemma SortedAllCuts(f: seq<int>, ec: seq<int>, lo: int, hi: int)
    requires Keyed(f, ec, lo, hi + 1) && KeySorted(f, ec, lo, hi + 1)
    ensures Pending(f, ec, lo, hi, [])
  {
  }

  /** Rearranging [l, h] keeps the cuts that are not inside it. */
  lemma CutKept(f: seq<int>, g: seq<int>, ec: seq<int>, lo: int, hi: int, l: int, h: int, k: int)
    requires lo <= l <= h + 1 <= hi + 1 && Rearranged(f, g, l, h + 1)
    requires Keyed(g, ec, lo, hi + 1) && Keyed(f, ec, lo, hi + 1)
    requires CutAt(g, ec, lo, hi, k) && (k <= l || h < k)
    ensures CutAt(f, ec, lo, hi, k)
  {
    forall a, c | lo <= a < k <= c <= hi
      ensures ec[f[a]] <= ec[f[c]]
    {
      var a', c' := a, c;
      if l <= a <= h {
        a' := RearrangedFrom(f, g, l, h + 1, a);
      }
      if l <= c <= h {
        c' := RearrangedFrom(f, g, l, h + 1, c);
      }
      assert f[a] == g[a'] && f[c] == g[c'];
    }
  }

  /** A cut of [l, h] is a cut of [lo, hi] if both ends of [l, h] are. */
  lemma CutLifted(f: seq<int>, ec: seq<int>, lo: int, hi: int, l: int, h: int, k: int)
    requires Keyed(f, ec, lo, hi + 1) && lo <= l <= k <= h + 1 <= hi + 1
    requires CutAt(f, ec, lo, hi, l) && CutAt(f, ec, lo, hi, h + 1)
    requires CutAt(f, ec, l, h, k)
    ensures CutAt(f, ec, lo, hi, k)
  {
    forall a, c | lo <= a < k <= c <= hi
      ensures ec[f[a]] <= ec[f[c]]
    {
      if l < k <= h {
        if a < l {
          if c > h {
            assert ec[f[a]] <= ec[f[l]] <= ec[f[c]];
          }
        } else if c > h {
        }
      }
    }
  }

  /** The situation of `PendingReplace`. */
  ghost predicate Replacing(f: seq<int>, g: seq<int>, ec: seq<int>, lo: int, hi: int, st: seq<Stretch>, top: Stretch, parts: seq<Stretch>) {
    && Pending(g, ec, lo, hi, st + [top])
    && Rearranged(f, g, top.lo, top.hi + 1) && Pending(f, ec, top.lo, top.hi, parts)
    && Keyed(f, ec, lo, hi + 1)
    && CutAt(f, ec, lo, hi, top.lo) && CutAt(f, ec, lo, hi, top.hi + 1)
  }

  lemma ReplaceStart(f: seq<int>, g: seq<int>, ec: seq<int>, lo: int, hi: int, st: seq<Stretch>, top: Stretch, parts: seq<Stretch>)
    requires Pending(g, ec, lo, hi, st + [top])
    requires Rearranged(f, g, top.lo, top.hi + 1) && Pending(f, ec, top.lo, top.hi, parts)
    ensures Replacing(f, g, ec, lo, hi, st, top, parts)
  {
    assert (st + [top])[|st|] == top;
    CutKept(f, g, ec, lo, hi, top.lo, top.hi, top.lo);
    CutKept(f, g, ec, lo, hi, top.lo, top.hi, top.hi + 1);
  }

  lemma ReplaceBounds(f: seq<int>, g: seq<int>, ec: seq<int>, lo: int, hi: int, st: seq<Stretch>, top: Stretch,
                      parts: seq<Stretch>, p: Stretch)
    requires Replacing(f, g, ec, lo, hi, st, top, parts) && p in st + parts
    ensures lo <= p.lo <= p.hi + 1 <= hi + 1
    ensures CutAt(f, ec, lo, hi, p.lo) && CutAt(f, ec, lo, hi, p.hi + 1)
  {
    var all := st + [top];
    assert all[|st|] == top;
    if p in st {
      var e :| 0 <= e < |st| && st[e] == p;
      assert all[e] == p && Apart(all[e], all[|st|]);
      CutKept(f, g, ec, lo, hi, top.lo, top.hi, p.lo);
      CutKept(f, g, ec, lo, hi, top.lo, top.hi, p.hi + 1);
    } else {
      CutLifted(f, ec, lo, hi, top.lo, top.hi, p.lo);
      CutLifted(f, ec, lo, hi, top.lo, top.hi, p.hi + 1);
    }
  }

  lemma ReplaceCovers(f: seq<int>, g: seq<int>, ec: seq<int>, lo: int, hi: int, st: seq<Stretch>, top: Stretch, parts: seq<Stretch>, k: int)
    requires Replacing(f, g, ec, lo, hi, st, top, parts) && lo < k <= hi
    ensures StrictlyInside(st + parts, k) || CutAt(f, ec, lo, hi, k)
  {
    var all := st + [top];
    if top.lo < k <= top.hi {
      if StrictlyInside(parts, k) {
        var e :| 0 <= e < |parts| && parts[e].lo < k <= parts[e].hi;
        assert (st + parts)[|st| + e] == parts[e];
      } else {
        CutLifted(f, ec, lo, hi, top.lo, top.hi, k);
      }
    } else if StrictlyInside(all, k) {
      var e :| 0 <= e < |all| && all[e].lo < k <= all[e].hi;
      assert e < |st| && (st + parts)[e] == all[e];
    } else {
      CutKept(f, g, ec, lo, hi, top.lo, top.hi, k);
    }
  }

  lemma ReplaceApart(f: seq<int>, g: seq<int>, ec: seq<int>, lo: int, hi: int, st: seq<Stretch>, top: Stretch,
                     parts: seq<Stretch>, e: nat, e': nat)
    requires Replacing(f, g, ec, lo, hi, st, top, parts) && e < e' < |st + parts|
    ensures Apart((st + parts)[e], (st + parts)[e'])
  {
    var all := st + [top];
    assert all[|st|] == top;
    if e < |st| {
      assert Apart(all[e], all[|st|]);
      if e' < |st| {
        assert Apart(all[e], all[e']);
      }
    }
  }

  /** The step of both quicksorts: the stretch on top of the stack is rearranged and replaced by the
      parts of it that are still pending. */
  lemma PendingReplace(f: seq<int>, g: seq<int>, ec: seq<int>, lo: int, hi: int, st: seq<Stretch>, top: Stretch, parts: seq<Stretch>)
    requires Pending(g, ec, lo, hi, st + [top])
    requires Rearranged(f, g, top.lo, top.hi + 1) && Pending(f, ec, top.lo, top.hi, parts)
    ensures Pending(f, ec, lo, hi, st + parts)
  {
    forall i | lo <= i <= hi
      ensures 0 <= f[i] < |ec|
    {
      if !(top.lo <= i <= top.hi) {
        assert f[i] == g[i];
      }
    }
    ReplaceStart(f, g, ec, lo, hi, st, top, parts);
    forall p | p in st + parts
      ensures lo <= p.lo <= p.hi + 1 <= hi + 1 && CutAt(f, ec, lo, hi, p.lo) && CutAt(f, ec, lo, hi, p.hi + 1)
    {
      ReplaceBounds(f, g, ec, lo, hi, st, top, parts, p);
    }
    forall e, e' | 0 <= e < e' < |st + parts|
      ensures Apart((st + parts)[e], (st + parts)[e'])
    {
      ReplaceApart(f, g, ec, lo, hi, st, top, parts, e, e');
    }
    forall k | lo < k <= hi
      ensures StrictlyInside(st + parts, k) || CutAt(f, ec, lo, hi, k)
    {
      ReplaceCovers(f, g, ec, lo, hi, st, top, parts, k);
    }
  }

  /** Below, equal to and above a pivot leaves two pending parts, which may be stacked in either order. */
  lemma PendingTwoParts(f: seq<int>, ec: seq<int>, lo: int, hi: int, n: int, m: int)
    requires Keyed(f, ec, lo, hi + 1) && lo <= n + 1 < m <= hi + 1
    requires forall a, c :: lo <= a <= n && n < c <= hi ==> ec[f[a]] <= ec[f[c]]
    requires forall a, c :: lo <= a < m && m <= c <= hi ==> ec[f[a]] <= ec[f[c]]
    requires forall a, c :: n < a < m && n < c < m ==> ec[f[a]] == ec[f[c]]
    ensures Pending(f, ec, lo, hi, [Stretch(lo, n), Stretch(m, hi)])
    ensures Pending(f, ec, lo, hi, [Stretch(m, hi), Stretch(lo, n)])
  {
    var p, q := [Stretch(lo, n), Stretch(m, hi)], [Stretch(m, hi), Stretch(lo, n)];
    forall k | lo < k <= hi
      ensures StrictlyInside(p, k) || CutAt(f, ec, lo, hi, k)
      ensures StrictlyInside(q, k) || CutAt(f, ec, lo, hi, k)
    {
      assert p[0].lo < k <= p[0].hi || p[1].lo < k <= p[1].hi || n < k <= m;
      assert q[0] == p[1] && q[1] == p[0];
      if n < k <= m {
        forall a, c | lo <= a < k <= c <= hi
          ensures ec[f[a]] <= ec[f[c]]
        {
          if n < a && c < m {
          }
        }
      }
    }
  }

  // ----- Stack depth and termination.

  /** The length of a stretch; an empty one may end just before it starts. */
  function Size(p: Stretch): nat {
    if p.lo <= p.hi then p.hi - p.lo + 1 else 0
  }

  /** Strictly decreases when a stretch is replaced by proper parts of it. */
  ghost function Weight(st: seq<Stretch>): nat {
    if st == [] then 0 else Weight(st[..|st| - 1]) + 2 * Size(st[|st| - 1]) + 1
  }

  lemma WeightPush(st: seq<Stretch>, p: Stretch)
    ensures Weight(st + [p]) == Weight(st) + 2 * Size(p) + 1
  {
    assert (st + [p])[..|st|] == st;
  }
}
