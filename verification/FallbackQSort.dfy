/** The two sorting loops of the fallback sort: insertion sort for short stretches and three-way quicksort with an
    explicit stack.  Both sort `fmap` in place by the key eclass[fmap[i]].

    The quicksort is justified by cuts: a position is a cut when no key before it exceeds a key at or behind it.
    Every position is a cut, or lies strictly inside a stretch still on the stack.
 */
module FallbackQSort {
  import opened Permutations
  import opened Arrays
  import opened Cuts
  import opened ThreeWay

  const STACK_SIZE := 100
  const SMALL_THRESH := 10
  /** The largest block, in bytes. */
  const MAX_BLOCK := 900000

  // ----- Insertion sort.

  /** [i, hi] is sorted but for the hole at `h`, and the keys below the hole are less than `x`. */
  ghost predicate HoleSorted(f: seq<int>, ec: seq<int>, i: nat, h: nat, hi: nat, x: int)
    requires i <= h <= hi && Keyed(f, ec, i, hi + 1)
  {
    && (forall a, c :: i <= a < c <= hi && a != h && c != h ==> ec[f[a]] <= ec[f[c]])
    && (forall a :: i <= a < h ==> ec[f[a]] < x)
  }

  /** An insertion under way: `tmp` is out of the array, position `h` is free. */
  ghost predicate Inserting(f: seq<int>, f0: seq<int>, ec: seq<int>, lo: nat, i: nat, h: nat, hi: nat, tmp: int, ordered: bool) {
    && lo <= i <= h <= hi < |f|
    && Keyed(f, ec, lo, hi + 1) && 0 <= tmp < |ec|
    && Rearranged(f[h := tmp], f0, lo, hi + 1)
    && (ordered ==> HoleSorted(f, ec, i, h, hi, ec[tmp]))
  }

  lemma InsertStart(f: seq<int>, ec: seq<int>, lo: nat, i: nat, hi: nat, ordered: bool)
    requires lo <= i <= hi && Keyed(f, ec, lo, hi + 1) && (ordered ==> KeySorted(f, ec, i + 1, hi + 1))
    ensures Inserting(f, f, ec, lo, i, i, hi, f[i], ordered)
  {
    assert f[i := f[i]] == f;
  }

  /** Moving the free position from `h` up to `h'`. */
  lemma InsertMove(f: seq<int>, g: seq<int>, f0: seq<int>, ec: seq<int>, lo: nat, i: nat, h: nat, h': nat, hi: nat, tmp: int, ordered: bool)
    requires Inserting(f, f0, ec, lo, i, h, hi, tmp, ordered) && h < h' <= hi
    requires ec[tmp] > ec[f[h']] && (ordered ==> h' == h + 1)
    requires g == f[h := f[h']]
    ensures Inserting(g, f0, ec, lo, i, h', hi, tmp, ordered)
  {
    HoleMoved(f, f0, h, h', tmp, lo, hi + 1);
  }

  /** Filling the free position `h` ends the insertion. */
  lemma InsertEnd(f: seq<int>, g: seq<int>, f0: seq<int>, ec: seq<int>, lo: nat, i: nat, h: nat, hi: nat, tmp: int, ordered: bool)
    requires Inserting(f, f0, ec, lo, i, h, hi, tmp, ordered)
    requires ordered && h < hi ==> ec[tmp] <= ec[f[h + 1]]
    requires g == f[h := tmp]
    ensures Rearranged(g, f0, lo, hi + 1) && Keyed(g, ec, lo, hi + 1)
    ensures ordered ==> KeySorted(g, ec, i, hi + 1)
  {
  }

  /** Inserts fmap[i] among the entries `step`, 2 * step, ... places behind it. */
  method InsertUp(fmap: array<int>, eclass: array<int>, i: nat, hi: nat, step: nat, ghost lo: nat, ghost ec: seq<int>, ghost ordered: bool)
    requires fmap != eclass && lo <= i < hi < fmap.Length && step > 0
    requires eclass[..] == ec && Keyed(fmap[..], ec, lo, hi + 1)
    requires ordered ==> step == 1 && KeySorted(fmap[..], ec, i + 1, hi + 1)
    modifies fmap
    ensures Rearranged(fmap[..], old(fmap[..]), lo, hi + 1) && Keyed(fmap[..], ec, lo, hi + 1)
    ensures ordered ==> KeySorted(fmap[..], ec, i, hi + 1)
  {
    hide Rearranged;
    ghost var f0 := fmap[..];
    InsertStart(f0, ec, lo, i, hi, ordered);
    var tmp := fmap[i];
    var ecTmp := eclass[tmp];
    var j := i + step;
    while j <= hi && ecTmp > eclass[fmap[j]]
      invariant Inserting(fmap[..], f0, ec, lo, i, j - step, hi, tmp, ordered)
      decreases hi - j
    {
      ghost var f := fmap[..];
      Store(fmap, j - step, fmap[j]);
      InsertMove(f, fmap[..], f0, ec, lo, i, j - step, j, hi, tmp, ordered);
      j := j + step;
    }
    ghost var f := fmap[..];
    Store(fmap, j - step, tmp);
    InsertEnd(f, fmap[..], f0, ec, lo, i, j - step, hi, tmp, ordered);
  }

  /** Sorts [lo, hi] by key: insertions at distance 4 first, then at distance 1. */
  method FallbackSimpleSort(fmap: array<int>, eclass: array<int>, lo: nat, hi: int, ghost ec: seq<int>)
    requires fmap != eclass && lo <= hi + 1 <= fmap.Length
    requires eclass[..] == ec && Keyed(fmap[..], ec, lo, hi + 1)
    modifies fmap
    ensures Rearranged(fmap[..], old(fmap[..]), lo, hi + 1) && Keyed(fmap[..], ec, lo, hi + 1)
    ensures KeySorted(fmap[..], ec, lo, hi + 1)
  {
    if lo == hi {
      return;
    }
    ghost var f0 := fmap[..];
    if hi - lo > 3 {
      var i := hi - 4;
      while i >= lo
        invariant lo - 1 <= i <= hi - 4
        invariant Rearranged(fmap[..], f0, lo, hi + 1) && Keyed(fmap[..], ec, lo, hi + 1)
      {
        InsertUp(fmap, eclass, i, hi, 4, lo, ec, false);
        i := i - 1;
      }
    }
    var i := hi - 1;
    while i >= lo
      invariant lo - 1 <= i <= hi - 1 || lo > hi
      invariant Rearranged(fmap[..], f0, lo, hi + 1) && Keyed(fmap[..], ec, lo, hi + 1)
      invariant lo <= hi ==> KeySorted(fmap[..], ec, i + 1, hi + 1)
    {
      InsertUp(fmap, eclass, i, hi, 1, lo, ec, true);
      i := i - 1;
    }
  }

  // ----- Quicksort.

  /** `total` halved `e` times, rounding down. */
  function Halved(total: nat, e: nat): nat {
    if e == 0 then total else Halved(total, e - 1) / 2
  }

  /** The larger part is stacked first, so stack entry `e` holds at most the total halved e times. */
  ghost predicate StackFits(st: seq<Stretch>, total: nat) {
    forall e :: 0 <= e < |st| ==> Size(st[e]) <= Halved(total, e)
  }

  /** A stretch long enough to be partitioned sits low in the stack. */
  lemma HalvedBound(total: nat, e: nat)
    requires total <= MAX_BLOCK && Halved(total, e) > SMALL_THRESH
    ensures e <= 16
  {
    var t := MAX_BLOCK;
    assert Halved(t, 2) == 225000 && Halved(t, 4) == 56250 && Halved(t, 6) == 14062 && Halved(t, 8) == 3515;
    assert Halved(t, 10) == 878 && Halved(t, 12) == 219 && Halved(t, 14) == 54 && Halved(t, 16) == 13;
    if e > 16 {
      HalvedMono(total, MAX_BLOCK, 17, e);
    }
  }

  lemma {:induction false} HalvedMono(total: nat, total': nat, d: nat, e: nat)
    requires d <= e && total <= total'
    ensures Halved(total, e) <= Halved(total', d)
    decreases e
  {
    if d < e {
      HalvedMono(total, total', d, e - 1);
    } else if d > 0 {
      HalvedMono(total, total', d - 1, e - 1);
    }
  }

  lemma ThreeWaysPending(f: seq<int>, ec: seq<int>, med: int, lo: int, hi: int, n: int, m: int)
    requires ThreeWays(f, ec, med, lo, hi, n, m) && n + 1 < m
    ensures Pending(f, ec, lo, hi, [Stretch(lo, n), Stretch(m, hi)])
    ensures Pending(f, ec, lo, hi, [Stretch(m, hi), Stretch(lo, n)])
  {
    PendingTwoParts(f, ec, lo, hi, n, m);
  }

  /** All keys equal the pivot: nothing is pending. */
  lemma AllEqualPending(f: seq<int>, ec: seq<int>, med: int, lo: int, hi: int, ltLo: int, unLo: int, unHi: int, gtHi: int)
    requires Scanning(f, ec, med, lo, hi, ltLo, unLo, unHi, gtHi) && unHi == unLo - 1 && gtHi < ltLo
    ensures Pending(f, ec, lo, hi, [])
  {
    SortedAllCuts(f, ec, lo, hi);
  }

  /** One turn of the quicksort: sorts a short stretch, or partitions a long one around a pivot picked from its first,
      middle or last entry.  Returns what is left to sort, the larger part first. */
  method QSortTurn(fmap: array<int>, eclass: array<int>, lo: int, hi: int, r0: int, ghost ec: seq<int>)
    returns (parts: seq<Stretch>, r: int)
    requires fmap != eclass && eclass[..] == ec && r0 >= 0
    requires 0 <= lo <= hi + 1 <= fmap.Length && Keyed(fmap[..], ec, lo, hi + 1)
    modifies fmap
    ensures r >= 0
    ensures Rearranged(fmap[..], old(fmap[..]), lo, hi + 1)
    ensures Pending(fmap[..], ec, lo, hi, parts)
    ensures TurnParts(Stretch(lo, hi), parts)
  {
    r := r0;
    if hi - lo < SMALL_THRESH {
      FallbackSimpleSort(fmap, eclass, lo, hi, ec);
      SortedAllCuts(fmap[..], ec, lo, hi);
      return [], r;
    }
    r := (r * 7621 + 1) % 32768;
    var r3 := r % 3;
    var at := if r3 == 0 then lo else if r3 == 1 then (lo + hi) / 2 else hi;
    var med := eclass[fmap[at]];
    ghost var g := fmap[..];
    assert eclass[0..] == ec;
    var ltLo, unLo, unHi, gtHi := Partition(fmap, eclass, 0, med, lo, hi, ec);
    if gtHi < ltLo {
      AllEqualPending(fmap[..], ec, med, lo, hi, ltLo, unLo, unHi, gtHi);
      return [], r;
    }
    var n, m := Gather(fmap, med, lo, hi, ltLo, unLo, unHi, gtHi, ec);
    PivotStays(fmap[..], g, ec, med, lo, hi, n, m, at);
    ThreeWaysPending(fmap[..], ec, med, lo, hi, n, m);
    if n - lo > hi - m {
      parts := [Stretch(lo, n), Stretch(m, hi)];
    } else {
      parts := [Stretch(m, hi), Stretch(lo, n)];
    }
  }

  lemma StackFitsPush(st: seq<Stretch>, top: Stretch, parts: seq<Stretch>, total: nat)
    requires StackFits(st + [top], total) && total <= MAX_BLOCK
    requires |parts| == 2 && Size(top) > SMALL_THRESH
    requires Size(parts[1]) <= Size(parts[0]) && Size(parts[0]) + Size(parts[1]) < Size(top)
    ensures StackFits(st + parts, total) && |st| <= 16
    ensures Weight(st + parts) < Weight(st + [top])
  {
    assert (st + [top])[|st|] == top;
    HalvedBound(total, |st|);
    assert forall e :: 0 <= e < |st| ==> (st + parts)[e] == (st + [top])[e];
    assert st + parts == (st + [parts[0]]) + [parts[1]];
    WeightPush(st, top);
    WeightPush(st, parts[0]);
    WeightPush(st + [parts[0]], parts[1]);
  }

  method PushParts(stack: array<Stretch>, sp: nat, parts: seq<Stretch>)
    requires sp + |parts| <= stack.Length && |parts| == 2
    modifies stack
    ensures stack[..sp + 2] == old(stack[..sp]) + parts
  {
    stack[sp] := parts[0];
    stack[sp + 1] := parts[1];
  }

  method PopTop(stack: array<Stretch>, sp: nat, ghost st: seq<Stretch>) returns (top: Stretch)
    requires 0 < sp <= stack.Length && stack[..sp] == st
    ensures st == st[..sp - 1] + [top] && stack[..sp - 1] == st[..sp - 1]
  {
    top := stack[sp - 1];
    assert st[sp - 1] == top;
  }

  /** What the quicksort loop keeps. */
  ghost predicate Sorting(f: seq<int>, f0: seq<int>, ec: seq<int>, lo: int, hi: int, st: seq<Stretch>) {
    && 0 <= lo <= hi && Pending(f, ec, lo, hi, st) && Rearranged(f, f0, lo, hi + 1) && StackFits(st, hi - lo + 1)
  }

  lemma SortingTop(g: seq<int>, f0: seq<int>, ec: seq<int>, lo: int, hi: int, st: seq<Stretch>, top: Stretch)
    requires Sorting(g, f0, ec, lo, hi, st + [top])
    ensures lo <= top.lo <= top.hi + 1 <= hi + 1 && Keyed(g, ec, top.lo, top.hi + 1)
  {
    assert (st + [top])[|st|] == top;
  }

  /** What one turn leaves to do: nothing, or two parts, the larger one first. */
  ghost predicate TurnParts(top: Stretch, parts: seq<Stretch>) {
    parts == [] ||
    (|parts| == 2 && top.hi - top.lo >= SMALL_THRESH
     && Size(parts[1]) <= Size(parts[0]) && Size(parts[0]) + Size(parts[1]) <= top.hi - top.lo)
  }

  lemma StackStep(st: seq<Stretch>, top: Stretch, parts: seq<Stretch>, total: nat)
    requires StackFits(st + [top], total) && total <= MAX_BLOCK && TurnParts(top, parts)
    ensures StackFits(st + parts, total)
    ensures Weight(st + parts) < Weight(st + [top])
    ensures parts != [] ==> |st| <= 16
  {
    WeightPush(st, top);
    if parts == [] {
      assert st + parts == st;
      assert forall e :: 0 <= e < |st| ==> st[e] == (st + [top])[e];
    } else {
      StackFitsPush(st, top, parts, total);
    }
  }

  lemma SortingStep(f: seq<int>, g: seq<int>, f0: seq<int>, ec: seq<int>, lo: int, hi: int, st: seq<Stretch>,
                    top: Stretch, parts: seq<Stretch>)
    requires Sorting(g, f0, ec, lo, hi, st + [top])
    requires Rearranged(f, g, top.lo, top.hi + 1) && Pending(f, ec, top.lo, top.hi, parts)
    requires StackFits(st + parts, hi - lo + 1)
    ensures Sorting(f, f0, ec, lo, hi, st + parts)
  {
    PendingReplace(f, g, ec, lo, hi, st, top, parts);
    SortingTop(g, f0, ec, lo, hi, st, top);
  }

  /** Pops a stretch, gives it a turn, and pushes what is left of it. */
  method PopAndTurn(fmap: array<int>, eclass: array<int>, stack: array<Stretch>, sp0: nat, r0: int, ghost f0: seq<int>, ghost ec: seq<int>,
                    ghost lo: nat, ghost hi: nat, ghost st0: seq<Stretch>)
    returns (sp: nat, r: int, ghost st: seq<Stretch>)
    requires fmap != eclass && eclass[..] == ec && r0 >= 0 && stack.Length == STACK_SIZE
    requires lo <= hi < fmap.Length && hi - lo < MAX_BLOCK
    requires 0 < sp0 == |st0| <= stack.Length && stack[..sp0] == st0
    requires Sorting(fmap[..], f0, ec, lo, hi, st0)
    modifies fmap, stack
    ensures r >= 0 && |st| == sp <= stack.Length && stack[..sp] == st && (sp < sp0 || sp <= 18)
    ensures Sorting(fmap[..], f0, ec, lo, hi, st) && Weight(st) < Weight(st0)
  {
    hide Weight;
    ghost var g := fmap[..];
    var top := PopTop(stack, sp0, st0);
    sp := sp0 - 1;
    st := st0[..sp];
    SortingTop(g, f0, ec, lo, hi, st, top);
    var parts;
    parts, r := QSortTurn(fmap, eclass, top.lo, top.hi, r0, ec);
    StackStep(st, top, parts, hi - lo + 1);
    SortingStep(fmap[..], g, f0, ec, lo, hi, st, top, parts);
    st := st + parts;
    if parts != [] {
      PushParts(stack, sp, parts);
      sp := sp + 2;
    }
  }

  /** Sorts [loSt, hiSt] by key.  The stack assertion (code 1004) holds at every turn for blocks of legal size. */
  method FallbackQSort3(fmap: array<int>, eclass: array<int>, loSt: nat, hiSt: nat, ghost ec: seq<int>)
    requires fmap != eclass && eclass[..] == ec
    requires loSt <= hiSt < fmap.Length && hiSt - loSt < MAX_BLOCK && Keyed(fmap[..], ec, loSt, hiSt + 1)
    modifies fmap
    ensures Rearranged(fmap[..], old(fmap[..]), loSt, hiSt + 1)
    ensures Keyed(fmap[..], ec, loSt, hiSt + 1) && KeySorted(fmap[..], ec, loSt, hiSt + 1)
  {
    ghost var f0 := fmap[..];
    var stack := new Stretch[STACK_SIZE];
    var r := 0;
    stack[0] := Stretch(loSt, hiSt);
    var sp := 1;
    ghost var st := [Stretch(loSt, hiSt)];
    assert stack[..sp] == st;
    PendingAll(fmap[..], ec, loSt, hiSt);
    while sp > 0
      invariant 0 <= sp == |st| <= 18 && r >= 0
      invariant stack[..sp] == st
      invariant Sorting(fmap[..], f0, ec, loSt, hiSt, st)
      decreases Weight(st)
    {
      assert sp < STACK_SIZE - 1;
      sp, r, st := PopAndTurn(fmap, eclass, stack, sp, r, f0, ec, loSt, hiSt, st);
    }
    PendingNothing(fmap[..], ec, loSt, hiSt);
  }
}
