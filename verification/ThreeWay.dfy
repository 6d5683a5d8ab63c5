/** Three-way partition in place, as both quicksorts do it: keys equal to the pivot gather at the two ends during the
    scans and are exchanged into the middle afterwards.

    The key of entry x is eclass[x + off]; the fallback sort uses off = 0, the main sort the current depth.
 */
module ThreeWay {
  import opened Permutations
  import opened Arrays
  import opened Cuts

  ghost predicate KeysBelow(f: seq<int>, ec: seq<int>, med: int, lo: int, hi: int) {
    0 <= lo && hi <= |f| && forall k :: lo <= k < hi ==> 0 <= f[k] < |ec| && ec[f[k]] < med
  }

  ghost predicate KeysEqual(f: seq<int>, ec: seq<int>, med: int, lo: int, hi: int) {
    0 <= lo && hi <= |f| && forall k :: lo <= k < hi ==> 0 <= f[k] < |ec| && ec[f[k]] == med
  }

  ghost predicate KeysAbove(f: seq<int>, ec: seq<int>, med: int, lo: int, hi: int) {
    0 <= lo && hi <= |f| && forall k :: lo <= k < hi ==> 0 <= f[k] < |ec| && ec[f[k]] > med
  }

  /** The state of the partitioning scans: equal keys gather at both ends. */
  ghost predicate Scanning(f: seq<int>, ec: seq<int>, med: int, lo: int, hi: int, ltLo: int, unLo: int, unHi: int, gtHi: int) {
    && 0 <= lo <= ltLo <= unLo <= unHi + 1 <= gtHi + 1 <= hi + 1 <= |f|
    && Keyed(f, ec, lo, hi + 1)
    && KeysEqual(f, ec, med, lo, ltLo) && KeysBelow(f, ec, med, ltLo, unLo)
    && KeysAbove(f, ec, med, unHi + 1, gtHi + 1) && KeysEqual(f, ec, med, gtHi + 1, hi + 1)
  }

  /** The scan from the left: stops in front of a key above `med`. */
  /** The entry looked at from below. */
  lemma LookUp(f: seq<int>, ec: seq<int>, med: int, lo: int, hi: int, ltLo: int, unLo: int, unHi: int, gtHi: int)
    requires Scanning(f, ec, med, lo, hi, ltLo, unLo, unHi, gtHi) && unLo <= unHi
    ensures 0 <= lo <= ltLo <= unLo <= hi < |f| && 0 <= f[unLo] < |ec|
    ensures ec[f[unLo]] == med ==> Scanning(f[unLo := f[ltLo]][ltLo := f[unLo]], ec, med, lo, hi, ltLo + 1, unLo + 1, unHi, gtHi)
    ensures ec[f[unLo]] < med ==> Scanning(f, ec, med, lo, hi, ltLo, unLo + 1, unHi, gtHi)
  {
  }

  /** The entry looked at from above. */
  lemma LookDown(f: seq<int>, ec: seq<int>, med: int, lo: int, hi: int, ltLo: int, unLo: int, unHi: int, gtHi: int)
    requires Scanning(f, ec, med, lo, hi, ltLo, unLo, unHi, gtHi) && unLo <= unHi
    ensures 0 <= lo <= unHi <= gtHi <= hi < |f| && 0 <= f[unHi] < |ec|
    ensures ec[f[unHi]] == med ==> Scanning(f[unHi := f[gtHi]][gtHi := f[unHi]], ec, med, lo, hi, ltLo, unLo, unHi - 1, gtHi - 1)
    ensures ec[f[unHi]] > med ==> Scanning(f, ec, med, lo, hi, ltLo, unLo, unHi - 1, gtHi)
  {
  }

  method ScanUp(fmap: array<int>, eclass: array<int>, off: nat, med: int, ghost lo: int, ghost hi: int, ltLo0: int, unLo0: int,
                unHi: int, ghost gtHi: int, ghost ec: seq<int>)
    returns (ltLo: int, unLo: int)
    requires fmap != eclass && eclass.Length >= off && eclass[off..] == ec
    requires Scanning(fmap[..], ec, med, lo, hi, ltLo0, unLo0, unHi, gtHi)
    modifies fmap
    ensures Scanning(fmap[..], ec, med, lo, hi, ltLo, unLo, unHi, gtHi) && unLo >= unLo0
    ensures Rearranged(fmap[..], old(fmap[..]), lo, hi + 1)
    ensures unLo <= unHi ==> 0 <= fmap[unLo] < |ec| && ec[fmap[unLo]] > med
  {
    hide Scanning;
    ltLo, unLo := ltLo0, unLo0;
    ScanBounds(fmap[..], ec, med, lo, hi, ltLo, unLo, unHi, gtHi);
    while true
      invariant Scanning(fmap[..], ec, med, lo, hi, ltLo, unLo, unHi, gtHi) && unLo >= unLo0
      invariant Rearranged(fmap[..], old(fmap[..]), lo, hi + 1)
      decreases unHi - unLo
    {
      if unLo > unHi { break; }
      LookUp(fmap[..], ec, med, lo, hi, ltLo, unLo, unHi, gtHi);
      var n := eclass[fmap[unLo] + off] - med;
      if n == 0 {
        Swap(fmap, unLo, ltLo, lo, hi + 1);
        ltLo, unLo := ltLo + 1, unLo + 1;
        continue;
      }
      if n > 0 { break; }
      unLo := unLo + 1;
    }
  }

  /** The scan from the right: stops behind a key below `med`. */
  method ScanDown(fmap: array<int>, eclass: array<int>, off: nat, med: int, ghost lo: int, ghost hi: int, ghost ltLo: int, unLo: int,
                  unHi0: int, gtHi0: int, ghost ec: seq<int>)
    returns (unHi: int, gtHi: int)
    requires fmap != eclass && eclass.Length >= off && eclass[off..] == ec
    requires Scanning(fmap[..], ec, med, lo, hi, ltLo, unLo, unHi0, gtHi0)
    requires unLo <= unHi0 ==> 0 <= fmap[unLo] < |ec| && ec[fmap[unLo]] > med
    modifies fmap
    ensures Scanning(fmap[..], ec, med, lo, hi, ltLo, unLo, unHi, gtHi) && unHi <= unHi0
    ensures Rearranged(fmap[..], old(fmap[..]), lo, hi + 1)
    ensures unLo <= unHi ==> 0 <= fmap[unLo] < |ec| && ec[fmap[unLo]] > med
    ensures unLo <= unHi ==> 0 <= fmap[unHi] < |ec| && ec[fmap[unHi]] < med
  {
    hide Scanning;
    unHi, gtHi := unHi0, gtHi0;
    ScanBounds(fmap[..], ec, med, lo, hi, ltLo, unLo, unHi, gtHi);
    while true
      invariant Scanning(fmap[..], ec, med, lo, hi, ltLo, unLo, unHi, gtHi) && unHi <= unHi0
      invariant Rearranged(fmap[..], old(fmap[..]), lo, hi + 1)
      invariant unLo <= unHi ==> 0 <= fmap[unLo] < |ec| && ec[fmap[unLo]] > med
      decreases unHi - unLo
    {
      if unLo > unHi { break; }
      LookDown(fmap[..], ec, med, lo, hi, ltLo, unLo, unHi, gtHi);
      var n := eclass[fmap[unHi] + off] - med;
      if n == 0 {
        Swap(fmap, unHi, gtHi, lo, hi + 1);
        gtHi, unHi := gtHi - 1, unHi - 1;
        continue;
      }
      if n < 0 { break; }
      unHi := unHi - 1;
    }
  }

  /** Exchanging the keys at which the scans stopped lets both go on. */
  lemma Exchanged(f: seq<int>, ec: seq<int>, med: int, lo: int, hi: int, ltLo: int, unLo: int, unHi: int, gtHi: int)
    requires Scanning(f, ec, med, lo, hi, ltLo, unLo, unHi, gtHi) && unLo <= unHi
    requires 0 <= f[unLo] < |ec| && ec[f[unLo]] > med && 0 <= f[unHi] < |ec| && ec[f[unHi]] < med
    ensures Scanning(f[unLo := f[unHi]][unHi := f[unLo]], ec, med, lo, hi, ltLo, unLo + 1, unHi - 1, gtHi)
  {
    assert unLo != unHi;
  }

  lemma ScanBounds(f: seq<int>, ec: seq<int>, med: int, lo: int, hi: int, ltLo: int, unLo: int, unHi: int, gtHi: int)
    requires Scanning(f, ec, med, lo, hi, ltLo, unLo, unHi, gtHi)
    ensures 0 <= lo <= ltLo <= unLo <= unHi + 1 <= gtHi + 1 <= hi + 1 <= |f|
  {
  }

  /** Both scans in turn, exchanging the keys they stopped at, until they meet. */
  method Partition(fmap: array<int>, eclass: array<int>, off: nat, med: int, lo: int, hi: int, ghost ec: seq<int>)
    returns (ltLo: int, unLo: int, unHi: int, gtHi: int)
    requires fmap != eclass && eclass.Length >= off && eclass[off..] == ec
    requires 0 <= lo <= hi + 1 <= fmap.Length && Keyed(fmap[..], ec, lo, hi + 1)
    modifies fmap
    ensures Scanning(fmap[..], ec, med, lo, hi, ltLo, unLo, unHi, gtHi) && unHi == unLo - 1
    ensures Rearranged(fmap[..], old(fmap[..]), lo, hi + 1)
  {
    hide Keyed;
    ltLo, unLo, unHi, gtHi := lo, lo, hi, hi;
    assert Scanning(fmap[..], ec, med, lo, hi, ltLo, unLo, unHi, gtHi);
    hide Scanning;
    while true
      invariant Scanning(fmap[..], ec, med, lo, hi, ltLo, unLo, unHi, gtHi)
      invariant Rearranged(fmap[..], old(fmap[..]), lo, hi + 1)
      decreases unHi - unLo
    {
      ltLo, unLo := ScanUp(fmap, eclass, off, med, lo, hi, ltLo, unLo, unHi, gtHi, ec);
      unHi, gtHi := ScanDown(fmap, eclass, off, med, lo, hi, ltLo, unLo, unHi, gtHi, ec);
      ScanBounds(fmap[..], ec, med, lo, hi, ltLo, unLo, unHi, gtHi);
      if unLo > unHi { break; }
      Exchanged(fmap[..], ec, med, lo, hi, ltLo, unLo, unHi, gtHi);
      Swap(fmap, unLo, unHi, lo, hi + 1);
      unLo, unHi := unLo + 1, unHi - 1;
    }
  }

  /** Exchanges the stretches of length `n` at `p1` and `p2`. */
  method SwapStretches(fmap: array<int>, p1: nat, p2: nat, n: nat, ghost lo: nat, ghost hi: nat)
    requires lo <= p1 && p1 + n <= p2 && p2 + n <= hi <= fmap.Length
    modifies fmap
    ensures Rearranged(fmap[..], old(fmap[..]), lo, hi)
    ensures StretchesSwapped(fmap[..], old(fmap[..]), p1, p2, n)
  {
    var yyp1, yyp2, yyn := p1, p2, n;
    while yyn > 0
      invariant 0 <= yyn <= n && yyp1 == p1 + n - yyn && yyp2 == p2 + n - yyn
      invariant Rearranged(fmap[..], old(fmap[..]), lo, hi)
      invariant StretchesSwapped(fmap[..], old(fmap[..]), p1, p2, n - yyn)
    {
      Swap(fmap, yyp1, yyp2, lo, hi);
      yyp1, yyp2, yyn := yyp1 + 1, yyp2 + 1, yyn - 1;
    }
  }

  ghost predicate StretchesSwapped(f: seq<int>, g: seq<int>, p1: nat, p2: nat, n: nat) {
    && |f| == |g| && p1 + n <= p2 && p2 + n <= |f|
    && (forall k :: p1 <= k < p1 + n ==> f[k] == g[k + (p2 - p1)])
    && (forall k :: p2 <= k < p2 + n ==> f[k] == g[k - (p2 - p1)])
    && (forall k :: 0 <= k < |f| && !(p1 <= k < p1 + n) && !(p2 <= k < p2 + n) ==> f[k] == g[k])
  }

  /** Below, equal to and above the pivot, in this order. */
  ghost predicate ThreeWays(f: seq<int>, ec: seq<int>, med: int, lo: int, hi: int, n: int, m: int) {
    && 0 <= lo <= n + 1 <= m <= hi + 1 <= |f|
    && KeysBelow(f, ec, med, lo, n + 1) && KeysEqual(f, ec, med, n + 1, m) && KeysAbove(f, ec, med, m, hi + 1)
  }

  /** Where entry `k` comes from when the shorter of the stretches [lo, mid) and [mid, hi) is exchanged with the
      far end of the other: the two stretches have changed places. */
  ghost function Turned(lo: int, mid: int, hi: int, k: int): (k': int)
    requires lo <= mid <= hi && lo <= k < hi
    ensures if k < lo + (hi - mid) then mid <= k' < hi else lo <= k' < mid
  {
    var n := if mid - lo < hi - mid then mid - lo else hi - mid;
    if k < lo + n then k + (hi - n - lo) else if hi - n <= k then k - (hi - n - lo) else k
  }

  ghost predicate TurnedRound(f: seq<int>, g: seq<int>, lo: int, mid: int, hi: int) {
    && 0 <= lo <= mid <= hi <= |f| == |g|
    && (forall k :: lo <= k < hi ==> f[k] == g[Turned(lo, mid, hi, k)])
    && (forall k :: 0 <= k < |f| && !(lo <= k < hi) ==> f[k] == g[k])
  }

  lemma SwappedTurned(f: seq<int>, g: seq<int>, lo: nat, mid: nat, hi: nat, n: nat)
    requires lo <= mid <= hi <= |g| && n == (if mid - lo < hi - mid then mid - lo else hi - mid)
    requires StretchesSwapped(f, g, lo, hi - n, n)
    ensures TurnedRound(f, g, lo, mid, hi)
  {
  }

  lemma GatherLeft(f: seq<int>, g: seq<int>, ec: seq<int>, med: int, lo: int, hi: int, ltLo: int, unLo: int, unHi: int, gtHi: int)
    requires Scanning(g, ec, med, lo, hi, ltLo, unLo, unHi, gtHi)
    requires TurnedRound(f, g, lo, ltLo, unLo)
    ensures KeysBelow(f, ec, med, lo, lo + unLo - ltLo) && KeysEqual(f, ec, med, lo + unLo - ltLo, unLo)
    ensures KeysAbove(f, ec, med, unHi + 1, gtHi + 1) && KeysEqual(f, ec, med, gtHi + 1, hi + 1)
  {
  }

  lemma GatherRight(f: seq<int>, g: seq<int>, ec: seq<int>, med: int, lo: int, hi: int, n: int, unLo: int, gtHi: int)
    requires 0 <= lo <= n <= unLo <= gtHi + 1 <= hi + 1 <= |g| && TurnedRound(f, g, unLo, gtHi + 1, hi + 1)
    requires KeysBelow(g, ec, med, lo, n) && KeysEqual(g, ec, med, n, unLo)
    requires KeysAbove(g, ec, med, unLo, gtHi + 1) && KeysEqual(g, ec, med, gtHi + 1, hi + 1)
    ensures ThreeWays(f, ec, med, lo, hi, n - 1, unLo + (hi - gtHi))
  {
  }

  /** Exchanges the adjacent stretches [lo, mid) and [mid, hi), moving no more entries than the shorter one has. */
  method TurnRound(fmap: array<int>, lo: nat, mid: nat, hi: nat, ghost lo': nat, ghost hi': nat)
    requires lo' <= lo <= mid <= hi <= hi' <= fmap.Length
    modifies fmap
    ensures TurnedRound(fmap[..], old(fmap[..]), lo, mid, hi)
    ensures Rearranged(fmap[..], old(fmap[..]), lo', hi')
  {
    ghost var g := fmap[..];
    var n := if mid - lo < hi - mid then mid - lo else hi - mid;
    SwapStretches(fmap, lo, hi - n, n, lo', hi');
    SwappedTurned(fmap[..], g, lo, mid, hi, n);
  }

  method GatherFromLeft(fmap: array<int>, ghost med: int, lo: int, ghost hi: int, ltLo: int, unLo: int,
                        ghost unHi: int, ghost gtHi: int, ghost ec: seq<int>)
    requires Scanning(fmap[..], ec, med, lo, hi, ltLo, unLo, unHi, gtHi)
    modifies fmap
    ensures Rearranged(fmap[..], old(fmap[..]), lo, hi + 1)
    ensures KeysBelow(fmap[..], ec, med, lo, lo + unLo - ltLo) && KeysEqual(fmap[..], ec, med, lo + unLo - ltLo, unLo)
    ensures KeysAbove(fmap[..], ec, med, unHi + 1, gtHi + 1) && KeysEqual(fmap[..], ec, med, gtHi + 1, hi + 1)
  {
    ghost var g := fmap[..];
    TurnRound(fmap, lo, ltLo, unLo, lo, hi + 1);
    GatherLeft(fmap[..], g, ec, med, lo, hi, ltLo, unLo, unHi, gtHi);
  }

  /** Brings the equal keys from both ends into the middle. */
  method Gather(fmap: array<int>, ghost med: int, lo: int, hi: int, ltLo: int, unLo: int, unHi: int, gtHi: int, ghost ec: seq<int>)
    returns (n: int, m: int)
    requires Scanning(fmap[..], ec, med, lo, hi, ltLo, unLo, unHi, gtHi) && unHi == unLo - 1
    modifies fmap
    ensures n == lo + unLo - ltLo - 1 && m == hi - (gtHi - unHi) + 1
    ensures ThreeWays(fmap[..], ec, med, lo, hi, n, m)
    ensures Rearranged(fmap[..], old(fmap[..]), lo, hi + 1)
  {
    GatherFromLeft(fmap, med, lo, hi, ltLo, unLo, unHi, gtHi, ec);
    ghost var g := fmap[..];
    TurnRound(fmap, unLo, gtHi + 1, hi + 1, lo, hi + 1);
    GatherRight(fmap[..], g, ec, med, lo, hi, lo + unLo - ltLo, unLo, gtHi);
    n := lo + unLo - ltLo - 1;
    m := hi - (gtHi - unHi) + 1;
  }

  /** Some entry of the stretch has the pivot as its key, so both outer parts are shorter than the stretch. */
  lemma PivotStays(f: seq<int>, g: seq<int>, ec: seq<int>, med: int, lo: int, hi: int, n: int, m: int, i: int)
    requires Rearranged(f, g, lo, hi + 1) && ThreeWays(f, ec, med, lo, hi, n, m)
    requires lo <= i <= hi && 0 <= g[i] < |ec| && ec[g[i]] == med
    ensures n + 1 < m
  {
    StretchOcc(f, g, lo, hi + 1, g[i]);
    OccMember(g[lo..hi + 1], g[i]);
    OccMember(f[lo..hi + 1], g[i]);
    assert g[i] == g[lo..hi + 1][i - lo];
    var k :| 0 <= k < |f[lo..hi + 1]| && f[lo..hi + 1][k] == g[i];
    assert f[lo + k] == g[i];
  }
}
