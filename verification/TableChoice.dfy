/** The encoder's choice of coding tables: an initial partition of the alphabet, then four rounds in which every group
    of fifty symbols takes the cheapest table and the tables are made anew, as optimal codes for what they were used for.

    Which tables come out does not matter for decoding; that they are complete codes and that every group has one does.
 */
module TableChoice {
  import opened Bits
  import opened BlockParser
  import opened HuffmanCodes
  import opened HuffmanLengths
  import opened HuffmanTree
  import opened MoveToFront
  import opened SmallDecoder

  const N_ITERS := 4
  const LESSER_ICOST := 0
  const GREATER_ICOST := 15
  /** The longest code the encoder makes. */
  const MAX_LEN := 17

  /** Rows for all tables, `n` entries each. */
  ghost predicate Rows(len: seq<seq<nat>>, n: nat) {
    |len| == N_GROUPS && forall t :: 0 <= t < N_GROUPS ==> |len[t]| == n
  }

  ghost predicate CodesFor(mtfv: seq<UInt16>, nMTF: nat, n: nat) {
    nMTF <= |mtfv| && forall i :: 0 <= i < nMTF ==> mtfv[i] < n
  }

  /** One selector for every fifty symbols. */
  ghost predicate Covers(sel: seq<nat>, nMTF: nat, nGroups: nat) {
    && G_SIZE * (|sel| - 1) < nMTF <= G_SIZE * |sel|
    && forall i :: 0 <= i < |sel| ==> sel[i] < nGroups
  }

  // ----- The initial partition.

  method NumberOfGroups(nMTF: nat) returns (nGroups: nat)
    ensures 2 <= nGroups <= N_GROUPS
    ensures (nGroups > 2 <==> nMTF >= 200) && (nGroups > 3 <==> nMTF >= 600)
    ensures (nGroups > 4 <==> nMTF >= 1200) && (nGroups > 5 <==> nMTF >= 2400)
  {
    if nMTF < 200 {
      nGroups := 2;
    } else if nMTF < 600 {
      nGroups := 3;
    } else if nMTF < 1200 {
      nGroups := 4;
    } else if nMTF < 2400 {
      nGroups := 5;
    } else {
      nGroups := 6;
    }
  }

  /** Division towards zero. */
  function TruncDiv(a: int, b: int): int
    requires b > 0
  {
    if a >= 0 then a / b else -((-a) / b)
  }

  function Total(s: seq<nat>): nat {
    if s == [] then 0 else Total(s[..|s| - 1]) + s[|s| - 1]
  }

  /** Symbol `e` is the first from `gs` on with which the frequencies reach the share `tFreq`, or else the last one. */
  ghost predicate ReachesShare(freq: seq<nat>, gs: int, tFreq: int, e: int) {
    && 0 <= gs <= |freq| && gs - 1 <= e < |freq|
    && (forall k :: gs <= k <= e ==> Total(freq[gs..k]) < tFreq)
    && (e == |freq| - 1 || Total(freq[gs..e + 1]) >= tFreq)
  }

  /** A part ends there, or, where it is to be shorter, one before. */
  ghost predicate EndsPart(freq: seq<nat>, gs: int, tFreq: int, shrink: bool, ge: int) {
    exists e :: ReachesShare(freq, gs, tFreq, e) && ge == if shrink && e > gs then e - 1 else e
  }

  lemma OneMoreTotal(s: seq<nat>, lo: nat, hi: nat)
    requires lo <= hi < |s|
    ensures Total(s[lo..hi + 1]) == Total(s[lo..hi]) + s[hi]
  {
    assert s[lo..hi + 1][..hi - lo] == s[lo..hi];
  }

  lemma {:induction false} TotalSplit(s: seq<nat>, lo: nat, hi: nat)
    requires lo <= hi <= |s|
    ensures Total(s[..hi]) == Total(s[..lo]) + Total(s[lo..hi])
    decreases hi - lo
  {
    if lo < hi {
      TotalSplit(s, lo, hi - 1);
      OneMoreTotal(s, lo, hi - 1);
      OneMoreTotal(s, 0, hi - 1);
      assert s[0..hi] == s[..hi] && s[0..hi - 1] == s[..hi - 1];
    }
  }

  /** The end of the next part: where its frequencies add up to about its share. */
  method PartEnd(mtfFreq: array<nat>, alphaSize: nat, gs: int, tFreq: int, shrink: bool) returns (ge: int, aFreq: int)
    requires 0 < alphaSize <= mtfFreq.Length && 0 <= gs <= alphaSize
    ensures gs - 1 <= ge < alphaSize && EndsPart(mtfFreq[..alphaSize], gs, tFreq, shrink, ge)
    ensures aFreq == Total(mtfFreq[..alphaSize][gs..ge + 1])
  {
    hide Total;
    ghost var freq := mtfFreq[..alphaSize];
    ge := gs - 1;
    aFreq := 0;
    NoTotal(freq[gs..ge + 1]);
    while aFreq < tFreq && ge < alphaSize - 1
      invariant gs - 1 <= ge < alphaSize && aFreq == Total(freq[gs..ge + 1])
      invariant forall k :: gs <= k <= ge ==> Total(freq[gs..k]) < tFreq
      decreases alphaSize - ge
    {
      ge := ge + 1;
      OneMoreTotal(freq, gs, ge);
      aFreq := aFreq + mtfFreq[ge];
    }
    assert ReachesShare(freq, gs, tFreq, ge);
    if ge > gs && shrink {
      OneMoreTotal(freq, gs, ge);
      aFreq := aFreq - mtfFreq[ge];
      ge := ge - 1;
    }
  }

  lemma NoTotal(s: seq<nat>)
    requires s == []
    ensures Total(s) == 0
  {
  }

  /** The costs of a part: low within it, high elsewhere. */
  ghost predicate PartRow(row: seq<nat>, n: nat, lo: int, hi: int) {
    |row| == n && forall v :: 0 <= v < n ==> row[v] == if lo <= v < hi then 0 else 15
  }

  method PartCosts(alphaSize: nat, gs: int, ge: int) returns (row: seq<nat>)
    ensures PartRow(row, alphaSize, gs, ge + 1)
  {
    row := [];
    var v := 0;
    while v < alphaSize
      invariant 0 <= v == |row| <= alphaSize
      invariant forall k :: 0 <= k < v ==> row[k] == if gs <= k < ge + 1 then LESSER_ICOST else GREATER_ICOST
    {
      row := row + [if gs <= v <= ge then LESSER_ICOST else GREATER_ICOST];
      v := v + 1;
    }
  }

  /** Part `p`, from `b[p]` up to `b[p + 1]`, takes its share of what the parts before it have left over; the second, fourth
      and so on, but not the last, are cut shorter by one. */
  ghost predicate PartOk(b: seq<nat>, freq: seq<nat>, nMTF: nat, nGroups: nat, p: nat)
    requires p + 1 < |b| && p < nGroups
  {
    && b[p] <= b[p + 1] <= |freq|
    && EndsPart(freq, b[p], TruncDiv(nMTF - Total(freq[..b[p]]), nGroups - p), 0 < p < nGroups - 1 && p % 2 == 1,
                b[p + 1] as int - 1)
  }

  /** The first `k` parts, the first one for the last table. */
  ghost predicate PartsOk(b: seq<nat>, len: seq<seq<nat>>, freq: seq<nat>, nMTF: nat, nGroups: nat, k: nat) {
    && |b| == k + 1 && k <= nGroups <= |len| && b[0] == 0
    && forall p :: 0 <= p < k ==> PartOk(b, freq, nMTF, nGroups, p) && PartRow(len[nGroups - 1 - p], |freq|, b[p], b[p + 1])
  }

  /** The tables to begin with. */
  ghost predicate InitialPartition(len: seq<seq<nat>>, freq: seq<nat>, nMTF: nat, nGroups: nat) {
    exists b :: PartsOk(b, len, freq, nMTF, nGroups, nGroups)
  }

  lemma OneMorePart(b: seq<nat>, len: seq<seq<nat>>, freq: seq<nat>, nMTF: nat, nGroups: nat, k: nat, end: nat, row: seq<nat>)
    requires PartsOk(b, len, freq, nMTF, nGroups, k) && k < nGroups && b[k] <= end <= |freq|
    requires EndsPart(freq, b[k], TruncDiv(nMTF - Total(freq[..b[k]]), nGroups - k), 0 < k < nGroups - 1 && k % 2 == 1,
                      end as int - 1)
    requires PartRow(row, |freq|, b[k], end)
    ensures PartsOk(b + [end], len[nGroups - 1 - k := row], freq, nMTF, nGroups, k + 1)
  {
    hide EndsPart, PartRow, Total, TruncDiv;
    var b', len' := b + [end], len[nGroups - 1 - k := row];
    forall p | 0 <= p < k + 1
      ensures PartOk(b', freq, nMTF, nGroups, p) && PartRow(len'[nGroups - 1 - p], |freq|, b'[p], b'[p + 1])
    {
      if p < k {
        assert PartOk(b, freq, nMTF, nGroups, p);
      }
    }
  }

  method InitialTables(mtfFreq: array<nat>, alphaSize: nat, nMTF: nat, nGroups: nat) returns (len: seq<seq<nat>>)
    requires 0 < alphaSize <= mtfFreq.Length && 2 <= nGroups <= N_GROUPS
    ensures ShortRows(len, alphaSize) && InitialPartition(len, mtfFreq[..alphaSize], nMTF, nGroups)
  {
    hide PartsOk, EndsPart, Total;
    ghost var freq := mtfFreq[..alphaSize];
    len := seq(N_GROUPS, _ => seq(alphaSize, _ => GREATER_ICOST));
    var nPart, remF, gs := nGroups, nMTF as int, 0;
    ghost var b: seq<nat> := [0];
    NoParts(len, freq, nMTF, nGroups);
    while nPart > 0
      invariant 0 <= nPart <= nGroups && 0 <= gs <= alphaSize && ShortRows(len, alphaSize)
      invariant |b| == nGroups - nPart + 1 && PartsOk(b, len, freq, nMTF, nGroups, nGroups - nPart)
      invariant b[nGroups - nPart] == gs && remF == nMTF - Total(freq[..gs])
    {
      var tFreq := TruncDiv(remF, nPart);
      var shrink := nPart != nGroups && nPart != 1 && (nGroups - nPart) % 2 == 1;
      var ge, aFreq := PartEnd(mtfFreq, alphaSize, gs, tFreq, shrink);
      var row := PartCosts(alphaSize, gs, ge);
      OneMorePart(b, len, freq, nMTF, nGroups, nGroups - nPart, ge + 1, row);
      TotalSplit(freq, gs, ge + 1);
      len := len[nPart - 1 := row];
      b := b + [ge + 1];
      nPart := nPart - 1;
      gs := ge + 1;
      remF := remF - aFreq;
    }
  }

  lemma NoParts(len: seq<seq<nat>>, freq: seq<nat>, nMTF: nat, nGroups: nat)
    requires nGroups <= |len|
    ensures PartsOk([0], len, freq, nMTF, nGroups, 0) && Total(freq[..0]) == 0
  {
  }

  // ----- One round.

  /** No code is longer than the encoder makes them. */
  ghost predicate ShortRows(len: seq<seq<nat>>, n: nat) {
    Rows(len, n) && forall t, v :: 0 <= t < N_GROUPS && 0 <= v < n ==> len[t][v] <= MAX_LEN
  }

  ghost predicate InAlphabet(mtfv: seq<UInt16>, gs: nat, end: nat, n: nat) {
    gs <= end <= |mtfv| && forall i :: gs <= i < end ==> mtfv[i] < n
  }

  /** The bits that a table takes for the symbols from `gs` up to, but without, `end`. */
  ghost function Cost(row: seq<nat>, mtfv: seq<UInt16>, gs: nat, end: nat): nat
    requires InAlphabet(mtfv, gs, end, |row|)
  {
    if gs == end then 0 else Cost(row, mtfv, gs, end - 1) + row[mtfv[end - 1]]
  }

  lemma {:induction false} CostBound(row: seq<nat>, mtfv: seq<UInt16>, gs: nat, end: nat)
    requires InAlphabet(mtfv, gs, end, |row|) && forall v :: 0 <= v < |row| ==> row[v] <= MAX_LEN
    ensures Cost(row, mtfv, gs, end) <= MAX_LEN * (end - gs)
    decreases end - gs
  {
    if gs < end {
      CostBound(row, mtfv, gs, end - 1);
    }
  }

  /** The costs of a group in every table that is in use. */
  ghost predicate CostsOf(cost: seq<nat>, len: seq<seq<nat>>, mtfv: seq<UInt16>, gs: nat, end: nat, n: nat, nGroups: nat)
    requires nGroups <= N_GROUPS && Rows(len, n) && InAlphabet(mtfv, gs, end, n)
  {
    |cost| == N_GROUPS && forall t :: 0 <= t < nGroups ==> cost[t] == Cost(len[t], mtfv, gs, end)
  }

  /** The cost of symbols gs..ge in every table, as 16-bit sums, which do not overflow. */
  method PlainCosts(mtfv: array<UInt16>, gs: nat, ge: int, nGroups: nat, len: seq<seq<nat>>, ghost n: nat) returns (cost: seq<nat>)
    requires gs <= ge + 1 <= gs + G_SIZE && nGroups <= N_GROUPS && ShortRows(len, n) && InAlphabet(mtfv[..], gs, ge + 1, n)
    ensures CostsOf(cost, len, mtfv[..], gs, ge + 1, n, nGroups)
  {
    cost := seq(N_GROUPS, _ => 0);
    var i := gs;
    while i <= ge
      invariant gs <= i <= ge + 1
      invariant CostsOf(cost, len, mtfv[..], gs, i, n, nGroups)
    {
      var icv := mtfv[i];
      assert icv == mtfv[..][i];
      var t := 0;
      while t < nGroups
        invariant 0 <= t <= nGroups && |cost| == N_GROUPS
        invariant forall k :: 0 <= k < t ==> cost[k] == Cost(len[k], mtfv[..], gs, i + 1)
        invariant forall k :: t <= k < nGroups ==> cost[k] == Cost(len[k], mtfv[..], gs, i)
      {
        CostBound(len[t], mtfv[..], gs, i);
        cost := cost[t := (cost[t] + len[t][icv]) % 0x1_0000];
        t := t + 1;
      }
      i := i + 1;
    }
  }

  /** Two lengths of a symbol in one 32-bit word. */
  function Packed(len: seq<seq<nat>>, v: nat, k: nat): nat
    requires 2 * k + 1 < |len| && v < |len[2 * k]| && v < |len[2 * k + 1]|
  {
    len[2 * k + 1][v] * 0x1_0000 + len[2 * k][v]
  }

  /** The cost of a whole group in two tables at once: the sums in the two halves of a word do not run into each other. */
  method PairCosts(mtfv: array<UInt16>, gs: nat, len: seq<seq<nat>>, k: nat, ghost n: nat) returns (low: nat, high: nat)
    requires k < 3 && ShortRows(len, n) && InAlphabet(mtfv[..], gs, gs + G_SIZE, n)
    ensures low == Cost(len[2 * k], mtfv[..], gs, gs + G_SIZE) && high == Cost(len[2 * k + 1], mtfv[..], gs, gs + G_SIZE)
  {
    var cost := 0;
    var nn := 0;
    while nn < G_SIZE
      invariant 0 <= nn <= G_SIZE
      invariant cost == Cost(len[2 * k + 1], mtfv[..], gs, gs + nn) * 0x1_0000 + Cost(len[2 * k], mtfv[..], gs, gs + nn)
    {
      var icv := mtfv[gs + nn];
      assert icv == mtfv[..][gs + nn];
      cost := cost + Packed(len, icv, k);
      nn := nn + 1;
    }
    CostBound(len[2 * k], mtfv[..], gs, gs + G_SIZE);
    low, high := cost % 0x1_0000, cost / 0x1_0000;
  }

  /** The common case, six tables and a whole group, by packed sums: the same costs. */
  method FastCosts(mtfv: array<UInt16>, gs: nat, len: seq<seq<nat>>, ghost n: nat) returns (cost: seq<nat>)
    requires ShortRows(len, n) && InAlphabet(mtfv[..], gs, gs + G_SIZE, n)
    ensures CostsOf(cost, len, mtfv[..], gs, gs + G_SIZE, n, N_GROUPS)
  {
    hide Cost;
    var c0, c1 := PairCosts(mtfv, gs, len, 0, n);
    var c2, c3 := PairCosts(mtfv, gs, len, 1, n);
    var c4, c5 := PairCosts(mtfv, gs, len, 2, n);
    cost := [c0, c1, c2, c3, c4, c5];
  }

  method GroupCosts(mtfv: array<UInt16>, gs: nat, ge: int, nGroups: nat, len: seq<seq<nat>>, ghost n: nat) returns (cost: seq<nat>)
    requires gs <= ge + 1 <= gs + G_SIZE && nGroups <= N_GROUPS && ShortRows(len, n) && InAlphabet(mtfv[..], gs, ge + 1, n)
    ensures CostsOf(cost, len, mtfv[..], gs, ge + 1, n, nGroups)
  {
    if nGroups == 6 && ge - gs + 1 == G_SIZE {
      cost := FastCosts(mtfv, gs, len, n);
    } else {
      cost := PlainCosts(mtfv, gs, ge, nGroups, len, n);
    }
  }

  /** The first of the cheapest tables for a group. */
  ghost predicate FirstCheapest(bt: nat, len: seq<seq<nat>>, mtfv: seq<UInt16>, gs: nat, end: nat, n: nat, nGroups: nat)
    requires nGroups <= N_GROUPS && Rows(len, n) && InAlphabet(mtfv, gs, end, n)
  {
    && bt < nGroups
    && (forall t :: 0 <= t < nGroups ==> Cost(len[bt], mtfv, gs, end) <= Cost(len[t], mtfv, gs, end))
    && (forall t :: 0 <= t < bt ==> Cost(len[bt], mtfv, gs, end) < Cost(len[t], mtfv, gs, end))
  }

  method BestTable(cost: seq<nat>, nGroups: nat) returns (bt: int)
    requires |cost| == N_GROUPS && 2 <= nGroups <= N_GROUPS && forall t :: 0 <= t < nGroups ==> cost[t] < 999_999_999
    ensures 0 <= bt < nGroups
    ensures forall t :: 0 <= t < nGroups ==> cost[bt] <= cost[t]
    ensures forall t :: 0 <= t < bt ==> cost[bt] < cost[t]
  {
    var bc: nat := 999_999_999;
    bt := -1;
    var t := 0;
    while t < nGroups
      invariant 0 <= t <= nGroups && (t == 0 ==> bt == -1 && bc == 999_999_999)
      invariant t > 0 ==> 0 <= bt < t && bc == cost[bt]
      invariant forall k :: 0 <= k < t ==> bc <= cost[k]
      invariant forall k :: 0 <= k < bt ==> bc < cost[k]
    {
      if cost[t] < bc {
        bc := cost[t];
        bt := t;
      }
      t := t + 1;
    }
  }

  /** The table a group takes. */
  method ChooseTable(mtfv: array<UInt16>, gs: nat, ge: int, nGroups: nat, len: seq<seq<nat>>, ghost n: nat) returns (bt: int)
    requires gs <= ge + 1 <= gs + G_SIZE && 2 <= nGroups <= N_GROUPS && ShortRows(len, n) && InAlphabet(mtfv[..], gs, ge + 1, n)
    ensures 0 <= bt < nGroups && FirstCheapest(bt, len, mtfv[..], gs, ge + 1, n, nGroups)
  {
    var cost := GroupCosts(mtfv, gs, ge, nGroups, len, n);
    forall t | 0 <= t < nGroups
      ensures cost[t] < 999_999_999
    {
      CostBound(len[t], mtfv[..], gs, ge + 1);
    }
    hide Cost;
    bt := BestTable(cost, nGroups);
  }

  lemma {:induction false} TotalBump(s: seq<nat>, i: nat)
    requires i < |s|
    ensures Total(s[i := s[i] + 1]) == Total(s) + 1
    decreases |s|
  {
    var k := |s| - 1;
    if i == k {
      assert s[i := s[i] + 1][..k] == s[..k];
    } else {
      TotalBump(s[..k], i);
      assert s[i := s[i] + 1][..k] == s[..k][i := s[i] + 1];
    }
  }

  lemma {:induction false} TotalZeros(n: nat)
    ensures Total(seq(n, _ => 0)) == 0
  {
    if n > 0 {
      TotalZeros(n - 1);
      assert seq(n, _ => 0)[..n - 1] == seq(n - 1, _ => 0);
    }
  }

  /** The starting weights of the code-length computation add up to little more than the frequencies. */
  lemma {:induction false} WeightsTotal(freq: seq<nat>, k: nat)
    requires k <= |freq| <= MAX_ALPHA_SIZE
    ensures LeafSum(StartWeights(freq), k) <= Total(freq[..k]) + k
    decreases k
  {
    if k > 0 {
      WeightsTotal(freq, k - 1);
      assert freq[..k][..k - 1] == freq[..k - 1];
    }
  }

  /** No table is used for more than `m` symbols. */
  ghost predicate UsedFor(rfreq: seq<seq<nat>>, n: nat, m: nat) {
    Rows(rfreq, n) && forall t :: 0 <= t < N_GROUPS ==> Total(rfreq[t]) <= m
  }

  /** How many of the first `k` symbols are `v` in a group that uses table `t`. */
  function Uses(sel: seq<nat>, mtfv: seq<UInt16>, t: nat, v: nat, k: nat): nat
    requires k <= |mtfv| && k <= G_SIZE * |sel|
  {
    if k == 0 then 0 else Uses(sel, mtfv, t, v, k - 1) + if sel[(k - 1) / G_SIZE] == t && mtfv[k - 1] == v then 1 else 0
  }

  ghost predicate Counts(freq: seq<nat>, sel: seq<nat>, mtfv: seq<UInt16>, t: nat, k: nat)
    requires k <= |mtfv| && k <= G_SIZE * |sel|
  {
    forall v :: 0 <= v < |freq| ==> freq[v] == Uses(sel, mtfv, t, v, k)
  }

  ghost predicate AllCounts(rfreq: seq<seq<nat>>, sel: seq<nat>, mtfv: seq<UInt16>, n: nat, k: nat) {
    && Rows(rfreq, n) && k <= |mtfv| && k <= G_SIZE * |sel|
    && forall t :: 0 <= t < N_GROUPS ==> Counts(rfreq[t], sel, mtfv, t, k)
  }

  lemma {:induction false} UsesMoreGroups(sel: seq<nat>, more: seq<nat>, mtfv: seq<UInt16>, t: nat, v: nat, k: nat)
    requires k <= |mtfv| && k <= G_SIZE * |sel|
    ensures Uses(sel + more, mtfv, t, v, k) == Uses(sel, mtfv, t, v, k)
  {
    if k > 0 {
      UsesMoreGroups(sel, more, mtfv, t, v, k - 1);
    }
  }

  lemma CountsMoreGroups(rfreq: seq<seq<nat>>, sel: seq<nat>, bt: nat, mtfv: seq<UInt16>, n: nat, k: nat)
    requires AllCounts(rfreq, sel, mtfv, n, k)
    ensures AllCounts(rfreq, sel + [bt], mtfv, n, k)
  {
    hide Uses;
    forall t, v | 0 <= t < N_GROUPS && 0 <= v < n
      ensures rfreq[t][v] == Uses(sel + [bt], mtfv, t, v, k)
    {
      UsesMoreGroups(sel, [bt], mtfv, t, v, k);
      assert Counts(rfreq[t], sel, mtfv, t, k);
    }
  }

  lemma CountOne(rfreq: seq<seq<nat>>, sel: seq<nat>, mtfv: seq<UInt16>, n: nat, k: nat)
    requires AllCounts(rfreq, sel, mtfv, n, k) && k < |mtfv| && k < G_SIZE * |sel| && mtfv[k] < n
    requires sel[k / G_SIZE] < N_GROUPS
    ensures var bt, v := sel[k / G_SIZE], mtfv[k];
            AllCounts(rfreq[bt := rfreq[bt][v := rfreq[bt][v] + 1]], sel, mtfv, n, k + 1)
  {
    var bt, v := sel[k / G_SIZE], mtfv[k];
    var rfreq' := rfreq[bt := rfreq[bt][v := rfreq[bt][v] + 1]];
    forall t | 0 <= t < N_GROUPS
      ensures Counts(rfreq'[t], sel, mtfv, t, k + 1)
    {
      assert Counts(rfreq[t], sel, mtfv, t, k);
    }
  }

  /** Counts symbols gs..ge for table `bt`. */
  method CountGroup(mtfv: array<UInt16>, gs: nat, ge: int, bt: nat, rfreq0: seq<seq<nat>>, ghost n: nat, ghost sel: seq<nat>)
    returns (rfreq: seq<seq<nat>>)
    requires gs <= ge + 1 <= mtfv.Length && bt < N_GROUPS && UsedFor(rfreq0, n, gs) && forall i :: gs <= i <= ge ==> mtfv[i] < n
    requires sel != [] && gs == G_SIZE * (|sel| - 1) && ge < G_SIZE * |sel| && sel[|sel| - 1] == bt
    requires AllCounts(rfreq0, sel, mtfv[..], n, gs)
    ensures UsedFor(rfreq, n, ge + 1) && AllCounts(rfreq, sel, mtfv[..], n, ge + 1)
  {
    hide Uses, AllCounts, Total;
    rfreq := rfreq0;
    var i := gs;
    while i <= ge
      invariant gs <= i <= ge + 1 && UsedFor(rfreq, n, i) && AllCounts(rfreq, sel, mtfv[..], n, i)
    {
      TotalBump(rfreq[bt], mtfv[i]);
      InGroup(i, |sel| - 1);
      CountOne(rfreq, sel, mtfv[..], n, i);
      rfreq := rfreq[bt := rfreq[bt][mtfv[i] := rfreq[bt][mtfv[i]] + 1]];
      i := i + 1;
    }
  }

  lemma InGroup(i: nat, k: nat)
    requires G_SIZE * k <= i < G_SIZE * (k + 1)
    ensures i / G_SIZE == k
  {
  }

  /** Every group has taken the first of its cheapest tables. */
  ghost predicate AllCheapest(sel: seq<nat>, len: seq<seq<nat>>, mtfv: seq<UInt16>, nMTF: nat, n: nat, nGroups: nat)
    requires nGroups <= N_GROUPS && Rows(len, n) && CodesFor(mtfv, nMTF, n)
  {
    forall k {:trigger sel[k]} :: 0 <= k < |sel| && G_SIZE * k < nMTF ==>
      FirstCheapest(sel[k], len, mtfv, G_SIZE * k, GroupEnd(k, nMTF), n, nGroups)
  }

  /** Where group `k` ends. */
  ghost function GroupEnd(k: nat, nMTF: nat): (end: nat)
    ensures end <= nMTF && (G_SIZE * k < nMTF ==> G_SIZE * k < end <= G_SIZE * k + G_SIZE)
  {
    if G_SIZE * k + G_SIZE <= nMTF then G_SIZE * k + G_SIZE else nMTF
  }

  /** Lets every group take its best table. */
  method ChooseSelectors(mtfv: array<UInt16>, nMTF: nat, nGroups: nat, alphaSize: nat, len: seq<seq<nat>>)
    returns (sel: seq<nat>, rfreq: seq<seq<nat>>)
    requires 2 <= nGroups <= N_GROUPS && ShortRows(len, alphaSize) && CodesFor(mtfv[..], nMTF, alphaSize) && nMTF > 0
    ensures Covers(sel, nMTF, nGroups) && UsedFor(rfreq, alphaSize, nMTF) && AllCounts(rfreq, sel, mtfv[..], alphaSize, nMTF)
    ensures AllCheapest(sel, len, mtfv[..], nMTF, alphaSize, nGroups)
  {
    hide Total, FirstCheapest, Uses;
    assert forall i :: 0 <= i < nMTF ==> mtfv[i] == mtfv[..][i] < alphaSize;
    rfreq := seq(N_GROUPS, _ => seq(alphaSize, _ => 0));
    TotalZeros(alphaSize);
    sel := [];
    NothingCounted(rfreq, mtfv[..], alphaSize);
    hide AllCounts;
    var gs := 0;
    while true
      invariant 0 <= gs <= nMTF && UsedFor(rfreq, alphaSize, gs) && AllCounts(rfreq, sel, mtfv[..], alphaSize, gs)
      invariant gs < nMTF ==> gs == G_SIZE * |sel|
      invariant gs == nMTF ==> G_SIZE * (|sel| - 1) < nMTF <= G_SIZE * |sel|
      invariant forall i :: 0 <= i < |sel| ==> sel[i] < nGroups
      invariant AllCheapest(sel, len, mtfv[..], nMTF, alphaSize, nGroups)
      decreases nMTF - gs
    {
      if gs >= nMTF {
        break;
      }
      var ge := gs + G_SIZE - 1;
      if ge >= nMTF {
        ge := nMTF - 1;
      }
      assert ge + 1 == GroupEnd(|sel|, nMTF);
      var bt := ChooseTable(mtfv, gs, ge, nGroups, len, alphaSize);
      CountsMoreGroups(rfreq, sel, bt, mtfv[..], alphaSize, gs);
      sel := sel + [bt];
      rfreq := CountGroup(mtfv, gs, ge, bt, rfreq, alphaSize, sel);
      gs := ge + 1;
    }
  }

  lemma NothingCounted(rfreq: seq<seq<nat>>, mtfv: seq<UInt16>, n: nat)
    requires rfreq == seq(N_GROUPS, _ => seq(n, _ => 0))
    ensures AllCounts(rfreq, [], mtfv, n, 0)
  {
  }

  /** A complete code of at most 17 bits for the `n` symbols of each of the first `k` tables. */
  ghost predicate TablesMade(len: seq<seq<nat>>, n: nat, k: nat) {
    Rows(len, n) && k <= N_GROUPS && forall t :: 0 <= t < k ==> CompleteLengths(len[t], MAX_LEN)
  }

  /** Makes a table from its frequencies. */
  method MakeTable(freq: seq<nat>, alphaSize: nat) returns (row: seq<nat>)
    requires 2 <= alphaSize == |freq| <= MAX_ALPHA_SIZE && Total(freq) <= 900_001
    ensures |row| == alphaSize && CompleteLengths(row, MAX_LEN) && forall v :: 0 <= v < alphaSize ==> row[v] <= MAX_LEN
    ensures BestLengths(row, freq, MAX_LEN)
  {
    hide BestLengths;
    var f := new nat[alphaSize](i requires 0 <= i < alphaSize => freq[i]);
    var l := new nat[alphaSize];
    assert f[..alphaSize] == freq;
    WeightsTotal(freq, alphaSize);
    assert freq[..alphaSize] == freq;
    TwelveReachable(alphaSize, MAX_LEN);
    MakeCodeLengths(l, f, alphaSize, MAX_LEN);
    row := l[..alphaSize];
  }

  method MakeTables(rfreq: seq<seq<nat>>, alphaSize: nat, nGroups: nat, len0: seq<seq<nat>>, ghost nMTF: nat) returns (len: seq<seq<nat>>)
    requires 2 <= alphaSize <= MAX_ALPHA_SIZE && nMTF <= 900_001 && UsedFor(rfreq, alphaSize, nMTF)
    requires 2 <= nGroups <= N_GROUPS && ShortRows(len0, alphaSize)
    ensures TablesMade(len, alphaSize, nGroups) && ShortRows(len, alphaSize)
    ensures forall t :: 0 <= t < nGroups ==> BestLengths(len[t], rfreq[t], MAX_LEN)
  {
    hide CompleteLengths, Total, BestLengths;
    len := len0;
    var t := 0;
    while t < nGroups
      invariant 0 <= t <= nGroups && TablesMade(len, alphaSize, t) && ShortRows(len, alphaSize)
      invariant forall k :: 0 <= k < t ==> BestLengths(len[k], rfreq[k], MAX_LEN)
    {
      var row := MakeTable(rfreq[t], alphaSize);
      len := len[t := row];
      t := t + 1;
    }
  }

  /** One round: every group takes the first of its cheapest tables, and every table is made anew, as a best code for how
      often each symbol was coded with it. */
  ghost predicate Round(before: seq<seq<nat>>, sel: seq<nat>, after: seq<seq<nat>>, mtfv: seq<UInt16>, nMTF: nat, n: nat, nGroups: nat) {
    && 2 <= nGroups <= N_GROUPS && Rows(before, n) && Rows(after, n) && CodesFor(mtfv, nMTF, n) && Covers(sel, nMTF, nGroups)
    && AllCheapest(sel, before, mtfv, nMTF, n, nGroups)
    && forall t :: 0 <= t < nGroups ==> MadeFor(after[t], sel, mtfv, nMTF, t)
  }

  ghost predicate MadeFor(row: seq<nat>, sel: seq<nat>, mtfv: seq<UInt16>, nMTF: nat, t: nat)
    requires nMTF <= |mtfv| && nMTF <= G_SIZE * |sel|
  {
    exists freq :: |freq| == |row| && Counts(freq, sel, mtfv, t, nMTF) && BestLengths(row, freq, MAX_LEN)
  }

  /** The rounds so far, from the initial partition `lens[0]` on. */
  ghost predicate Rounds(lens: seq<seq<seq<nat>>>, sels: seq<seq<nat>>, mtfv: seq<UInt16>, nMTF: nat, freq: seq<nat>, nGroups: nat) {
    && |lens| == |sels| + 1 && InitialPartition(lens[0], freq, nMTF, nGroups)
    && forall r :: 0 <= r < |sels| ==> Round(lens[r], sels[r], lens[r + 1], mtfv, nMTF, |freq|, nGroups)
  }

  /** The selectors and tables after four rounds. */
  ghost predicate Chosen(sel: seq<nat>, len: seq<seq<nat>>, mtfv: seq<UInt16>, nMTF: nat, freq: seq<nat>, nGroups: nat) {
    exists lens, sels ::
      |sels| == 4 && Rounds(lens, sels, mtfv, nMTF, freq, nGroups) && sel == sels[3] && len == lens[4]
  }

  lemma RoundMade(before: seq<seq<nat>>, sel: seq<nat>, after: seq<seq<nat>>, rfreq: seq<seq<nat>>, mtfv: seq<UInt16>, nMTF: nat, n: nat,
                  nGroups: nat)
    requires 2 <= nGroups <= N_GROUPS && Rows(before, n) && Rows(after, n) && CodesFor(mtfv, nMTF, n) && Covers(sel, nMTF, nGroups)
    requires AllCheapest(sel, before, mtfv, nMTF, n, nGroups) && AllCounts(rfreq, sel, mtfv, n, nMTF)
    requires forall t :: 0 <= t < nGroups ==> BestLengths(after[t], rfreq[t], MAX_LEN)
    ensures Round(before, sel, after, mtfv, nMTF, n, nGroups)
  {
    hide AllCheapest, BestLengths, Uses;
    forall t | 0 <= t < nGroups
      ensures MadeFor(after[t], sel, mtfv, nMTF, t)
    {
      assert Counts(rfreq[t], sel, mtfv, t, nMTF);
    }
  }

  /** All rounds. */
  method ChooseTables(mtfv: array<UInt16>, nMTF: nat, mtfFreq: array<nat>, alphaSize: nat) returns (nGroups: nat,
                      sel: seq<nat>, len: seq<seq<nat>>)
    requires 0 < nMTF <= 900_001 && 2 <= alphaSize <= MAX_ALPHA_SIZE && alphaSize <= mtfFreq.Length && CodesFor(mtfv[..], nMTF, alphaSize)
    ensures 2 <= nGroups <= N_GROUPS && Covers(sel, nMTF, nGroups) && TablesMade(len, alphaSize, nGroups)
    ensures 1 <= |sel| <= MAX_SELECTORS
    ensures (nGroups > 2 <==> nMTF >= 200) && (nGroups > 3 <==> nMTF >= 600)
    ensures (nGroups > 4 <==> nMTF >= 1200) && (nGroups > 5 <==> nMTF >= 2400)
    ensures Chosen(sel, len, mtfv[..], nMTF, mtfFreq[..alphaSize], nGroups)
  {
    hide AllCheapest, AllCounts, BestLengths, InitialPartition, Round;
    nGroups := NumberOfGroups(nMTF);
    len := InitialTables(mtfFreq, alphaSize, nMTF, nGroups);
    sel := [];
    ghost var lens: seq<seq<seq<nat>>>, sels: seq<seq<nat>> := [len], [];
    var iter := 0;
    while iter < N_ITERS
      invariant 0 <= iter == |sels| <= N_ITERS && ShortRows(len, alphaSize)
      invariant Rounds(lens, sels, mtfv[..], nMTF, mtfFreq[..alphaSize], nGroups) && lens[iter] == len
      invariant iter > 0 ==> Covers(sel, nMTF, nGroups) && TablesMade(len, alphaSize, nGroups) && sel == sels[iter - 1]
    {
      var rfreq;
      ghost var before := len;
      sel, rfreq := ChooseSelectors(mtfv, nMTF, nGroups, alphaSize, len);
      len := MakeTables(rfreq, alphaSize, nGroups, len, nMTF);
      RoundMade(before, sel, len, rfreq, mtfv[..], nMTF, alphaSize, nGroups);
      lens, sels := lens + [len], sels + [sel];
      iter := iter + 1;
    }
  }
}
