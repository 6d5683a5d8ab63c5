/** The pointer scan of the main sort: how one sorted big bucket puts the small buckets [c, ss] in order.

    All rotations that begin with `ss` are read in order; each puts its predecessor at the next free place of the
    bucket [c, ss] of the predecessor's byte `c`.  The bucket [ss, ss] is filled while it is being read.  That this
    works rests on two types of rotations in the big bucket: those that come after their successor are all found from
    the left, those that come before it from the right.
 */
module BucketScan {
  import opened Arrays
  import opened Cuts
  import opened Permutations
  import opened Ranks
  import opened Rotations
  import opened TwoByteBuckets

  // ----- Predecessors.

  /** The predecessor of rotation `x`, if its first byte is `c`. */
  ghost function OnePred(b: seq<Byte>, c: int, x: nat): seq<int>
    requires x < |b|
  {
    var k := Prev(|b|, x);
    if b[k] == c then [k] else []
  }

  /** The predecessors, with first byte `c`, of the rotations in `s`, in the same order. */
  ghost function Preds(b: seq<Byte>, c: int, s: seq<int>): seq<int>
    requires InRange(s, |b|)
  {
    if s == [] then [] else Preds(b, c, s[..|s| - 1]) + OnePred(b, c, s[|s| - 1])
  }

  lemma {:induction false} PredsMember(b: seq<Byte>, c: int, s: seq<int>, k: int)
    requires InRange(s, |b|)
    ensures k in Preds(b, c, s) <==> 0 <= k < |b| && b[k] == c && Next(|b|, k) in s
  {
    if s != [] {
      var m := |s| - 1;
      PredsMember(b, c, s[..m], k);
      assert s == s[..m] + [s[m]];
      assert Next(|b|, Prev(|b|, s[m])) == s[m];
    }
  }

  lemma PredsPush(b: seq<Byte>, c: int, s: seq<int>, x: int)
    requires InRange(s, |b|) && 0 <= x < |b|
    ensures InRange(s + [x], |b|) && Preds(b, c, s + [x]) == Preds(b, c, s) + OnePred(b, c, x)
  {
    hide OnePred;
    assert (s + [x])[..|s|] == s;
  }

  lemma {:induction false} PredsPrepend(b: seq<Byte>, c: int, s: seq<int>, x: int)
    requires InRange(s, |b|) && 0 <= x < |b|
    ensures InRange([x] + s, |b|) && Preds(b, c, [x] + s) == OnePred(b, c, x) + Preds(b, c, s)
  {
    hide OnePred;
    if s == [] {
      assert [x] + s == [] + [x];
      PredsPush(b, c, [], x);
    } else {
      var m := |s| - 1;
      PredsPrepend(b, c, s[..m], x);
      assert ([x] + s)[..m + 1] == [x] + s[..m];
      Regrouped(OnePred(b, c, x), Preds(b, c, s[..m]), OnePred(b, c, s[m]));
    }
  }

  lemma Regrouped(u: seq<int>, v: seq<int>, w: seq<int>)
    ensures (u + v) + w == u + (v + w)
  {
  }

  // ----- Two types of rotations.

  /** Whether rotation `i` comes strictly after (`left`) or strictly before its successor. */
  ghost predicate OfType(b: seq<Byte>, rk: seq<int>, i: int, left: bool)
    requires |rk| == |b| && 0 <= i < |b|
  {
    if left then rk[Next(|b|, i)] < rk[i] else rk[i] < rk[Next(|b|, i)]
  }

  /** Behind an equal first byte, ranks are those of the successors. */
  lemma RankNext(b: seq<Byte>, rk: seq<int>, i: nat, j: nat)
    requires IsRanking(b, rk) && i < |b| && j < |b| && b[i] == b[j]
    ensures rk[i] <= rk[j] <==> rk[Next(|b|, i)] <= rk[Next(|b|, j)]
  {
    LeqNext(b, i, j);
  }

  /** A smaller first byte means a smaller rank. */
  lemma RankByte(b: seq<Byte>, rk: seq<int>, i: nat, j: nat)
    requires IsRanking(b, rk) && i < |b| && j < |b| && b[i] < b[j]
    ensures rk[i] < rk[j]
  {
    CmpAnti(b, i, j, |b|);
  }

  /** In a run of equal bytes the type does not change. */
  lemma TypeOfPred(b: seq<Byte>, rk: seq<int>, k: nat, left: bool)
    requires IsRanking(b, rk) && k < |b| && b[k] == b[Next(|b|, k)]
    ensures OfType(b, rk, k, left) <==> OfType(b, rk, Next(|b|, k), left)
  {
    RankNext(b, rk, k, Next(|b|, k));
    RankNext(b, rk, Next(|b|, k), k);
  }

  /** At the end of a run the next byte tells the type. */
  lemma TypeByByte(b: seq<Byte>, rk: seq<int>, k: nat, left: bool)
    requires IsRanking(b, rk) && k < |b| && b[k] != b[Next(|b|, k)]
    ensures OfType(b, rk, k, left) <==> (if left then b[Next(|b|, k)] < b[k] else b[k] < b[Next(|b|, k)])
  {
    if b[k] < b[Next(|b|, k)] {
      RankByte(b, rk, k, Next(|b|, k));
    } else {
      RankByte(b, rk, Next(|b|, k), k);
    }
  }

  /** How far the run of the byte of `i` goes on; some other byte is known to stand `m` places on. */
  ghost predicate RunEnds(b: seq<Byte>, i: int, m: nat) {
    0 <= i < |b| && b[Shift(|b|, i, m)] != b[i]
  }

  lemma RunGoesOn(b: seq<Byte>, i: int, m: nat)
    requires RunEnds(b, i, m) && b[Next(|b|, i)] == b[i]
    ensures m > 0 && RunEnds(b, Next(|b|, i), m - 1)
  {
  }

  /** Unless the whole block is one byte, every run ends. */
  lemma SomeEnd(b: seq<Byte>, i: nat, p: nat) returns (m: nat)
    requires i < |b| && p < |b| && b[p] != b[i]
    ensures RunEnds(b, i, m)
  {
    m := if p >= i then p - i else p + |b| - i;
    ShiftWrap(|b|, i, m);
  }

  /** If runs end, a rotation has one of the two types. */
  lemma {:induction false} HasType(b: seq<Byte>, rk: seq<int>, i: nat, m: nat)
    requires IsRanking(b, rk) && RunEnds(b, i, m)
    ensures OfType(b, rk, i, true) || OfType(b, rk, i, false)
    decreases m
  {
    var j := Next(|b|, i);
    if b[j] == b[i] {
      RunGoesOn(b, i, m);
      HasType(b, rk, j, m - 1);
      TypeOfPred(b, rk, i, true);
      TypeOfPred(b, rk, i, false);
    } else {
      TypeByByte(b, rk, i, true);
      TypeByByte(b, rk, i, false);
    }
  }

  /** With the same first byte, those of the left type come before those of the right type. */
  lemma {:induction false} LeftBeforeRight(b: seq<Byte>, rk: seq<int>, i: nat, j: nat, m: nat)
    requires IsRanking(b, rk) && j < |b| && RunEnds(b, i, m) && b[i] == b[j]
    requires OfType(b, rk, i, true) && OfType(b, rk, j, false)
    ensures rk[i] <= rk[j]
    decreases m
  {
    var i', j' := Next(|b|, i), Next(|b|, j);
    RankNext(b, rk, i, j);
    if b[i'] != b[i] {
      TypeByByte(b, rk, i, true);
      if b[j'] != b[j] {
        TypeByByte(b, rk, j, false);
      }
      RankByte(b, rk, i', j');
    } else if b[j'] != b[j] {
      TypeByByte(b, rk, j, false);
      RankByte(b, rk, i', j');
    } else {
      RunGoesOn(b, i, m);
      TypeOfPred(b, rk, i, true);
      TypeOfPred(b, rk, j, false);
      LeftBeforeRight(b, rk, i', j', m - 1);
    }
  }

  // ----- Sorted stretches of one type.

  /** Different rotations in order. */
  ghost predicate Ascending(rk: seq<int>, s: seq<int>) {
    && InRange(s, |rk|) && Distinct(s)
    && (forall i, j :: 0 <= i < j < |s| ==> rk[s[i]] <= rk[s[j]])
  }

  /** Different rotations with first byte `ss`, all of one type, in order. */
  ghost predicate Typed(b: seq<Byte>, rk: seq<int>, ss: int, s: seq<int>, left: bool) {
    && |rk| == |b| && Ascending(rk, s)
    && (forall i :: 0 <= i < |s| ==> b[s[i]] == ss && OfType(b, rk, s[i], left))
  }

  lemma AscendingPush(rk: seq<int>, s: seq<int>, x: int)
    requires Ascending(rk, s) && 0 <= x < |rk| && forall k :: k in s ==> k != x && rk[k] <= rk[x]
    ensures Ascending(rk, s + [x])
  {
    forall i | 0 <= i < |s|
      ensures s[i] != x && rk[s[i]] <= rk[x]
    {
      assert s[i] in s;
    }
  }

  /** A predecessor of the last rotation comes after those of the ones before it. */
  lemma PredLast(b: seq<Byte>, rk: seq<int>, c: int, s: seq<int>, x: int, k: int)
    requires IsRanking(b, rk) && Ascending(rk, s + [x]) && InRange(s, |b|) && k in Preds(b, c, s)
    ensures 0 <= x < |b| && 0 <= k < |b|
    ensures b[Prev(|b|, x)] == c ==> k != Prev(|b|, x) && rk[k] <= rk[Prev(|b|, x)]
  {
    assert (s + [x])[|s|] == x;
    PredsMember(b, c, s, k);
    var i :| 0 <= i < |s| && s[i] == Next(|b|, k);
    assert (s + [x])[i] == s[i];
    if b[Prev(|b|, x)] == c {
      RankNext(b, rk, k, Prev(|b|, x));
    }
  }

  /** The predecessors of an ascending sequence ascend. */
  lemma {:induction false} PredsAscend(b: seq<Byte>, rk: seq<int>, c: int, s: seq<int>)
    requires IsRanking(b, rk) && Ascending(rk, s)
    ensures |rk| == |b| && Ascending(rk, Preds(b, c, s))
  {
    hide IsRanking, Preds;
    RankingLength(b, rk);
    if s == [] {
      NoPreds(b, c);
    } else {
      var m := |s| - 1;
      AscendingFront(rk, s, m);
      PredsAscend(b, rk, c, s[..m]);
      PredsAscendOn(b, rk, c, s[..m], s[m]);
    }
  }

  lemma NoPreds(b: seq<Byte>, c: int)
    ensures Preds(b, c, []) == []
  {
  }

  lemma AscendingFront(rk: seq<int>, s: seq<int>, m: nat)
    requires Ascending(rk, s) && m + 1 == |s|
    ensures Ascending(rk, s[..m]) && s[..m] + [s[m]] == s
  {
  }

  lemma PredsAscendOn(b: seq<Byte>, rk: seq<int>, c: int, s: seq<int>, x: int)
    requires IsRanking(b, rk) && |rk| == |b| && Ascending(rk, s + [x]) && InRange(s, |b|) && Ascending(rk, Preds(b, c, s))
    ensures InRange(s + [x], |b|) && Ascending(rk, Preds(b, c, s + [x]))
  {
    hide IsRanking, Preds, Ascending, Prev;
    LastInRange(rk, s, x);
    PredsPush(b, c, s, x);
    if b[Prev(|b|, x)] == c {
      forall k | k in Preds(b, c, s)
        ensures 0 <= k < |b| && k != Prev(|b|, x) && rk[k] <= rk[Prev(|b|, x)]
      {
        PredLast(b, rk, c, s, x, k);
      }
      AscendingPush(rk, Preds(b, c, s), Prev(|b|, x));
    } else {
      assert Preds(b, c, s) + [] == Preds(b, c, s);
    }
  }

  lemma LastInRange(rk: seq<int>, s: seq<int>, x: int)
    requires Ascending(rk, s + [x])
    ensures 0 <= x < |rk|
  {
    assert (s + [x])[|s|] == x;
  }

  lemma RankingLength(b: seq<Byte>, rk: seq<int>)
    requires IsRanking(b, rk)
    ensures |rk| == |b|
  {
  }

  /** Predecessors found from the left come before those found from the right. */
  lemma PredsOrder(b: seq<Byte>, rk: seq<int>, ss: int, c: int, s: seq<int>, t: seq<int>, k: int, l: int, p: nat)
    requires IsRanking(b, rk) && Typed(b, rk, ss, s, true) && Typed(b, rk, ss, t, false)
    requires k in Preds(b, c, s) && l in Preds(b, c, t) && p < |b| && b[p] != ss
    ensures 0 <= k < |b| && 0 <= l < |b| && k != l && rk[k] <= rk[l]
  {
    PredsMember(b, c, s, k);
    PredsMember(b, c, t, l);
    var k', l' := Next(|b|, k), Next(|b|, l);
    var m := SomeEnd(b, k', p);
    LeftBeforeRight(b, rk, k', l', m);
    RankNext(b, rk, k, l);
  }

  // ----- The small buckets [c, ss] and the big bucket ss.

  ghost function Lo(b: seq<Byte>, ss: nat, c: nat): nat {
    Start(b, c * 256 + ss)
  }

  ghost function Hi(b: seq<Byte>, ss: nat, c: nat): nat {
    Start(b, c * 256 + ss + 1)
  }

  ghost function BigLo(b: seq<Byte>, ss: nat): nat {
    Start(b, ss * 256)
  }

  ghost function BigHi(b: seq<Byte>, ss: nat): nat {
    Start(b, ss * 256 + 256)
  }

  lemma Layout(b: seq<Byte>, ss: nat, c: nat)
    requires ss < 256 && c < 256
    ensures Lo(b, ss, c) <= Hi(b, ss, c) <= |b|
    ensures c < ss ==> Hi(b, ss, c) <= BigLo(b, ss)
    ensures ss < c ==> BigHi(b, ss) <= Lo(b, ss, c)
    ensures BigLo(b, ss) <= Lo(b, ss, ss) <= Hi(b, ss, ss) <= BigHi(b, ss) <= |b|
  {
    StartEnds(b);
    StartMono(b, c * 256 + ss, c * 256 + ss + 1);
    StartMono(b, c * 256 + ss + 1, KEYS);
    StartMono(b, ss * 256, ss * 256 + ss);
    StartMono(b, ss * 256 + ss, ss * 256 + ss + 1);
    StartMono(b, ss * 256 + ss + 1, ss * 256 + 256);
    StartMono(b, ss * 256 + 256, KEYS);
    if c < ss {
      StartMono(b, c * 256 + ss + 1, ss * 256);
    }
    if ss < c {
      StartMono(b, ss * 256 + 256, c * 256 + ss);
    }
  }

  lemma LayoutPair(b: seq<Byte>, ss: nat, c: nat, c': nat)
    requires ss < 256 && c < c' < 256
    ensures Hi(b, ss, c) <= Lo(b, ss, c')
  {
    StartMono(b, c * 256 + ss + 1, c' * 256 + ss);
  }

  /** Different rotations of one small bucket are no more than the bucket holds. */
  lemma KeyRoom(b: seq<Byte>, f0: seq<int>, key: nat, s: seq<int>)
    requires Bucketed(b, f0) && Distinct(s) && key < KEYS
    requires forall i :: 0 <= i < |s| ==> 0 <= s[i] < |b| && Key(b, s[i]) == key
    ensures |s| <= Start(b, key + 1) - Start(b, key)
  {
    StartEnds(b);
    StartMono(b, key, key + 1);
    StartMono(b, key + 1, KEYS);
    var t := f0[Start(b, key)..Start(b, key + 1)];
    forall i | 0 <= i < |s|
      ensures s[i] in t
    {
      var r := IndexOf(f0[..|b|], |b|, s[i]);
      assert f0[r] == s[i] && InBucket(b, key, r);
      assert t[r - Start(b, key)] == s[i];
    }
    DistinctWithin(s, t);
  }

  /** All predecessors with first byte `c` belong to the small bucket [c, ss]. */
  lemma PredsTyped(b: seq<Byte>, rk: seq<int>, ss: nat, c: nat, s: seq<int>, left: bool)
    requires IsRanking(b, rk) && Typed(b, rk, ss, s, left) && ss < 256 && c < 256
    ensures Ascending(rk, Preds(b, c, s))
    ensures forall i :: 0 <= i < |Preds(b, c, s)| ==> var k := Preds(b, c, s)[i];
                                                      0 <= k < |b| && Key(b, k) == c * 256 + ss && OfType(b, rk, Next(|b|, k), left)
  {
    hide IsRanking;
    PredsAscend(b, rk, c, s);
    forall i | 0 <= i < |Preds(b, c, s)|
      ensures var k := Preds(b, c, s)[i];
              0 <= k < |b| && Key(b, k) == c * 256 + ss && OfType(b, rk, Next(|b|, k), left)
    {
      PredsMember(b, c, s, Preds(b, c, s)[i]);
    }
  }

  /** What is found from both sides fits into the bucket. */
  lemma PredsFit(b: seq<Byte>, rk: seq<int>, ss: nat, f0: seq<int>, s: seq<int>, t: seq<int>, c: nat)
    requires Bucketed(b, f0) && IsRanking(b, rk) && Typed(b, rk, ss, s, true) && Typed(b, rk, ss, t, false) && ss < 256 && c < 256
    ensures |Preds(b, c, s)| + |Preds(b, c, t)| <= Hi(b, ss, c) - Lo(b, ss, c)
    ensures Distinct(Preds(b, c, s) + Preds(b, c, t))
  {
    hide Bucketed, IsRanking, Start, Key, Preds;
    PredsTyped(b, rk, ss, c, s, true);
    PredsTyped(b, rk, ss, c, t, false);
    var v, w := Preds(b, c, s), Preds(b, c, t);
    hide Preds, Typed;
    forall i, j | 0 <= i < |v| && 0 <= j < |w|
      ensures v[i] != w[j]
    {
    }
    KeyRoom(b, f0, c * 256 + ss, v + w);
  }

  lemma TypedPart(b: seq<Byte>, rk: seq<int>, ss: int, s: seq<int>, left: bool, i: nat, j: nat)
    requires Typed(b, rk, ss, s, left) && i <= j <= |s|
    ensures Typed(b, rk, ss, s[i..j], left)
  {
  }

  // ----- The scan.

  /** The bucket [c, ss]: untouched if big bucket c was done, otherwise filled from both ends with what was found. */
  ghost predicate BothEnds(b: seq<Byte>, ss: nat, done: seq<bool>, f: seq<int>, s: seq<int>, t: seq<int>,
                           cs: seq<int>, ce: seq<int>, c: nat)
    requires |done| == |cs| == |ce| == 256 && c < 256 && InRange(s, |b|) && InRange(t, |b|)
  {
    && Lo(b, ss, c) <= cs[c] <= ce[c] + 1 <= Hi(b, ss, c) <= |f|
    && (if done[c] then cs[c] == Lo(b, ss, c) && ce[c] + 1 == Hi(b, ss, c)
        else f[Lo(b, ss, c)..cs[c]] == Preds(b, c, s) && f[ce[c] + 1..Hi(b, ss, c)] == Preds(b, c, t))
  }

  /** Position `r` has not been written. */
  ghost predicate Unwritten(b: seq<Byte>, ss: nat, f0: seq<int>, cs: seq<int>, ce: seq<int>, r: int)
    requires |cs| == |ce| == 256 && Bucketed(b, f0) && 0 <= r < |f0|
  {
    r >= |b| || var k := Key(b, f0[r]); k % 256 != ss || cs[k / 256] <= r <= ce[k / 256]
  }

  /** The scan has read [BigLo, jl) from the left and [jr, BigHi) from the right. */
  ghost predicate Scan(b: seq<Byte>, rk: seq<int>, ss: nat, done: seq<bool>, f0: seq<int>, f: seq<int>, cs: seq<int>, ce: seq<int>,
                       jl: int, jr: int) {
    && IsRanking(b, rk) && Bucketed(b, f0) && |f| == |f0| && |cs| == |ce| == |done| == 256 && ss < 256 && !done[ss]
    && BigLo(b, ss) <= jl <= cs[ss] <= ce[ss] + 1 <= jr <= BigHi(b, ss) <= |b| <= |f|
    && Typed(b, rk, ss, f[BigLo(b, ss)..cs[ss]], true) && Typed(b, rk, ss, f[ce[ss] + 1..BigHi(b, ss)], false)
    && InRange(f[BigLo(b, ss)..jl], |b|) && InRange(f[jr..BigHi(b, ss)], |b|)
    && (forall c :: 0 <= c < 256 ==> BothEnds(b, ss, done, f, f[BigLo(b, ss)..jl], f[jr..BigHi(b, ss)], cs, ce, c))
    && (forall r :: 0 <= r < |f| && Unwritten(b, ss, f0, cs, ce, r) ==> f[r] == f0[r])
  }

  /** A smaller key means a smaller rank. */
  lemma RankKey(b: seq<Byte>, rk: seq<int>, i: nat, j: nat)
    requires IsRanking(b, rk) && i < |b| && j < |b| && Key(b, i) < Key(b, j)
    ensures rk[i] <= rk[j] && i != j
  {
    if b[i] < b[j] {
      RankByte(b, rk, i, j);
    } else {
      RankByte(b, rk, Next(|b|, i), Next(|b|, j));
      RankNext(b, rk, i, j);
    }
  }

  /** In the big bucket, the positions before and behind [ss, ss] hold smaller and larger keys. */
  lemma EdgeKeys(b: seq<Byte>, ss: nat, f0: seq<int>, r: nat)
    requires Bucketed(b, f0) && ss < 256 && r < |b|
    ensures BigLo(b, ss) <= r < Lo(b, ss, ss) ==> ss * 256 <= Key(b, f0[r]) < ss * 256 + ss
    ensures Hi(b, ss, ss) <= r < BigHi(b, ss) ==> ss * 256 + ss < Key(b, f0[r]) < ss * 256 + 256
  {
    var k := Key(b, f0[r]);
    assert InBucket(b, k, r);
    if k < ss * 256 { StartMono(b, k + 1, ss * 256); }
    if k >= ss * 256 + ss { StartMono(b, ss * 256 + ss, k); }
    if k <= ss * 256 + ss { StartMono(b, k + 1, ss * 256 + ss + 1); }
    if k >= ss * 256 + 256 { StartMono(b, ss * 256 + 256, k); }
  }

  lemma SliceAt(f: seq<int>, lo: int, hi: int, r: int)
    requires 0 <= lo <= r < hi <= |f|
    ensures f[lo..hi][r - lo] == f[r]
  {
  }

  /** The rotation appended to the bucket [ss, ss] comes behind all that the left scan has to read. */
  lemma LastRead(b: seq<Byte>, rk: seq<int>, ss: nat, done: seq<bool>, f0: seq<int>, f: seq<int>, cs: seq<int>, ce: seq<int>,
                 jl: int, jr: int, r: int)
    requires Scan(b, rk, ss, done, f0, f, cs, ce, jl, jr) && jl < cs[ss] && BigLo(b, ss) <= r < cs[ss]
    ensures 0 <= f[jl] < |b| && 0 <= f[r] < |b|
    ensures var k := Prev(|b|, f[jl]); b[k] == ss ==> f[r] != k && rk[f[r]] <= rk[k]
  {
    hide Bucketed, IsRanking, Start, OfType, Preds, OnePred;
    RankingLength(b, rk);
    var lo := BigLo(b, ss);
    var all := f[lo..cs[ss]];
    SliceAt(f, lo, cs[ss], jl);
    SliceAt(f, lo, cs[ss], r);
    var k := Prev(|b|, f[jl]);
    if b[k] == ss {
      if r < Lo(b, ss, ss) {
        EdgeKeys(b, ss, f0, r);
        assert Unwritten(b, ss, f0, cs, ce, r);
        RankKey(b, rk, f[r], k);
      } else {
        var s := f[lo..jl];
        assert BothEnds(b, ss, done, f, s, f[jr..BigHi(b, ss)], cs, ce, ss);
        SliceAt(f, Lo(b, ss, ss), cs[ss], r);
        assert s + [f[jl]] == all[..jl + 1 - lo];
        PredLast(b, rk, ss, s, f[jl], f[r]);
      }
    }
  }

  /** A write elsewhere, with nothing new found for bucket [c, ss]. */
  lemma BothEndsKept(b: seq<Byte>, ss: nat, done: seq<bool>, f: seq<int>, s: seq<int>, t: seq<int>, cs: seq<int>, ce: seq<int>, c: nat,
                     f': seq<int>, s': seq<int>, t': seq<int>, cs': seq<int>, ce': seq<int>)
    requires |done| == |cs| == |ce| == |cs'| == |ce'| == 256 && c < 256
    requires InRange(s, |b|) && InRange(t, |b|) && InRange(s', |b|) && InRange(t', |b|)
    requires BothEnds(b, ss, done, f, s, t, cs, ce, c) && |f'| == |f|
    requires forall r :: Lo(b, ss, c) <= r < Hi(b, ss, c) ==> f'[r] == f[r]
    requires cs'[c] == cs[c] && ce'[c] == ce[c]
    requires !done[c] ==> Preds(b, c, s') == Preds(b, c, s) && Preds(b, c, t') == Preds(b, c, t)
    ensures BothEnds(b, ss, done, f', s', t', cs', ce', c)
  {
    hide Preds, Start;
  }

  /** The read position is in the big bucket, and reading on extends what was read. */
  lemma LeftRead(b: seq<Byte>, rk: seq<int>, ss: nat, done: seq<bool>, f0: seq<int>, f: seq<int>, cs: seq<int>,
                 ce: seq<int>, jl: int, jr: int)
    requires Scan(b, rk, ss, done, f0, f, cs, ce, jl, jr) && jl < cs[ss]
    ensures 0 <= f[jl] < |b| && b[f[jl]] == ss && OfType(b, rk, f[jl], true)
    ensures f[BigLo(b, ss)..jl + 1] == f[BigLo(b, ss)..jl] + [f[jl]]
    ensures Typed(b, rk, ss, f[BigLo(b, ss)..jl + 1], true) && Typed(b, rk, ss, f[jr..BigHi(b, ss)], false)
  {
    hide Bucketed, IsRanking, BothEnds, Unwritten, Start;
    var lo, hi := BigLo(b, ss), BigHi(b, ss);
    TypedPart(b, rk, ss, f[lo..cs[ss]], true, 0, jl + 1 - lo);
    assert f[lo..cs[ss]][0..jl + 1 - lo] == f[lo..jl + 1];
    TypedPart(b, rk, ss, f[ce[ss] + 1..hi], false, jr - ce[ss] - 1, hi - ce[ss] - 1);
    assert f[ce[ss] + 1..hi][jr - ce[ss] - 1..hi - ce[ss] - 1] == f[jr..hi];
    assert f[lo..jl + 1][jl - lo] == f[jl];
  }

  /** The predecessor read belongs to a finished big bucket: nothing to do. */
  lemma ScanLeftSkip(b: seq<Byte>, rk: seq<int>, ss: nat, done: seq<bool>, f0: seq<int>, f: seq<int>, cs: seq<int>,
                     ce: seq<int>, jl: int, jr: int)
    requires Scan(b, rk, ss, done, f0, f, cs, ce, jl, jr) && jl < cs[ss]
    requires 0 <= f[jl] < |b| && done[b[Prev(|b|, f[jl])]]
    ensures Scan(b, rk, ss, done, f0, f, cs, ce, jl + 1, jr)
  {
    hide Bucketed, IsRanking, Unwritten, Start, OfType, Ascending, Distinct;
    LeftRead(b, rk, ss, done, f0, f, cs, ce, jl, jr);
    var s, s', t := f[BigLo(b, ss)..jl], f[BigLo(b, ss)..jl + 1], f[jr..BigHi(b, ss)];
    forall c | 0 <= c < 256
      ensures BothEnds(b, ss, done, f, s', t, cs, ce, c)
    {
      PredsPush(b, c, s, f[jl]);
      assert BothEnds(b, ss, done, f, s, t, cs, ce, c);
      BothEndsKept(b, ss, done, f, s, t, cs, ce, c, f, s', t, cs, ce);
    }
  }

  /** There is room for what the left scan finds. */
  lemma RoomLeft(b: seq<Byte>, rk: seq<int>, ss: nat, done: seq<bool>, f0: seq<int>, f: seq<int>, cs: seq<int>,
                 ce: seq<int>, jl: int, jr: int)
    requires Scan(b, rk, ss, done, f0, f, cs, ce, jl, jr) && jl < cs[ss]
    ensures 0 <= f[jl] < |b|
    ensures var c := b[Prev(|b|, f[jl])]; !done[c] ==> Lo(b, ss, c) <= cs[c] <= ce[c] < Hi(b, ss, c) <= |b|
  {
    hide Bucketed, IsRanking, Typed, Unwritten, Start;
    LeftRead(b, rk, ss, done, f0, f, cs, ce, jl, jr);
    var c := b[Prev(|b|, f[jl])];
    var s, t := f[BigLo(b, ss)..jl], f[jr..BigHi(b, ss)];
    PredsPush(b, c, s, f[jl]);
    PredsFit(b, rk, ss, f0, s + [f[jl]], t, c);
    assert BothEnds(b, ss, done, f, s, t, cs, ce, c);
    Layout(b, ss, c);
  }

  lemma TypedPush(b: seq<Byte>, rk: seq<int>, ss: int, s: seq<int>, left: bool, k: int)
    requires Typed(b, rk, ss, s, left) && 0 <= k < |b| && b[k] == ss && OfType(b, rk, k, left)
    requires forall i :: 0 <= i < |s| ==> s[i] != k && rk[s[i]] <= rk[k]
    ensures Typed(b, rk, ss, s + [k], left)
  {
  }

  /** What the left scan has to read stays in order. */
  lemma TypedLeft(b: seq<Byte>, rk: seq<int>, ss: nat, done: seq<bool>, f0: seq<int>, f: seq<int>, cs: seq<int>,
                  ce: seq<int>, jl: int, jr: int, f1: seq<int>)
    requires Scan(b, rk, ss, done, f0, f, cs, ce, jl, jr) && jl < cs[ss] <= ce[ss]
    requires 0 <= f[jl] < |b| && b[Prev(|b|, f[jl])] == ss && f1 == f[cs[ss] := Prev(|b|, f[jl])]
    ensures Typed(b, rk, ss, f1[BigLo(b, ss)..cs[ss] + 1], true)
  {
    hide Bucketed, BothEnds, Unwritten, Start, OfType, IsRanking;
    var k := Prev(|b|, f[jl]);
    var s := f[BigLo(b, ss)..cs[ss]];
    LeftRead(b, rk, ss, done, f0, f, cs, ce, jl, jr);
    TypeOfPred(b, rk, k, true);
    forall i | 0 <= i < |s|
      ensures s[i] != k && rk[s[i]] <= rk[k]
    {
      LastRead(b, rk, ss, done, f0, f, cs, ce, jl, jr, BigLo(b, ss) + i);
    }
    TypedPush(b, rk, ss, s, true, k);
    assert f1[BigLo(b, ss)..cs[ss] + 1] == s + [k];
  }

  /** A write into bucket [c, ss] is outside all other buckets [c', ss], and outside the big bucket unless c is ss. */
  lemma WriteOutside(b: seq<Byte>, ss: nat, c: nat, c': nat, p: int)
    requires ss < 256 && c < 256 && c' < 256 && Lo(b, ss, c) <= p < Hi(b, ss, c)
    ensures c' != c ==> p < Lo(b, ss, c') || Hi(b, ss, c') <= p
    ensures c != ss ==> p < BigLo(b, ss) || BigHi(b, ss) <= p
    ensures p < |b|
  {
    Layout(b, ss, c);
    if c < c' {
      LayoutPair(b, ss, c, c');
    } else if c' < c {
      LayoutPair(b, ss, c', c);
    }
  }

  /** The position written in bucket [c, ss] counts as written from now on. */
  lemma UnwrittenKept(b: seq<Byte>, ss: nat, f0: seq<int>, cs: seq<int>, ce: seq<int>, cs': seq<int>, ce': seq<int>, c: nat, p: nat, r: nat)
    requires |cs| == |ce| == |cs'| == |ce'| == 256 && Bucketed(b, f0) && r < |f0| && ss < 256 && c < 256
    requires Lo(b, ss, c) <= p < Hi(b, ss, c) <= |b| <= |f0|
    requires (cs' == cs[c := p + 1] && p == cs[c] && ce' == ce) || (ce' == ce[c := p - 1] && p == ce[c] && cs' == cs)
    requires Unwritten(b, ss, f0, cs', ce', r)
    ensures r != p && Unwritten(b, ss, f0, cs, ce, r)
  {
    assert (c * 256 + ss) / 256 == c && (c * 256 + ss) % 256 == ss;
    BucketKey(b, f0, c * 256 + ss, p);
  }

  /** The predecessor read goes to the front of its bucket's free places. */
  lemma ScanLeftPut(b: seq<Byte>, rk: seq<int>, ss: nat, done: seq<bool>, f0: seq<int>, f: seq<int>, cs: seq<int>,
                    ce: seq<int>, jl: int, jr: int)
    requires Scan(b, rk, ss, done, f0, f, cs, ce, jl, jr) && jl < cs[ss]
    requires 0 <= f[jl] < |b| && !done[b[Prev(|b|, f[jl])]]
    ensures var k := Prev(|b|, f[jl]); var c := b[k];
            0 <= cs[c] < |b| && Scan(b, rk, ss, done, f0, f[cs[c] := k], cs[c := cs[c] + 1], ce, jl + 1, jr)
  {
    hide Bucketed, IsRanking, Unwritten, Start, OfType, Ascending, Distinct, Preds;
    RoomLeft(b, rk, ss, done, f0, f, cs, ce, jl, jr);
    LeftRead(b, rk, ss, done, f0, f, cs, ce, jl, jr);
    var k := Prev(|b|, f[jl]);
    var c := b[k];
    var p, f1, cs1 := cs[c], f[cs[c] := k], cs[c := cs[c] + 1];
    var lo, hi := BigLo(b, ss), BigHi(b, ss);
    var s, s', t := f[lo..jl], f[lo..jl + 1], f[jr..hi];
    WriteOutside(b, ss, c, ss, p);
    assert f1[lo..jl + 1] == s' && f1[jr..hi] == t && f1[ce[ss] + 1..hi] == f[ce[ss] + 1..hi];
    if c == ss {
      TypedLeft(b, rk, ss, done, f0, f, cs, ce, jl, jr, f1);
    } else {
      assert f1[lo..cs[ss]] == f[lo..cs[ss]];
    }
    forall c' | 0 <= c' < 256
      ensures BothEnds(b, ss, done, f1, s', t, cs1, ce, c')
    {
      PredsPush(b, c', s, f[jl]);
      assert BothEnds(b, ss, done, f, s, t, cs, ce, c');
      WriteOutside(b, ss, c, c', p);
      if c' == c {
        assert f1[Lo(b, ss, c)..p + 1] == f[Lo(b, ss, c)..p] + [k];
        assert f1[ce[c] + 1..Hi(b, ss, c)] == f[ce[c] + 1..Hi(b, ss, c)];
      } else {
        BothEndsKept(b, ss, done, f, s, t, cs, ce, c', f1, s', t, cs1, ce);
      }
    }
    forall r | 0 <= r < |f1| && Unwritten(b, ss, f0, cs1, ce, r)
      ensures f1[r] == f0[r]
    {
      UnwrittenKept(b, ss, f0, cs, ce, cs1, ce, c, p, r);
    }
  }

  // ----- The same from the right.

  /** A predecessor of the first rotation comes before those of the ones behind it. */
  lemma PredFirst(b: seq<Byte>, rk: seq<int>, c: int, s: seq<int>, x: int, k: int)
    requires IsRanking(b, rk) && Ascending(rk, [x] + s) && InRange(s, |b|) && k in Preds(b, c, s)
    ensures 0 <= x < |b| && 0 <= k < |b|
    ensures b[Prev(|b|, x)] == c ==> k != Prev(|b|, x) && rk[Prev(|b|, x)] <= rk[k]
  {
    assert ([x] + s)[0] == x;
    PredsMember(b, c, s, k);
    var i :| 0 <= i < |s| && s[i] == Next(|b|, k);
    assert ([x] + s)[i + 1] == s[i];
    if b[Prev(|b|, x)] == c {
      RankNext(b, rk, Prev(|b|, x), k);
    }
  }

  /** The rotation put into the bucket [ss, ss] comes before all that the right scan has to read. */
  lemma FirstRead(b: seq<Byte>, rk: seq<int>, ss: nat, done: seq<bool>, f0: seq<int>, f: seq<int>, cs: seq<int>, ce: seq<int>,
                  jl: int, jr: int, r: int)
    requires Scan(b, rk, ss, done, f0, f, cs, ce, jl, jr) && ce[ss] + 1 < jr && ce[ss] < r < BigHi(b, ss)
    ensures 0 <= f[jr - 1] < |b| && 0 <= f[r] < |b|
    ensures var k := Prev(|b|, f[jr - 1]); b[k] == ss ==> f[r] != k && rk[k] <= rk[f[r]]
  {
    hide Bucketed, IsRanking, Start, OfType, Preds, OnePred;
    RankingLength(b, rk);
    var lo, hi := ce[ss] + 1, BigHi(b, ss);
    var all := f[lo..hi];
    SliceAt(f, lo, hi, jr - 1);
    SliceAt(f, lo, hi, r);
    var k := Prev(|b|, f[jr - 1]);
    if b[k] == ss {
      if r >= Hi(b, ss, ss) {
        EdgeKeys(b, ss, f0, r);
        assert Unwritten(b, ss, f0, cs, ce, r);
        RankKey(b, rk, k, f[r]);
      } else {
        var s := f[jr..hi];
        assert BothEnds(b, ss, done, f, f[BigLo(b, ss)..jl], s, cs, ce, ss);
        assert f[lo..Hi(b, ss, ss)][r - lo] == f[r];
        assert [f[jr - 1]] + s == all[jr - 1 - lo..];
        PredFirst(b, rk, ss, s, f[jr - 1], f[r]);
      }
    }
  }

  lemma RightRead(b: seq<Byte>, rk: seq<int>, ss: nat, done: seq<bool>, f0: seq<int>, f: seq<int>, cs: seq<int>,
                  ce: seq<int>, jl: int, jr: int)
    requires Scan(b, rk, ss, done, f0, f, cs, ce, jl, jr) && ce[ss] + 1 < jr
    ensures 0 <= f[jr - 1] < |b| && b[f[jr - 1]] == ss && OfType(b, rk, f[jr - 1], false)
    ensures f[jr - 1..BigHi(b, ss)] == [f[jr - 1]] + f[jr..BigHi(b, ss)]
    ensures Typed(b, rk, ss, f[BigLo(b, ss)..jl], true) && Typed(b, rk, ss, f[jr - 1..BigHi(b, ss)], false)
  {
    hide Bucketed, IsRanking, BothEnds, Unwritten, Start;
    var lo, hi := BigLo(b, ss), BigHi(b, ss);
    var e := ce[ss] + 1;
    TypedPart(b, rk, ss, f[lo..cs[ss]], true, 0, jl - lo);
    assert f[lo..cs[ss]][0..jl - lo] == f[lo..jl];
    TypedPart(b, rk, ss, f[e..hi], false, jr - 1 - e, hi - e);
    assert f[e..hi][jr - 1 - e..hi - e] == f[jr - 1..hi];
    assert f[jr - 1..hi][0] == f[jr - 1];
  }

  lemma ScanRightSkip(b: seq<Byte>, rk: seq<int>, ss: nat, done: seq<bool>, f0: seq<int>, f: seq<int>, cs: seq<int>,
                      ce: seq<int>, jl: int, jr: int)
    requires Scan(b, rk, ss, done, f0, f, cs, ce, jl, jr) && ce[ss] + 1 < jr
    requires 0 <= f[jr - 1] < |b| && done[b[Prev(|b|, f[jr - 1])]]
    ensures Scan(b, rk, ss, done, f0, f, cs, ce, jl, jr - 1)
  {
    hide Bucketed, IsRanking, Unwritten, Start, OfType, Ascending, Distinct;
    RightRead(b, rk, ss, done, f0, f, cs, ce, jl, jr);
    var s, t, t' := f[BigLo(b, ss)..jl], f[jr..BigHi(b, ss)], f[jr - 1..BigHi(b, ss)];
    forall c | 0 <= c < 256
      ensures BothEnds(b, ss, done, f, s, t', cs, ce, c)
    {
      PredsPrepend(b, c, t, f[jr - 1]);
      assert BothEnds(b, ss, done, f, s, t, cs, ce, c);
      BothEndsKept(b, ss, done, f, s, t, cs, ce, c, f, s, t', cs, ce);
    }
  }

  lemma RoomRight(b: seq<Byte>, rk: seq<int>, ss: nat, done: seq<bool>, f0: seq<int>, f: seq<int>, cs: seq<int>,
                  ce: seq<int>, jl: int, jr: int)
    requires Scan(b, rk, ss, done, f0, f, cs, ce, jl, jr) && ce[ss] + 1 < jr
    ensures 0 <= f[jr - 1] < |b|
    ensures var c := b[Prev(|b|, f[jr - 1])]; !done[c] ==> Lo(b, ss, c) <= cs[c] <= ce[c] < Hi(b, ss, c) <= |b|
  {
    hide Bucketed, IsRanking, Typed, Unwritten, Start;
    RightRead(b, rk, ss, done, f0, f, cs, ce, jl, jr);
    var c := b[Prev(|b|, f[jr - 1])];
    var s, t := f[BigLo(b, ss)..jl], f[jr..BigHi(b, ss)];
    PredsPrepend(b, c, t, f[jr - 1]);
    PredsFit(b, rk, ss, f0, s, [f[jr - 1]] + t, c);
    assert BothEnds(b, ss, done, f, s, t, cs, ce, c);
    Layout(b, ss, c);
  }

  lemma TypedPrepend(b: seq<Byte>, rk: seq<int>, ss: int, s: seq<int>, left: bool, k: int)
    requires Typed(b, rk, ss, s, left) && 0 <= k < |b| && b[k] == ss && OfType(b, rk, k, left)
    requires forall i :: 0 <= i < |s| ==> s[i] != k && rk[k] <= rk[s[i]]
    ensures Typed(b, rk, ss, [k] + s, left)
  {
  }

  lemma TypedRight(b: seq<Byte>, rk: seq<int>, ss: nat, done: seq<bool>, f0: seq<int>, f: seq<int>, cs: seq<int>,
                   ce: seq<int>, jl: int, jr: int, f1: seq<int>)
    requires Scan(b, rk, ss, done, f0, f, cs, ce, jl, jr) && ce[ss] + 1 < jr && cs[ss] <= ce[ss]
    requires 0 <= f[jr - 1] < |b| && b[Prev(|b|, f[jr - 1])] == ss && f1 == f[ce[ss] := Prev(|b|, f[jr - 1])]
    ensures Typed(b, rk, ss, f1[ce[ss]..BigHi(b, ss)], false)
  {
    hide Bucketed, BothEnds, Unwritten, Start, OfType, IsRanking;
    var k := Prev(|b|, f[jr - 1]);
    var s := f[ce[ss] + 1..BigHi(b, ss)];
    RightRead(b, rk, ss, done, f0, f, cs, ce, jl, jr);
    TypeOfPred(b, rk, k, false);
    forall i | 0 <= i < |s|
      ensures s[i] != k && rk[k] <= rk[s[i]]
    {
      FirstRead(b, rk, ss, done, f0, f, cs, ce, jl, jr, ce[ss] + 1 + i);
    }
    TypedPrepend(b, rk, ss, s, false, k);
    assert f1[ce[ss]..BigHi(b, ss)] == [k] + s;
  }

  /** The predecessor read goes to the back of its bucket's free places. */
  lemma ScanRightPut(b: seq<Byte>, rk: seq<int>, ss: nat, done: seq<bool>, f0: seq<int>, f: seq<int>, cs: seq<int>,
                     ce: seq<int>, jl: int, jr: int)
    requires Scan(b, rk, ss, done, f0, f, cs, ce, jl, jr) && ce[ss] + 1 < jr
    requires 0 <= f[jr - 1] < |b| && !done[b[Prev(|b|, f[jr - 1])]]
    ensures var k := Prev(|b|, f[jr - 1]); var c := b[k];
            0 <= ce[c] < |b| && Scan(b, rk, ss, done, f0, f[ce[c] := k], cs, ce[c := ce[c] - 1], jl, jr - 1)
  {
    hide Bucketed, IsRanking, Unwritten, Start, OfType, Ascending, Distinct, Preds, BigLo, Typed;
    RoomRight(b, rk, ss, done, f0, f, cs, ce, jl, jr);
    RightRead(b, rk, ss, done, f0, f, cs, ce, jl, jr);
    var k := Prev(|b|, f[jr - 1]);
    var c := b[k];
    var p, f1, ce1 := ce[c], f[ce[c] := k], ce[c := ce[c] - 1];
    var lo, hi := BigLo(b, ss), BigHi(b, ss);
    var s, t, t' := f[lo..jl], f[jr..hi], f[jr - 1..hi];
    WriteOutside(b, ss, c, ss, p);
    assert f1[lo..jl] == s && f1[jr - 1..hi] == t' && f1[lo..cs[ss]] == f[lo..cs[ss]];
    if c == ss {
      TypedRight(b, rk, ss, done, f0, f, cs, ce, jl, jr, f1);
    } else {
      assert f1[ce[ss] + 1..hi] == f[ce[ss] + 1..hi];
    }
    forall c' | 0 <= c' < 256
      ensures BothEnds(b, ss, done, f1, s, t', cs, ce1, c')
    {
      PredsPrepend(b, c', t, f[jr - 1]);
      assert BothEnds(b, ss, done, f, s, t, cs, ce, c');
      WriteOutside(b, ss, c, c', p);
      if c' == c {
        assert f1[p..Hi(b, ss, c)] == [k] + f[p + 1..Hi(b, ss, c)];
        assert f1[Lo(b, ss, c)..cs[c]] == f[Lo(b, ss, c)..cs[c]];
      } else {
        BothEndsKept(b, ss, done, f, s, t, cs, ce, c', f1, s, t', cs, ce1);
      }
    }
    forall r | 0 <= r < |f1| && Unwritten(b, ss, f0, cs, ce1, r)
      ensures f1[r] == f0[r]
    {
      UnwrittenKept(b, ss, f0, cs, ce, cs, ce1, c, p, r);
    }
  }

  // ----- Beginning of the scan.

  /** The small bucket `k` is in the order of the rotations. */
  ghost predicate BucketSorted(b: seq<Byte>, f: seq<int>, rk: seq<int>, k: nat) {
    Keyed(f, rk, Start(b, k), Start(b, k + 1)) && KeySorted(f, rk, Start(b, k), Start(b, k + 1))
  }

  /** The small bucket [c, x] is in order. */
  ghost predicate SmallSorted(b: seq<Byte>, f: seq<int>, rk: seq<int>, c: nat, x: nat) {
    BucketSorted(b, f, rk, c * 256 + x)
  }

  /** Between small buckets the keys decide, inside them they must be sorted. */
  lemma SortedAcross(b: seq<Byte>, f: seq<int>, rk: seq<int>, r: nat, s: nat)
    requires IsRanking(b, rk) && Bucketed(b, f) && r < s < |b| && BucketSorted(b, f, rk, Key(b, f[r]))
    ensures rk[f[r]] <= rk[f[s]]
  {
    hide IsRanking;
    RankingLength(b, rk);
    var k, k' := Key(b, f[r]), Key(b, f[s]);
    assert InBucket(b, k, r) && InBucket(b, k', s);
    OneBucket(b, k', k, s, r);
    if k < k' {
      RankKey(b, rk, f[r], f[s]);
    }
  }

  /** A stretch of sorted small buckets ascends. */
  lemma StretchAscends(b: seq<Byte>, f: seq<int>, rk: seq<int>, lo: nat, hi: nat)
    requires IsRanking(b, rk) && Bucketed(b, f) && lo <= hi <= |b|
    requires forall r :: lo <= r < hi ==> BucketSorted(b, f, rk, Key(b, f[r]))
    ensures Ascending(rk, f[lo..hi])
  {
    hide IsRanking, BucketSorted;
    RankingLength(b, rk);
    var s := f[lo..hi];
    forall i, j | 0 <= i < j < |s|
      ensures rk[s[i]] <= rk[s[j]]
    {
      SortedAcross(b, f, rk, lo + i, lo + j);
    }
  }

  /** The small buckets on either side of [ss, ss] hold rotations of one type each. */
  lemma EdgesTyped(b: seq<Byte>, rk: seq<int>, ss: nat, f0: seq<int>)
    requires IsRanking(b, rk) && Bucketed(b, f0) && ss < 256
    requires forall x :: 0 <= x < 256 && x != ss ==> SmallSorted(b, f0, rk, ss, x)
    ensures BigLo(b, ss) <= Lo(b, ss, ss) <= Hi(b, ss, ss) <= BigHi(b, ss) <= |b|
    ensures Typed(b, rk, ss, f0[BigLo(b, ss)..Lo(b, ss, ss)], true) && Typed(b, rk, ss, f0[Hi(b, ss, ss)..BigHi(b, ss)], false)
  {
    hide IsRanking, BucketSorted;
    RankingLength(b, rk);
    Layout(b, ss, ss);
    forall r | 0 <= r < |b| && (BigLo(b, ss) <= r < Lo(b, ss, ss) || Hi(b, ss, ss) <= r < BigHi(b, ss))
      ensures BucketSorted(b, f0, rk, Key(b, f0[r])) && b[f0[r]] == ss && OfType(b, rk, f0[r], r < Lo(b, ss, ss))
    {
      EdgeKeys(b, ss, f0, r);
      assert SmallSorted(b, f0, rk, ss, Key(b, f0[r]) % 256);
      TypeByByte(b, rk, f0[r], r < Lo(b, ss, ss));
    }
    StretchAscends(b, f0, rk, BigLo(b, ss), Lo(b, ss, ss));
    StretchAscends(b, f0, rk, Hi(b, ss, ss), BigHi(b, ss));
  }

  lemma ScanStart(b: seq<Byte>, rk: seq<int>, ss: nat, done: seq<bool>, f0: seq<int>, cs: seq<int>, ce: seq<int>)
    requires IsRanking(b, rk) && Bucketed(b, f0) && ss < 256 && |done| == |cs| == |ce| == 256 && !done[ss]
    requires forall x :: 0 <= x < 256 && x != ss ==> SmallSorted(b, f0, rk, ss, x)
    requires forall c :: 0 <= c < 256 ==> cs[c] == Lo(b, ss, c) && ce[c] == Hi(b, ss, c) - 1
    ensures Scan(b, rk, ss, done, f0, f0, cs, ce, BigLo(b, ss), BigHi(b, ss))
  {
    hide IsRanking, BucketSorted, SmallSorted;
    EdgesTyped(b, rk, ss, f0);
    hide Typed, Bucketed, Start, Key;
    forall c | 0 <= c < 256
      ensures BothEnds(b, ss, done, f0, [], [], cs, ce, c)
    {
      Layout(b, ss, c);
    }
    assert f0[BigLo(b, ss)..BigLo(b, ss)] == [] && f0[BigHi(b, ss)..BigHi(b, ss)] == [];
  }

  // ----- End of the scan.

  /** Everything found has been read. */
  ghost predicate ScanOver(b: seq<Byte>, rk: seq<int>, ss: nat, done: seq<bool>, f0: seq<int>, f: seq<int>, cs: seq<int>, ce: seq<int>) {
    && |cs| == |ce| == 256 && ss < 256
    && Scan(b, rk, ss, done, f0, f, cs, ce, cs[ss], ce[ss] + 1)
  }

  ghost function FromLeft(b: seq<Byte>, ss: nat, f: seq<int>, cs: seq<int>): seq<int>
    requires ss < 256 == |cs| && BigLo(b, ss) <= cs[ss] <= |f|
  {
    f[BigLo(b, ss)..cs[ss]]
  }

  ghost function FromRight(b: seq<Byte>, ss: nat, f: seq<int>, ce: seq<int>): seq<int>
    requires ss < 256 == |ce| && 0 <= ce[ss] + 1 <= BigHi(b, ss) <= |f|
  {
    f[ce[ss] + 1..BigHi(b, ss)]
  }

  lemma OverFacts(b: seq<Byte>, rk: seq<int>, ss: nat, done: seq<bool>, f0: seq<int>, f: seq<int>, cs: seq<int>, ce: seq<int>)
    requires ScanOver(b, rk, ss, done, f0, f, cs, ce)
    ensures IsRanking(b, rk) && |rk| == |b| && Bucketed(b, f0) && |f| == |f0| && ss < 256 == |done| == |ce| == |cs| && !done[ss]
    ensures BigLo(b, ss) <= cs[ss] <= ce[ss] + 1 <= BigHi(b, ss) <= |b| <= |f|
    ensures Typed(b, rk, ss, FromLeft(b, ss, f, cs), true) && Typed(b, rk, ss, FromRight(b, ss, f, ce), false)
    ensures InRange(FromLeft(b, ss, f, cs), |b|) && InRange(FromRight(b, ss, f, ce), |b|)
    ensures forall c :: 0 <= c < 256 ==> BothEnds(b, ss, done, f, FromLeft(b, ss, f, cs), FromRight(b, ss, f, ce), cs, ce, c)
    ensures forall r :: 0 <= r < |f| && Unwritten(b, ss, f0, cs, ce, r) ==> f[r] == f0[r]
  {
    hide Bucketed, BothEnds, Unwritten, Start, Typed;
  }

  lemma BothEndsFacts(b: seq<Byte>, ss: nat, done: seq<bool>, f: seq<int>, s: seq<int>, t: seq<int>, cs: seq<int>, ce: seq<int>, c: nat)
    requires |done| == |cs| == |ce| == 256 && c < 256 && InRange(s, |b|) && InRange(t, |b|)
    requires BothEnds(b, ss, done, f, s, t, cs, ce, c)
    ensures Lo(b, ss, c) <= cs[c] <= ce[c] + 1 <= Hi(b, ss, c) <= |f|
    ensures if done[c] then cs[c] == Lo(b, ss, c) && ce[c] + 1 == Hi(b, ss, c)
            else f[Lo(b, ss, c)..cs[c]] == Preds(b, c, s) && f[ce[c] + 1..Hi(b, ss, c)] == Preds(b, c, t)
  {
  }

  /** Keys in the big bucket, other than [ss, ss], stand on their side of it. */
  lemma KeyEdge(b: seq<Byte>, ss: nat, f0: seq<int>, r: nat)
    requires Bucketed(b, f0) && ss < 256 && r < |b| && b[f0[r]] == ss
    ensures b[Next(|b|, f0[r])] < ss ==> BigLo(b, ss) <= r < Lo(b, ss, ss)
    ensures b[Next(|b|, f0[r])] > ss ==> Hi(b, ss, ss) <= r < BigHi(b, ss)
  {
    var k := Key(b, f0[r]);
    assert InBucket(b, k, r);
    StartMono(b, ss * 256, k);
    StartMono(b, k + 1, ss * 256 + 256);
    if k < ss * 256 + ss { StartMono(b, k + 1, ss * 256 + ss); }
    if k > ss * 256 + ss { StartMono(b, ss * 256 + ss + 1, k); }
  }

  /** What the bucket [c, ss] holds at the end of the scan. */
  lemma OverBucket(b: seq<Byte>, rk: seq<int>, ss: nat, done: seq<bool>, f0: seq<int>, f: seq<int>, cs: seq<int>, ce: seq<int>, c: nat)
    requires ScanOver(b, rk, ss, done, f0, f, cs, ce) && c < 256
    ensures ss < 256 == |done| == |ce| == |cs| && BigLo(b, ss) <= cs[ss] <= |f| && 0 <= ce[ss] + 1 <= BigHi(b, ss) <= |f|
    ensures InRange(FromLeft(b, ss, f, cs), |b|) && InRange(FromRight(b, ss, f, ce), |b|)
    ensures Lo(b, ss, c) <= cs[c] <= ce[c] + 1 <= Hi(b, ss, c) <= |f|
    ensures !done[c] ==> f[Lo(b, ss, c)..cs[c]] == Preds(b, c, FromLeft(b, ss, f, cs))
                         && f[ce[c] + 1..Hi(b, ss, c)] == Preds(b, c, FromRight(b, ss, f, ce))
  {
    hide ScanOver, IsRanking, Bucketed, Start, Typed, Unwritten, Preds, FromLeft, FromRight;
    OverFacts(b, rk, ss, done, f0, f, cs, ce);
    assert BothEnds(b, ss, done, f, FromLeft(b, ss, f, cs), FromRight(b, ss, f, ce), cs, ce, c);
  }

  lemma InSlice(f: seq<int>, lo: int, hi: int, l: int, h: int, x: int)
    requires 0 <= lo <= l <= h <= hi <= |f| && x in f[l..h]
    ensures x in f[lo..hi]
  {
    var e :| 0 <= e < h - l && f[l..h][e] == x;
    assert f[lo..hi][l + e - lo] == x;
  }

  /** In a run, finding a rotation means finding the one before it. */
  lemma RunFound(b: seq<Byte>, rk: seq<int>, ss: nat, done: seq<bool>, f0: seq<int>, f: seq<int>, cs: seq<int>, ce: seq<int>, i: nat)
    requires ScanOver(b, rk, ss, done, f0, f, cs, ce) && i < |b| && b[i] == b[Next(|b|, i)] == ss
    ensures BigLo(b, ss) <= cs[ss] <= |f| && 0 <= ce[ss] + 1 <= BigHi(b, ss) <= |f|
    ensures Next(|b|, i) in FromLeft(b, ss, f, cs) ==> i in FromLeft(b, ss, f, cs)
    ensures Next(|b|, i) in FromRight(b, ss, f, ce) ==> i in FromRight(b, ss, f, ce)
  {
    hide ScanOver, IsRanking, Bucketed, Start, Typed, Preds, BothEnds;
    OverFacts(b, rk, ss, done, f0, f, cs, ce);
    OverBucket(b, rk, ss, done, f0, f, cs, ce, ss);
    Layout(b, ss, ss);
    PredsMember(b, ss, FromLeft(b, ss, f, cs), i);
    PredsMember(b, ss, FromRight(b, ss, f, ce), i);
    if Next(|b|, i) in FromLeft(b, ss, f, cs) {
      InSlice(f, BigLo(b, ss), cs[ss], Lo(b, ss, ss), cs[ss], i);
    }
    if Next(|b|, i) in FromRight(b, ss, f, ce) {
      InSlice(f, ce[ss] + 1, BigHi(b, ss), ce[ss] + 1, Hi(b, ss, ss), i);
    }
  }

  /** The last rotation of a run stands where the scan reads it. */
  lemma EdgeFound(b: seq<Byte>, rk: seq<int>, ss: nat, done: seq<bool>, f0: seq<int>, f: seq<int>, cs: seq<int>, ce: seq<int>, i: nat)
    requires ScanOver(b, rk, ss, done, f0, f, cs, ce) && i < |b| && b[i] == ss != b[Next(|b|, i)]
    ensures BigLo(b, ss) <= cs[ss] <= |f| && 0 <= ce[ss] + 1 <= BigHi(b, ss) <= |f|
    ensures if b[Next(|b|, i)] < ss then i in FromLeft(b, ss, f, cs) else i in FromRight(b, ss, f, ce)
  {
    hide ScanOver, IsRanking, Start, Typed, Preds, BothEnds;
    OverFacts(b, rk, ss, done, f0, f, cs, ce);
    OverBucket(b, rk, ss, done, f0, f, cs, ce, ss);
    var r := IndexOf(f0[..|b|], |b|, i);
    assert f0[r] == i;
    KeyEdge(b, ss, f0, r);
    assert Unwritten(b, ss, f0, cs, ce, r);
    if b[Next(|b|, i)] < ss {
      assert FromLeft(b, ss, f, cs)[r - BigLo(b, ss)] == i;
    } else {
      assert FromRight(b, ss, f, ce)[r - ce[ss] - 1] == i;
    }
  }

  /** Every rotation of one type is found from that side: along its run, starting from the end of the run. */
  lemma {:induction false} Found(b: seq<Byte>, rk: seq<int>, ss: nat, done: seq<bool>, f0: seq<int>, f: seq<int>,
                                 cs: seq<int>, ce: seq<int>, i: nat, m: nat, left: bool)
    requires ScanOver(b, rk, ss, done, f0, f, cs, ce) && |rk| == |b|
    requires i < |b| && b[i] == ss && OfType(b, rk, i, left) && RunEnds(b, i, m)
    ensures BigLo(b, ss) <= cs[ss] <= |f| && 0 <= ce[ss] + 1 <= BigHi(b, ss) <= |f|
    ensures if left then i in FromLeft(b, ss, f, cs) else i in FromRight(b, ss, f, ce)
    decreases m
  {
    hide ScanOver, IsRanking, OfType, Start, Typed, RunEnds, FromLeft, FromRight, Bucketed, BothEnds, Unwritten;
    OverFacts(b, rk, ss, done, f0, f, cs, ce);
    if b[Next(|b|, i)] == ss {
      RunGoesOn(b, i, m);
      TypeOfPred(b, rk, i, left);
      Found(b, rk, ss, done, f0, f, cs, ce, Next(|b|, i), m - 1, left);
      RunFound(b, rk, ss, done, f0, f, cs, ce, i);
    } else {
      TypeByByte(b, rk, i, left);
      EdgeFound(b, rk, ss, done, f0, f, cs, ce, i);
    }
  }

  /** Unless the block is one byte repeated, every rotation of the big bucket has been found from one side. */
  lemma FoundSomewhere(b: seq<Byte>, rk: seq<int>, ss: nat, done: seq<bool>, f0: seq<int>, f: seq<int>, cs: seq<int>,
                       ce: seq<int>, c: nat, p: nat, k: nat)
    requires ScanOver(b, rk, ss, done, f0, f, cs, ce) && p < |b| && b[p] != ss && k < |b| && c < 256 && Key(b, k) == c * 256 + ss
    ensures BigLo(b, ss) <= cs[ss] <= |f| && 0 <= ce[ss] + 1 <= BigHi(b, ss) <= |f|
    ensures InRange(FromLeft(b, ss, f, cs), |b|) && InRange(FromRight(b, ss, f, ce), |b|)
    ensures k in Preds(b, c, FromLeft(b, ss, f, cs)) || k in Preds(b, c, FromRight(b, ss, f, ce))
  {
    hide ScanOver, IsRanking, OfType, Start, Typed, BothEnds, RunEnds, FromLeft, FromRight;
    OverFacts(b, rk, ss, done, f0, f, cs, ce);
    var i := Next(|b|, k);
    assert (c * 256 + ss) % 256 == ss && (c * 256 + ss) / 256 == c;
    var m := SomeEnd(b, i, p);
    HasType(b, rk, i, m);
    if OfType(b, rk, i, true) {
      Found(b, rk, ss, done, f0, f, cs, ce, i, m, true);
    } else {
      Found(b, rk, ss, done, f0, f, cs, ce, i, m, false);
    }
    PredsMember(b, c, FromLeft(b, ss, f, cs), k);
    PredsMember(b, c, FromRight(b, ss, f, ce), k);
  }

  /** So much was found as the bucket has room for. */
  lemma AllFound(b: seq<Byte>, rk: seq<int>, ss: nat, done: seq<bool>, f0: seq<int>, f: seq<int>, cs: seq<int>,
                 ce: seq<int>, c: nat, p: nat)
    requires ScanOver(b, rk, ss, done, f0, f, cs, ce) && p < |b| && b[p] != ss && c < 256
    ensures BigLo(b, ss) <= cs[ss] <= |f| && 0 <= ce[ss] + 1 <= BigHi(b, ss) <= |f| && Lo(b, ss, c) <= Hi(b, ss, c)
    ensures InRange(FromLeft(b, ss, f, cs), |b|) && InRange(FromRight(b, ss, f, ce), |b|)
    ensures var u := Preds(b, c, FromLeft(b, ss, f, cs)) + Preds(b, c, FromRight(b, ss, f, ce));
            Distinct(u) && |u| == Hi(b, ss, c) - Lo(b, ss, c)
  {
    hide ScanOver, IsRanking, Typed, BothEnds, FromLeft, FromRight, Preds;
    OverFacts(b, rk, ss, done, f0, f, cs, ce);
    Layout(b, ss, c);
    var s, t := FromLeft(b, ss, f, cs), FromRight(b, ss, f, ce);
    PredsFit(b, rk, ss, f0, s, t, c);
    var u := Preds(b, c, s) + Preds(b, c, t);
    var was := f0[Lo(b, ss, c)..Hi(b, ss, c)];
    forall e | 0 <= e < |was|
      ensures was[e] in u
    {
      var r := Lo(b, ss, c) + e;
      assert InBucket(b, c * 256 + ss, r);
      BucketKey(b, f0, c * 256 + ss, r);
      FoundSomewhere(b, rk, ss, done, f0, f, cs, ce, c, p, f0[r]);
    }
    DistinctWithin(was, u);
  }

  /** The two ends of a bucket have met, and it holds what was found: first from the left, then from the right. */
  lemma EndsMeet(b: seq<Byte>, rk: seq<int>, ss: nat, done: seq<bool>, f0: seq<int>, f: seq<int>, cs: seq<int>,
                 ce: seq<int>, c: nat, p: nat)
    requires ScanOver(b, rk, ss, done, f0, f, cs, ce) && p < |b| && b[p] != ss && c < 256 && |done| == 256 && !done[c]
    ensures BigLo(b, ss) <= cs[ss] <= |f| && 0 <= ce[ss] + 1 <= BigHi(b, ss) <= |f| && Lo(b, ss, c) <= Hi(b, ss, c) <= |f|
    ensures InRange(FromLeft(b, ss, f, cs), |b|) && InRange(FromRight(b, ss, f, ce), |b|)
    ensures cs[c] == ce[c] + 1
    ensures f[Lo(b, ss, c)..Hi(b, ss, c)] == Preds(b, c, FromLeft(b, ss, f, cs)) + Preds(b, c, FromRight(b, ss, f, ce))
    ensures Distinct(f[Lo(b, ss, c)..Hi(b, ss, c)])
  {
    hide ScanOver, IsRanking, Typed, BothEnds, FromLeft, FromRight, Preds, Start, Bucketed, Unwritten, Distinct;
    OverFacts(b, rk, ss, done, f0, f, cs, ce);
    var s, t := FromLeft(b, ss, f, cs), FromRight(b, ss, f, ce);
    OverBucket(b, rk, ss, done, f0, f, cs, ce, c);
    AllFound(b, rk, ss, done, f0, f, cs, ce, c, p);
    assert f[Lo(b, ss, c)..Hi(b, ss, c)] == f[Lo(b, ss, c)..cs[c]] + f[ce[c] + 1..Hi(b, ss, c)];
  }

  /** The bucket [c, ss] is complete and in order. */
  lemma BucketComplete(b: seq<Byte>, rk: seq<int>, ss: nat, done: seq<bool>, f0: seq<int>, f: seq<int>, cs: seq<int>,
                       ce: seq<int>, c: nat, p: nat)
    requires ScanOver(b, rk, ss, done, f0, f, cs, ce) && p < |b| && b[p] != ss && c < 256 && |done| == 256 && !done[c]
    ensures Lo(b, ss, c) <= Hi(b, ss, c) <= |b| <= |f|
    ensures forall r :: Lo(b, ss, c) <= r < Hi(b, ss, c) ==> 0 <= f[r] < |b| && Key(b, f[r]) == c * 256 + ss
    ensures SmallSorted(b, f, rk, c, ss)
  {
    hide ScanOver, IsRanking, Typed, BothEnds, FromLeft, FromRight, Preds, Start, Bucketed, Unwritten, Distinct, BigLo, BigHi;
    OverFacts(b, rk, ss, done, f0, f, cs, ce);
    var s, t := FromLeft(b, ss, f, cs), FromRight(b, ss, f, ce);
    EndsMeet(b, rk, ss, done, f0, f, cs, ce, c, p);
    Layout(b, ss, c);
    PredsTyped(b, rk, ss, c, s, true);
    PredsTyped(b, rk, ss, c, t, false);
    var v, w := Preds(b, c, s), Preds(b, c, t);
    var lo, hi := Lo(b, ss, c), Hi(b, ss, c);
    assert forall r :: lo <= r < hi ==> f[r] == f[lo..hi][r - lo];
    assert Keyed(f, rk, lo, hi);
    forall q, r | lo <= q < r < hi
      ensures rk[f[q]] <= rk[f[r]]
    {
      if q - lo < |v| <= r - lo {
        assert f[q] == v[q - lo] && f[r] == w[r - lo - |v|];
        PredsOrder(b, rk, ss, c, s, t, f[q], f[r], p);
      } else if r - lo < |v| {
        assert f[q] == v[q - lo] && f[r] == v[r - lo];
      } else {
        assert f[q] == w[q - lo - |v|] && f[r] == w[r - lo - |v|];
      }
    }
  }

  // ----- The order after the scan.

  /** Position `r` keeps its entry unless its bucket is one of those being filled. */
  lemma OtherKept(b: seq<Byte>, rk: seq<int>, ss: nat, done: seq<bool>, f0: seq<int>, f: seq<int>, cs: seq<int>, ce: seq<int>, r: nat)
    requires ScanOver(b, rk, ss, done, f0, f, cs, ce) && r < |b| && |done| == 256 && r < |f0| && 0 <= f0[r] < |b|
    requires Key(b, f0[r]) % 256 != ss || done[Key(b, f0[r]) / 256]
    ensures r < |f| && f[r] == f0[r]
  {
    hide ScanOver, IsRanking, Typed, BothEnds, FromLeft, FromRight, Start;
    OverFacts(b, rk, ss, done, f0, f, cs, ce);
    var k := Key(b, f0[r]);
    if k % 256 == ss {
      var c := k / 256;
      assert c * 256 + ss == k && InBucket(b, k, r);
      assert BothEnds(b, ss, done, f, FromLeft(b, ss, f, cs), FromRight(b, ss, f, ce), cs, ce, c);
      BothEndsFacts(b, ss, done, f, FromLeft(b, ss, f, cs), FromRight(b, ss, f, ce), cs, ce, c);
    }
    assert Unwritten(b, ss, f0, cs, ce, r);
  }

  /** After the scan every position holds a rotation of its own bucket. */
  lemma AfterScanAt(b: seq<Byte>, rk: seq<int>, ss: nat, done: seq<bool>, f0: seq<int>, f: seq<int>, cs: seq<int>,
                    ce: seq<int>, p: nat, r: nat)
    requires ScanOver(b, rk, ss, done, f0, f, cs, ce) && p < |b| && b[p] != ss && r < |b|
    ensures r < |f| == |f0| && 0 <= f[r] < |b| && 0 <= f0[r] < |b| && Key(b, f[r]) == Key(b, f0[r]) && InBucket(b, Key(b, f[r]), r)
  {
    hide ScanOver, IsRanking, Typed, BothEnds, FromLeft, FromRight, Start, Unwritten;
    OverFacts(b, rk, ss, done, f0, f, cs, ce);
    var k := Key(b, f0[r]);
    assert InBucket(b, k, r);
    if k % 256 != ss || done[k / 256] {
      OtherKept(b, rk, ss, done, f0, f, cs, ce, r);
    } else {
      assert k / 256 * 256 + ss == k;
      BucketComplete(b, rk, ss, done, f0, f, cs, ce, k / 256, p);
    }
  }

  /** Different positions hold different rotations. */
  lemma AfterScanDistinct(b: seq<Byte>, rk: seq<int>, ss: nat, done: seq<bool>, f0: seq<int>, f: seq<int>,
                          cs: seq<int>, ce: seq<int>, p: nat, r: nat, s: nat)
    requires ScanOver(b, rk, ss, done, f0, f, cs, ce) && p < |b| && b[p] != ss && r < s < |b|
    ensures |b| <= |f| && f[r] != f[s]
  {
    hide ScanOver, IsRanking, Typed, BothEnds, FromLeft, FromRight, Start, Unwritten, Preds;
    OverFacts(b, rk, ss, done, f0, f, cs, ce);
    AfterScanAt(b, rk, ss, done, f0, f, cs, ce, p, r);
    AfterScanAt(b, rk, ss, done, f0, f, cs, ce, p, s);
    var k := Key(b, f0[r]);
    if Key(b, f0[s]) == k {
      if k % 256 != ss || done[k / 256] {
        OtherKept(b, rk, ss, done, f0, f, cs, ce, r);
        OtherKept(b, rk, ss, done, f0, f, cs, ce, s);
      } else {
        var c := k / 256;
        assert c * 256 + ss == k;
        EndsMeet(b, rk, ss, done, f0, f, cs, ce, c, p);
        var u := f[Lo(b, ss, c)..Hi(b, ss, c)];
        assert u[r - Lo(b, ss, c)] == f[r] && u[s - Lo(b, ss, c)] == f[s];
      }
    }
  }

  /** What the scan achieves: the order is still a permutation into the small buckets, those [c, ss] of unfinished big
      buckets c are in order, and the other buckets are as they were. */
  ghost predicate ScanResult(b: seq<Byte>, rk: seq<int>, ss: nat, done: seq<bool>, f0: seq<int>, f: seq<int>) {
    && Bucketed(b, f0) && Bucketed(b, f) && |f| == |f0| && |done| == 256
    && (forall c :: 0 <= c < 256 && !done[c] ==> SmallSorted(b, f, rk, c, ss))
    && (forall r :: 0 <= r < |b| && (Key(b, f0[r]) % 256 != ss || done[Key(b, f0[r]) / 256]) ==> f[r] == f0[r])
  }

  lemma ScanEnd(b: seq<Byte>, rk: seq<int>, ss: nat, done: seq<bool>, f0: seq<int>, f: seq<int>, cs: seq<int>, ce: seq<int>, p: nat)
    requires ScanOver(b, rk, ss, done, f0, f, cs, ce) && p < |b| && b[p] != ss
    ensures cs[ss] - 1 == ce[ss]
    ensures ScanResult(b, rk, ss, done, f0, f)
  {
    hide ScanOver, IsRanking, Typed, BothEnds, FromLeft, FromRight, Start, Unwritten, SmallSorted;
    OverFacts(b, rk, ss, done, f0, f, cs, ce);
    EndsMeet(b, rk, ss, done, f0, f, cs, ce, ss, p);
    forall r | 0 <= r < |b|
      ensures 0 <= f[r] < |b| && InBucket(b, Key(b, f[r]), r)
      ensures Key(b, f0[r]) % 256 != ss || done[Key(b, f0[r]) / 256] ==> f[r] == f0[r]
    {
      AfterScanAt(b, rk, ss, done, f0, f, cs, ce, p, r);
      if Key(b, f0[r]) % 256 != ss || done[Key(b, f0[r]) / 256] {
        OtherKept(b, rk, ss, done, f0, f, cs, ce, r);
      }
    }
    forall r, s | 0 <= r < s < |b|
      ensures f[r] != f[s]
    {
      AfterScanDistinct(b, rk, ss, done, f0, f, cs, ce, p, r, s);
    }
    forall c | 0 <= c < 256 && !done[c]
      ensures SmallSorted(b, f, rk, c, ss)
    {
      BucketComplete(b, rk, ss, done, f0, f, cs, ce, c, p);
    }
  }
}
