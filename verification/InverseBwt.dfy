/** The inverse block-sorting transform with one word per byte (the decoder's fast representation).

    The stable counting sort of the last column is a permutation LF; the decoder stores its inverse beside the
    column itself and walks it.  That the walk spells the block needs only a weakly sorted order, so it also
    holds for periodic blocks, where the walk runs through several equal rows.
 */
module InverseBwt {
  import opened Arrays
  import opened Permutations
  import opened Rotations

  // ----- Counting bytes of the last column.

  function Count(s: seq<int>, c: int): (r: nat)
    ensures r <= |s|
  {
    if s == [] then 0
    else Count(s[..|s| - 1], c) + if s[|s| - 1] == c then 1 else 0
  }

  /** How many bytes of `s` are below `c`. */
  function Cum(s: seq<int>, c: nat): nat {
    if c == 0 then 0 else Cum(s, c - 1) + Count(s, c - 1)
  }

  lemma {:induction false} CumMono(s: seq<int>, c: nat, d: nat)
    requires c <= d
    ensures Cum(s, c) <= Cum(s, d)
    decreases d - c
  {
    if c < d {
      CumMono(s, c + 1, d);
    }
  }

  lemma {:induction false} CumPush(s: seq<int>, x: nat, c: nat)
    ensures Cum(s + [x], c) == Cum(s, c) + if x < c then 1 else 0
  {
    if c > 0 {
      CumPush(s, x, c - 1);
      assert (s + [x])[..|s|] == s;
    }
  }

  /** With all entries below `m`, everything is counted. */
  lemma {:induction false} CumBelow(s: seq<int>, m: nat)
    requires forall i :: 0 <= i < |s| ==> 0 <= s[i] < m
    ensures Cum(s, m) == |s|
  {
    if s == [] {
      CumEmpty(m);
    } else {
      var k := |s| - 1;
      CumBelow(s[..k], m);
      assert s == s[..k] + [s[k]];
      CumPush(s[..k], s[k], m);
    }
  }

  lemma CumAll(s: seq<Byte>)
    ensures Cum(s, 256) == |s|
  {
    CumBelow(s, 256);
  }

  lemma {:induction false} CumEmpty(c: nat)
    ensures Cum([], c) == 0
  {
    if c > 0 {
      CumEmpty(c - 1);
    }
  }

  lemma {:induction false} CountPrefix(s: seq<int>, c: int, i: nat, j: nat)
    requires i <= j <= |s|
    ensures Count(s[..i], c) <= Count(s[..j], c)
    ensures i < j && s[i] == c ==> Count(s[..i], c) < Count(s[..j], c)
    decreases j
  {
    if i < j {
      assert s[..j][..j - 1] == s[..j - 1];
      CountPrefix(s, c, i, j - 1);
    }
  }

  lemma CountPush(s: seq<int>, c: int, i: nat)
    requires i < |s|
    ensures Count(s[..i + 1], c) == Count(s[..i], c) + if s[i] == c then 1 else 0
  {
    assert s[..i + 1][..i] == s[..i];
  }

  // ----- The LF mapping.

  /** Where the stable counting sort puts entry `i` of the column `s`. */
  function LF(s: seq<Byte>, i: nat): nat
    requires i < |s|
  {
    Cum(s, s[i]) + Count(s[..i], s[i])
  }

  ghost function LFSeq(s: seq<Byte>): seq<int> {
    seq(|s|, i requires 0 <= i < |s| => LF(s, i))
  }

  lemma LFRange(s: seq<Byte>, i: nat)
    requires i < |s|
    ensures Cum(s, s[i]) <= LF(s, i) < Cum(s, s[i] as int + 1) <= |s|
  {
    CountPrefix(s, s[i], i, |s|);
    assert s[..|s|] == s;
    CumMono(s, s[i] as int + 1, 256);
    CumAll(s);
  }

  /** The counting sort is stable: by byte first, by position on equal bytes. */
  lemma LFOrder(s: seq<Byte>, i: nat, j: nat)
    requires i < |s| && j < |s| && i != j
    ensures LF(s, i) < LF(s, j) <==> s[i] < s[j] || (s[i] == s[j] && i < j)
    ensures LF(s, i) != LF(s, j)
  {
    LFRange(s, i);
    LFRange(s, j);
    if s[i] < s[j] {
      CumMono(s, s[i] as int + 1, s[j]);
    } else if s[j] < s[i] {
      CumMono(s, s[j] as int + 1, s[i]);
    } else if i < j {
      CountPrefix(s, s[i], i, j);
    } else {
      CountPrefix(s, s[i], j, i);
    }
  }

  lemma LFPerm(s: seq<Byte>)
    ensures IsPerm(LFSeq(s), |s|)
  {
    forall i | 0 <= i < |s|
      ensures 0 <= LFSeq(s)[i] < |s|
    {
      LFRange(s, i);
    }
    forall i, j | 0 <= i < j < |s|
      ensures LFSeq(s)[i] != LFSeq(s)[j]
    {
      LFOrder(s, i, j);
    }
  }

  /** The vector the decoder walks: the inverse of LF. */
  ghost function Back(s: seq<Byte>): (inv: seq<int>)
    ensures |inv| == |s| && InRange(inv, |s|)
  {
    LFPerm(s);
    assert Inverse(LFSeq(s), InverseOf(LFSeq(s)));
    var inv :| Inverse(LFSeq(s), inv);
    inv
  }

  lemma BackOfLF(s: seq<Byte>, i: nat)
    requires i < |s|
    ensures LF(s, i) < |s| && Back(s)[LF(s, i)] == i
  {
    LFRange(s, i);
    assert Back(s)[LFSeq(s)[i]] == i;
  }

  lemma LFOfBack(s: seq<Byte>, r: nat)
    requires r < |s|
    ensures LF(s, Back(s)[r]) == r
  {
    assert LFSeq(s)[Back(s)[r]] == r;
  }

  /** The row reached from row `r` after `k` steps of the walk. */
  ghost function RowAfter(s: seq<Byte>, r: nat, k: nat): (t: nat)
    requires r < |s|
    ensures t < |s|
  {
    if k == 0 then r else Back(s)[RowAfter(s, r, k - 1)]
  }

  /** The byte the decoder's k-th read returns, for the column `s` and the start row `r`. */
  ghost function ReadAt(s: seq<Byte>, r: nat, k: nat): Byte
    requires r < |s|
  {
    s[RowAfter(s, r, k + 1)]
  }

  /** The block a decoder recovers from the column `s` and the start row `r`. */
  ghost function Unsorted(s: seq<Byte>, r: nat): (b: seq<Byte>)
    requires r < |s|
    ensures |b| == |s|
  {
    seq(|s|, k requires 0 <= k < |s| => ReadAt(s, r, k))
  }

  // ----- Correctness of the walk.

  /** The bytes in front of the sorted rotations: what the encoder transmits. */
  function LastColumn(b: seq<Byte>, p: seq<int>): (l: seq<Byte>)
    requires |p| == |b| && InRange(p, |b|)
    ensures |l| == |b|
  {
    seq(|b|, i requires 0 <= i < |b| => b[Prev(|b|, p[i])])
  }

  /** Sorting the column stably sorts the rotations that start with it. */
  lemma PrecedingRowsSorted(b: seq<Byte>, p: seq<int>, q: seq<int>)
    requires WeaklySorted(b, p) && |q| == |b|
    requires var inv := Back(LastColumn(b, p));
             forall r :: 0 <= r < |b| ==> q[r] == Prev(|b|, p[inv[r]])
    ensures WeaklySorted(b, q)
  {
    var n, l := |b|, LastColumn(b, p);
    var inv := Back(l);
    forall r, s | 0 <= r < s < n
      ensures Leq(b, q[r], q[s]) && q[r] != q[s]
    {
      var i, j := inv[r], inv[s];
      LFOfBack(l, r);
      LFOfBack(l, s);
      LFOrder(l, i, j);
      assert l[i] == b[q[r]] && l[j] == b[q[s]];
      if l[i] == l[j] {
        LeqNext(b, q[r], q[s]);
      }
      assert p[i] != p[j];
      assert Next(n, q[r]) == p[i] && Next(n, q[s]) == p[j];
    }
  }

  /** One step of the walk goes from a row to (a row equal to) its successor rotation. */
  lemma StepRow(b: seq<Byte>, p: seq<int>, r: nat)
    requires WeaklySorted(b, p) && r < |b|
    ensures Same(b, p[r], Prev(|b|, p[Back(LastColumn(b, p))[r]]))
  {
    var inv := Back(LastColumn(b, p));
    var q := seq(|b|, r requires 0 <= r < |b| => Prev(|b|, p[inv[r]]));
    PrecedingRowsSorted(b, p, q);
    SortedRowsSame(b, p, q, r);
  }

  /** After k + 1 steps from the row of rotation 0, the row is that of rotation k + 1, up to equality as strings. */
  lemma {:induction false} WalkRow(b: seq<Byte>, p: seq<int>, orig: nat, k: nat)
    requires WeaklySorted(b, p) && orig < |b| && p[orig] == 0
    ensures var t := RowAfter(LastColumn(b, p), orig, k);
            Same(b, p[t], Shift(|b|, 0, k))
    decreases k
  {
    var l := LastColumn(b, p);
    if k == 0 {
      CmpRefl(b, 0, |b|);
    } else {
      WalkRow(b, p, orig, k - 1);
      var u := RowAfter(l, orig, k - 1);
      var t := Back(l)[u];
      StepRow(b, p, u);
      CmpAnti(b, p[u], Shift(|b|, 0, k - 1), |b|);
      CmpTrans(b, Shift(|b|, 0, k - 1), p[u], Prev(|b|, p[t]), |b|);
      SameNext(b, Shift(|b|, 0, k - 1), Prev(|b|, p[t]));
      ShiftLast(|b|, 0, k);
      CmpAnti(b, Shift(|b|, 0, k), p[t], |b|);
    }
  }

  lemma {:induction false} ShiftLast(n: nat, i: nat, k: nat)
    requires i < n && k > 0
    ensures Shift(n, i, k) == Next(n, Shift(n, i, k - 1))
    decreases k
  {
    if k > 1 {
      ShiftLast(n, Next(n, i), k - 1);
    }
  }

  /** The k-th byte read is byte k of the block, read as a circle. */
  lemma WalkReads(b: seq<Byte>, p: seq<int>, orig: nat, k: nat)
    requires WeaklySorted(b, p) && orig < |b| && p[orig] == 0
    ensures ReadAt(LastColumn(b, p), orig, k) == b[Shift(|b|, 0, k)]
  {
    var l := LastColumn(b, p);
    WalkRow(b, p, orig, k);
    var u := RowAfter(l, orig, k);
    StepRow(b, p, u);
    SameNext(b, p[u], Shift(|b|, 0, k));
    SameNext(b, p[u], Prev(|b|, p[Back(l)[u]]));
  }

  /** The walk undoes the sort, for every weakly sorted order. */
  lemma InverseTransform(b: seq<Byte>, p: seq<int>, orig: nat)
    requires WeaklySorted(b, p) && orig < |b| && p[orig] == 0
    ensures Unsorted(LastColumn(b, p), orig) == b
  {
    forall k | 0 <= k < |b|
      ensures Unsorted(LastColumn(b, p), orig)[k] == b[k]
    {
      WalkReads(b, p, orig, k);
      ShiftWrap(|b|, 0, k);
    }
  }

  /** It does not matter which sort ran: any two weakly sorted orders have the same last column. */
  lemma LastColumnUnique(b: seq<Byte>, p: seq<int>, q: seq<int>)
    requires WeaklySorted(b, p) && WeaklySorted(b, q)
    ensures LastColumn(b, p) == LastColumn(b, q)
  {
    forall i | 0 <= i < |b|
      ensures LastColumn(b, p)[i] == LastColumn(b, q)[i]
    {
      SortedRowsSame(b, p, q, i);
      SamePrev(b, p[i], q[i]);
    }
  }

  /** Even the start rows of two orders may be exchanged. */
  lemma StartRowIrrelevant(b: seq<Byte>, p: seq<int>, q: seq<int>, r: nat, s: nat)
    requires WeaklySorted(b, p) && WeaklySorted(b, q)
    requires r < |b| && s < |b| && p[r] == 0 && q[s] == 0
    ensures Unsorted(LastColumn(b, p), s) == b && Unsorted(LastColumn(b, q), r) == b
  {
    LastColumnUnique(b, p, q);
    InverseTransform(b, p, r);
    InverseTransform(b, q, s);
  }

  /** The row of rotation 0 is the same in all weakly sorted orders if no other rotation is equal to it. */
  lemma StartRowFixed(b: seq<Byte>, p: seq<int>, q: seq<int>, r: nat, s: nat)
    requires WeaklySorted(b, p) && WeaklySorted(b, q) && r < |b| && s < |b| && p[r] == 0 && q[s] == 0
    requires forall i :: 0 < i < |b| ==> !Same(b, i, 0)
    ensures r == s
  {
    SortedRowsSame(b, p, q, r);
    CmpAnti(b, 0, q[r], |b|);
    assert Same(b, q[r], 0);
    OnlyOnce(q, r, s);
  }

  lemma OnlyOnce(q: seq<int>, r: nat, s: nat)
    requires Distinct(q) && r < |q| && s < |q| && q[r] == q[s]
    ensures r == s
  {
  }

  /** Exchanging equal rotations leaves an order weakly sorted. */
  lemma EqualExchanged(b: seq<Byte>, p: seq<int>, r: nat, s: nat)
    requires WeaklySorted(b, p) && r < |b| && s < |b| && r != s && Same(b, p[r], p[s])
    ensures WeaklySorted(b, p[r := p[s]][s := p[r]])
  {
    var q := p[r := p[s]][s := p[r]];
    forall a | 0 <= a < |b|
      ensures Same(b, q[a], p[a]) && Same(b, p[a], q[a])
    {
      CmpRefl(b, p[a], |b|);
      CmpAnti(b, p[r], p[s], |b|);
    }
    forall a, c | 0 <= a < c < |b|
      ensures Leq(b, q[a], q[c])
    {
      CmpTrans(b, q[a], p[a], p[c], |b|);
      CmpTrans(b, q[a], p[c], q[c], |b|);
    }
  }

  /** Being sorted decides the row of rotation 0, and with it the whole stream, exactly if no other rotation is equal to it. */
  lemma StartRowIff(b: seq<Byte>, p: seq<int>, r: nat)
    requires WeaklySorted(b, p) && r < |b| && p[r] == 0
    ensures (forall q, s: nat :: WeaklySorted(b, q) && s < |b| && q[s] == 0 ==> s == r) <==> forall i :: 0 < i < |b| ==> !Same(b, i, 0)
  {
    if forall i :: 0 < i < |b| ==> !Same(b, i, 0) {
      forall q, s: nat | WeaklySorted(b, q) && s < |b| && q[s] == 0
        ensures s == r
      {
        StartRowFixed(b, p, q, r, s);
      }
    } else {
      var i :| 0 < i < |b| && Same(b, i, 0);
      PermSurjective(p, |b|, i);
      var s: nat :| s < |b| && p[s] == i;
      CmpAnti(b, i, 0, |b|);
      EqualExchanged(b, p, r, s);
      var q := p[r := p[s]][s := p[r]];
      assert WeaklySorted(b, q) && q[s] == 0 && s != r;
    }
  }

  // ----- The decoder's loops.

  /** `cftab` holds the cumulative counts of the column. */
  ghost predicate IsCumTable(t: seq<int>, s: seq<Byte>) {
    |t| == 257 && forall c :: 0 <= c <= 256 ==> t[c] == Cum(s, c)
  }

  lemma CumZero(s: seq<int>)
    ensures Cum(s, 0) == 0
  {
  }

  lemma CumNext(s: seq<int>, c: nat)
    requires c > 0
    ensures Cum(s, c) == Cum(s, c - 1) + Count(s, c - 1)
  {
  }

  /** Turns the byte counts of the column into cumulative counts. */
  method MakeCumTable(unzftab: array<int>, cftab: array<int>, ghost s: seq<Byte>)
    requires unzftab.Length == 256 && cftab.Length == 257 && unzftab != cftab
    requires forall c :: 0 <= c < 256 ==> unzftab[c] == Count(s, c)
    modifies cftab
    ensures IsCumTable(cftab[..], s)
  {
    hide Count, Cum;
    CumZero(s);
    cftab[0] := 0;
    var i := 1;
    while i <= 256
      invariant 1 <= i <= 257
      invariant cftab[0] == 0
      invariant forall c :: 1 <= c < i ==> cftab[c] == Count(s, c - 1)
    {
      cftab[i] := unzftab[i - 1];
      i := i + 1;
    }
    i := 1;
    while i <= 256
      invariant 1 <= i <= 257
      invariant forall c :: 0 <= c < i ==> cftab[c] == Cum(s, c)
      invariant forall c :: i <= c <= 256 ==> cftab[c] == Count(s, c - 1)
    {
      CumNext(s, i);
      cftab[i] := cftab[i] + cftab[i - 1];
      i := i + 1;
    }
  }

  /** The range checks on both tables never fire on counts that were kept while the column was received. */
  method CheckTables(unzftab: array<int>, cftab: array<int>, nblock: nat, ghost s: seq<Byte>) returns (ok: bool)
    requires unzftab.Length == 256 && nblock == |s|
    requires forall c :: 0 <= c < 256 ==> unzftab[c] == Count(s, c)
    requires IsCumTable(cftab[..], s)
    ensures ok
  {
    CumAll(s);
    ghost var t := cftab[..];
    var i := 0;
    while i <= 255
      invariant 0 <= i <= 256
    {
      if unzftab[i] < 0 || unzftab[i] > nblock {
        return false;
      }
      i := i + 1;
    }
    i := 0;
    while i <= 256
      invariant 0 <= i <= 257
    {
      assert cftab[i] == t[i];
      CumMono(s, i, 256);
      if cftab[i] < 0 || cftab[i] > nblock {
        return false;
      }
      i := i + 1;
    }
    i := 1;
    while i <= 256
      invariant 1 <= i <= 257
    {
      assert cftab[i] == t[i] && cftab[i - 1] == t[i - 1];
      CumMono(s, i - 1, i);
      if cftab[i - 1] > cftab[i] {
        return false;
      }
      i := i + 1;
    }
    return true;
  }

  /** Low byte: the column; upper 24 bits: the vector to walk. */
  ghost predicate IsWalkTable(t: seq<int>, s: seq<Byte>) {
    |t| >= |s| && forall r :: 0 <= r < |s| ==> t[r] == s[r] + 256 * Back(s)[r]
  }

  lemma LowByte(x: Byte, k: int)
    ensures (x + 256 * k) % 256 == x && (x + 256 * k) / 256 == k
  {
  }

  /** Entry `r` of `tt` once the first `i` entries of the column have been placed. */
  ghost function Placed(s: seq<Byte>, r: nat, i: nat): int
    requires r < |s|
  {
    s[r] + if Back(s)[r] < i then 256 * Back(s)[r] else 0
  }

  /** The state of the filling loop: `t` is `tt`, and `c` says where the next entry of each byte value goes. */
  ghost predicate Placing(t: seq<int>, c: seq<int>, s: seq<Byte>, i: nat) {
    && i <= |s| <= |t| && |c| >= 256
    && (forall x :: 0 <= x < 256 ==> c[x] == Cum(s, x) + Count(s[..i], x))
    && (forall r :: 0 <= r < |s| ==> t[r] == Placed(s, r, i))
  }

  lemma PlacingStep(t: seq<int>, c: seq<int>, s: seq<Byte>, i: nat)
    requires Placing(t, c, s, i) && i < |s|
    ensures t[i] % 256 == s[i] && 0 <= c[s[i]] < |s|
    ensures 0 <= t[c[s[i]]] < 256
    ensures Placing(t[c[s[i]] := t[c[s[i]]] + i * 256], c[s[i] := c[s[i]] + 1], s, i + 1)
  {
    LFRange(s, i);
    BackOfLF(s, i);
    LowByte(s[i], 0);
    LowByte(s[i], Back(s)[i]);
    forall x | 0 <= x < 256
      ensures Count(s[..i + 1], x) == Count(s[..i], x) + if s[i] == x then 1 else 0
    {
      CountPush(s, x, i);
    }
    forall r | 0 <= r < |s|
      ensures r != LF(s, i) ==> Placed(s, r, i + 1) == Placed(s, r, i)
    {
      LFOfBack(s, r);
    }
  }

  /** Fills in the upper bits of `tt`, whose entries hold the column on entry. */
  method MakeWalkTable(tt: array<int>, cftab: array<int>, nblock: nat, ghost s: seq<Byte>)
    requires nblock == |s| <= tt.Length && tt != cftab
    requires tt[..nblock] == s
    requires IsCumTable(cftab[..], s)
    modifies tt, cftab
    ensures IsWalkTable(tt[..], s)
  {
    assert forall r :: 0 <= r < nblock ==> tt[..][r] == tt[..nblock][r];
    assert Placing(tt[..], cftab[..], s, 0);
    var i := 0;
    while i < nblock
      invariant 0 <= i <= nblock
      invariant Placing(tt[..], cftab[..], s, i)
    {
      ghost var t, c := tt[..], cftab[..];
      PlacingStep(t, c, s, i);
      var uc := tt[i] % 256;
      var pos := cftab[uc];
      // The entry is still below 256, so the bitwise or with i << 8 is an addition.
      Store(tt, pos, tt[pos] + i * 256);
      Store(cftab, uc, cftab[uc] + 1);
      i := i + 1;
    }
  }

  lemma WalkTableAt(t: seq<int>, s: seq<Byte>, r: nat)
    requires IsWalkTable(t, s) && r < |s|
    ensures t[r] % 256 == s[r] && t[r] / 256 == Back(s)[r]
  {
    LowByte(s[r], Back(s)[r]);
  }

  /** The decoder's k-th read: before it, `tPos` is the row reached after k + 1 steps. */
  method GetFast(tt: array<int>, tPos: nat, ghost s: seq<Byte>, ghost orig: nat, ghost k: nat)
    returns (c: Byte, tPos': nat)
    requires IsWalkTable(tt[..], s) && orig < |s| && tPos == RowAfter(s, orig, k + 1)
    ensures c == ReadAt(s, orig, k) && tPos' == RowAfter(s, orig, k + 2)
  {
    WalkTableAt(tt[..], s, tPos);
    c := tt[tPos] % 256;
    tPos' := tt[tPos] / 256;
  }
}
