/** The inverse transform in the decoder's small-memory representation: 20-bit entries packed into a 16-bit and a
    4-bit array, the walk vector obtained by reversing one cycle in place, and the byte of a row found by binary
    search in the cumulative counts.  Its reads return the same bytes as those of the fast representation.
 */
module SmallDecoder {
  import opened Permutations
  import opened Rotations
  import opened InverseBwt
  import opened Arrays

  type UInt16 = x: int | 0 <= x < 0x1_0000

  // ----- 20-bit entries.

  /** Entry `i` of the nibble array: two to a byte, the even one low. */
  function Nibble(ll4: seq<Byte>, i: nat): int
    requires i / 2 < |ll4|
  {
    if i % 2 == 0 then ll4[i / 2] % 16 else ll4[i / 2] / 16
  }

  /** GET_LL on array contents. */
  function Entry(ll16: seq<UInt16>, ll4: seq<Byte>, i: nat): int
    requires i < |ll16| && i / 2 < |ll4|
  {
    ll16[i] + 0x1_0000 * Nibble(ll4, i)
  }

  /** The two arrays hold the vector `v`. */
  ghost predicate Packs(ll16: seq<UInt16>, ll4: seq<Byte>, v: seq<int>) {
    && |v| <= |ll16| && |v| <= 2 * |ll4|
    && forall i :: 0 <= i < |v| ==> Entry(ll16, ll4, i) == v[i]
  }

  method GetLL(ll16: array<UInt16>, ll4: array<Byte>, i: nat) returns (n: int)
    requires i < ll16.Length && i / 2 < ll4.Length
    ensures n == Entry(ll16[..], ll4[..], i)
  {
    var nib: int := if i % 2 == 0 then ll4[i / 2] % 16 else ll4[i / 2] / 16;
    n := ll16[i] + 0x1_0000 * nib;
  }

  /** The byte after replacing one of its nibbles. */
  function WithNibble(x: Byte, odd: bool, n: int): Byte
    requires 0 <= n < 16
  {
    if odd then x % 16 + 16 * n else x / 16 * 16 + n
  }

  lemma NibbleWritten(ll4: seq<Byte>, i: nat, n: int, k: nat)
    requires i / 2 < |ll4| && k / 2 < |ll4| && 0 <= n < 16
    ensures Nibble(ll4[i / 2 := WithNibble(ll4[i / 2], i % 2 == 1, n)], k) == if k == i then n else Nibble(ll4, k)
  {
  }

  /** Writing one 20-bit entry leaves all others alone, also the one sharing its byte. */
  method SetLL(ll16: array<UInt16>, ll4: array<Byte>, i: nat, n: int)
    requires i < ll16.Length && i / 2 < ll4.Length && 0 <= n < 0x10_0000
    modifies ll16, ll4
    ensures ll16[..] == old(ll16[..])[i := n % 0x1_0000]
    ensures Entry(ll16[..], ll4[..], i) == n
    ensures forall k :: 0 <= k < ll16.Length && k / 2 < ll4.Length && k != i ==>
                          Entry(ll16[..], ll4[..], k) == old(Entry(ll16[..], ll4[..], k))
  {
    ghost var h, q := ll16[..], ll4[..];
    Store(ll16, i, n % 0x1_0000);
    Store(ll4, i / 2, WithNibble(ll4[i / 2], i % 2 == 1, n / 0x1_0000));
    forall k | 0 <= k < ll16.Length && k / 2 < ll4.Length
      ensures Nibble(ll4[..], k) == if k == i then n / 0x1_0000 else Nibble(q, k)
    {
      NibbleWritten(q, i, n / 0x1_0000, k);
    }
  }

  /** SetLL in terms of the vector held. */
  method SetPacked(ll16: array<UInt16>, ll4: array<Byte>, i: nat, n: int, ghost v: seq<int>)
    requires Packs(ll16[..], ll4[..], v) && i < |v| && 0 <= n < 0x10_0000
    modifies ll16, ll4
    ensures Packs(ll16[..], ll4[..], v[i := n])
  {
    SetLL(ll16, ll4, i, n);
  }

  // ----- Building T and reversing the cycle through origPtr.

  /** The state of the loop that computes T: the first `i` entries hold LF, the others still their byte of the column. */
  ghost predicate Filling(h: seq<UInt16>, q: seq<Byte>, c: seq<int>, s: seq<Byte>, i: nat) {
    && i <= |s| <= |h| && |s| <= 2 * |q| && |c| == 257
    && (forall x :: 0 <= x < 256 ==> c[x] == Cum(s, x) + Count(s[..i], x))
    && (forall r :: 0 <= r < i ==> Entry(h, q, r) == LF(s, r))
    && (forall r :: i <= r < |s| ==> h[r] == s[r])
  }

  lemma FillingStep(h: seq<UInt16>, q: seq<Byte>, h': seq<UInt16>, q': seq<Byte>, c: seq<int>, s: seq<Byte>, i: nat)
    requires Filling(h, q, c, s, i) && i < |s|
    requires |h'| == |h| && |q'| == |q|
    requires h' == h[i := c[s[i]] % 0x1_0000] && Entry(h', q', i) == c[s[i]]
    requires forall r :: 0 <= r < |h| && r / 2 < |q| && r != i ==> Entry(h', q', r) == Entry(h, q, r)
    ensures Filling(h', q', c[s[i] := c[s[i]] + 1], s, i + 1)
  {
    forall x | 0 <= x < 256
      ensures Count(s[..i + 1], x) == Count(s[..i], x) + if s[i] == x then 1 else 0
    {
      CountPush(s, x, i);
    }
  }

  method MakeT(ll16: array<UInt16>, ll4: array<Byte>, cftabCopy: array<int>, nblock: nat, ghost s: seq<Byte>)
    requires nblock == |s| <= ll16.Length && nblock <= 2 * ll4.Length && nblock <= 900000
    requires ll16[..nblock] == s
    requires IsCumTable(cftabCopy[..], s)
    modifies ll16, ll4, cftabCopy
    ensures Packs(ll16[..], ll4[..], LFSeq(s))
  {
    assert forall r :: 0 <= r < nblock ==> ll16[..][r] == ll16[..nblock][r];
    assert Filling(ll16[..], ll4[..], cftabCopy[..], s, 0);
    var i := 0;
    while i < nblock
      invariant 0 <= i <= nblock
      invariant Filling(ll16[..], ll4[..], cftabCopy[..], s, i)
    {
      ghost var h, q, c := ll16[..], ll4[..], cftabCopy[..];
      var uc := ll16[i] % 256;
      assert uc == s[i];
      LFRange(s, i);
      SetLL(ll16, ll4, i, cftabCopy[uc]);
      FillingStep(h, q, ll16[..], ll4[..], c, s, i);
      Store(cftabCopy, uc, cftabCopy[uc] + 1);
      i := i + 1;
    }
  }

  /** `path` goes forward along the permutation `p` from `orig`, without coming back to `orig` before its end. */
  ghost predicate IsPath(path: seq<int>, p: seq<int>, orig: nat)
    requires orig < |p|
  {
    && InRange(path, |p|) && Distinct(path)
    && (forall m {:trigger Before(path, orig, m)} :: 0 <= m < |path| ==> path[m] == p[Before(path, orig, m)])
    && (forall m :: 0 <= m < |path| - 1 ==> path[m] != orig)
  }

  ghost function Before(path: seq<int>, orig: nat, m: nat): (r: int)
    requires m <= |path|
    ensures m > 0 ==> r in path
    ensures m == 0 ==> r == orig
  {
    if m == 0 then orig else path[m - 1]
  }

  ghost function PathEnd(path: seq<int>, orig: nat): int {
    Before(path, orig, |path|)
  }

  /** `p`, with the entries on `path` turned round. */
  ghost predicate TurnedOn(v: seq<int>, p: seq<int>, inv: seq<int>, path: seq<int>) {
    && |v| == |p| == |inv|
    && forall y :: 0 <= y < |p| ==> v[y] == if y in path then inv[y] else p[y]
  }

  lemma PathBack(path: seq<int>, p: seq<int>, inv: seq<int>, orig: nat, m: nat)
    requires Inverse(p, inv) && orig < |p| && IsPath(path, p, orig) && m < |path|
    ensures inv[path[m]] == Before(path, orig, m)
  {
    assert inv[p[Before(path, orig, m)]] == Before(path, orig, m);
  }

  /** A permutation is injective, so a path that has not come back to its origin meets no row twice. */
  lemma PathMeetsNewRow(path: seq<int>, p: seq<int>, inv: seq<int>, orig: nat, j: nat)
    requires Inverse(p, inv) && orig < |p| && IsPath(path, p, orig) && j == p[PathEnd(path, orig)]
    requires path == [] || PathEnd(path, orig) != orig
    ensures j !in path && inv[j] == PathEnd(path, orig)
    ensures |path| < |p| && InRange(path + [j], |p|) && Distinct(path + [j])
  {
    assert inv[p[PathEnd(path, orig)]] == PathEnd(path, orig);
    if j in path {
      var m :| 0 <= m < |path| && path[m] == j;
      PathBack(path, p, inv, orig, m);
      assert false;
    }
    DistinctPush(path, j, |p|);
    DistinctBound(path + [j], |p|);
  }

  lemma ExtendPath(path: seq<int>, p: seq<int>, orig: nat, j: nat)
    requires orig < |p| && IsPath(path, p, orig) && j == p[PathEnd(path, orig)]
    requires path == [] || PathEnd(path, orig) != orig
    requires InRange(path + [j], |p|) && Distinct(path + [j])
    ensures IsPath(path + [j], p, orig) && PathEnd(path + [j], orig) == j
  {
    hide Distinct, Before;
    var t := path + [j];
    forall m | 0 <= m < |t|
      ensures t[m] == p[Before(t, orig, m)]
    {
      BeforeSame(path, j, orig, m);
      if m < |path| {
        assert t[m] == path[m] == p[Before(path, orig, m)];
      }
    }
    NotOrigin(path, orig, j);
    BeforeEnd(t, orig);
  }

  lemma BeforeSame(path: seq<int>, j: int, orig: nat, m: nat)
    requires m <= |path|
    ensures Before(path + [j], orig, m) == Before(path, orig, m)
  {
  }

  lemma BeforeEnd(t: seq<int>, orig: nat)
    requires t != []
    ensures PathEnd(t, orig) == t[|t| - 1]
  {
  }

  lemma NotOrigin(path: seq<int>, orig: nat, j: int)
    requires path == [] || PathEnd(path, orig) != orig
    requires forall m :: 0 <= m < |path| - 1 ==> path[m] != orig
    ensures forall m :: 0 <= m < |path + [j]| - 1 ==> (path + [j])[m] != orig
  {
  }

  lemma TurnNext(v: seq<int>, p: seq<int>, inv: seq<int>, path: seq<int>, j: nat, i: int)
    requires TurnedOn(v, p, inv, path) && j < |p| && inv[j] == i
    ensures TurnedOn(v[j := i], p, inv, path + [j])
  {
  }

  /** Following `v` from the row reached after k steps gives the row after k + 1 steps. */
  ghost predicate WalksFrom(v: seq<int>, s: seq<Byte>, orig: nat)
    requires orig < |s|
  {
    |v| == |s| && forall k: nat :: v[RowAfter(s, orig, k)] == RowAfter(s, orig, k + 1)
  }

  /** A path that has come back to its origin is closed under walking, so all rows of the walk lie on it. */
  lemma {:induction false} WalkStaysOnPath(path: seq<int>, s: seq<Byte>, orig: nat, k: nat)
    requires orig < |s| && IsPath(path, LFSeq(s), orig) && path != [] && PathEnd(path, orig) == orig
    ensures RowAfter(s, orig, k) in path
    decreases k
  {
    var p, inv := LFSeq(s), Back(s);
    if k == 0 {
      assert path[|path| - 1] == orig;
    } else {
      WalkStaysOnPath(path, s, orig, k - 1);
      var m :| 0 <= m < |path| && path[m] == RowAfter(s, orig, k - 1);
      PathBack(path, p, inv, orig, m);
      assert path[|path| - 1] == orig;
    }
  }

  /** Reverses the cycle of T through `orig` in place; the other cycles, which the walk never visits, stay as they are. */
  method ReverseCycle(ll16: array<UInt16>, ll4: array<Byte>, orig: nat, ghost s: seq<Byte>) returns (ghost v: seq<int>)
    requires orig < |s| <= 900000 && Packs(ll16[..], ll4[..], LFSeq(s))
    modifies ll16, ll4
    ensures Packs(ll16[..], ll4[..], v) && WalksFrom(v, s, orig)
  {
    ghost var p, inv := LFSeq(s), Back(s);
    v := p;
    ghost var path: seq<int> := [];
    var i := orig;
    var j := GetLL(ll16, ll4, i);
    var first := true;
    while first || i != orig
      invariant first <==> path == []
      invariant IsPath(path, p, orig) && i == PathEnd(path, orig) && 0 <= i < |s|
      invariant j == p[i] && TurnedOn(v, p, inv, path)
      invariant Packs(ll16[..], ll4[..], v)
      decreases |s| - |path|
    {
      PathMeetsNewRow(path, p, inv, orig, j);
      ExtendPath(path, p, orig, j);
      TurnNext(v, p, inv, path, j, i);
      var tmp := GetLL(ll16, ll4, j);
      SetPacked(ll16, ll4, j, i, v);
      v := v[j := i];
      path := path + [j];
      i, j := j, tmp;
      first := false;
    }
    forall k: nat
      ensures v[RowAfter(s, orig, k)] == RowAfter(s, orig, k + 1)
    {
      WalkStaysOnPath(path, s, orig, k);
    }
  }

  // ----- Reading.

  /** The byte value whose stretch of the sorted column contains row `indx`. */
  method IndexIntoF(indx: nat, cftab: array<int>, ghost s: seq<Byte>) returns (nb: Byte)
    requires indx < |s| && IsCumTable(cftab[..], s)
    ensures Cum(s, nb) <= indx < Cum(s, nb as int + 1)
  {
    CumAll(s);
    assert forall c :: 0 <= c <= 256 ==> cftab[c] == cftab[..][c];
    var lo, na := 0, 256;
    var mid := (lo + na) / 2;
    if indx >= cftab[mid] { lo := mid; } else { na := mid; }
    while na - lo != 1
      invariant 0 <= lo < na <= 256
      invariant Cum(s, lo) <= indx < Cum(s, na)
      decreases na - lo
    {
      mid := (lo + na) / 2;
      if indx >= cftab[mid] { lo := mid; } else { na := mid; }
    }
    nb := lo;
  }

  /** Row `r` of the sorted column starts with the byte that `IndexIntoF` finds. */
  lemma FirstOfRow(s: seq<Byte>, r: nat, c: Byte)
    requires r < |s| && Cum(s, c) <= r < Cum(s, c as int + 1)
    ensures c == s[Back(s)[r]]
  {
    var i := Back(s)[r];
    LFOfBack(s, r);
    LFRange(s, i);
    if c < s[i] {
      CumMono(s, c as int + 1, s[i]);
    } else if s[i] < c {
      CumMono(s, s[i] as int + 1, c);
    }
  }

  /** The k-th read returns what the fast representation returns. */
  method GetSmall(ll16: array<UInt16>, ll4: array<Byte>, cftab: array<int>, tPos: nat,
                  ghost s: seq<Byte>, ghost orig: nat, ghost v: seq<int>, ghost k: nat)
    returns (c: Byte, tPos': nat)
    requires Packs(ll16[..], ll4[..], v) && orig < |s| && WalksFrom(v, s, orig)
    requires IsCumTable(cftab[..], s) && tPos == RowAfter(s, orig, k)
    ensures c == ReadAt(s, orig, k) && tPos' == RowAfter(s, orig, k + 1)
  {
    c := IndexIntoF(tPos, cftab, s);
    FirstOfRow(s, tPos, c);
    tPos' := GetLL(ll16, ll4, tPos);
  }
}
