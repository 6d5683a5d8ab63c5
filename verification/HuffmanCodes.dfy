/** Canonical Huffman codes: the encoder's code assignment and the decoder's limit/base/perm tables.

    Codes are given out in order of length, then of symbol.  Every statement is about an arbitrary list of code
    lengths; only the statements that need it ask for the Kraft inequality.
 */
module HuffmanCodes {
  import opened Bits
  import opened Arrays

  const MAX_ALPHA_SIZE := 258
  const MAX_CODE_LEN := 23

  /** How many symbols have codes of length `n`. */
  function CountLen(len: seq<nat>, n: int): (r: nat)
    ensures r <= |len|
  {
    if len == [] then 0 else CountLen(len[..|len| - 1], n) + if len[|len| - 1] == n then 1 else 0
  }

  /** How many symbols have codes shorter than `n`. */
  function Shorter(len: seq<nat>, n: nat): nat {
    if n == 0 then 0 else Shorter(len, n - 1) + CountLen(len, n - 1)
  }

  /** The first code of length `n`. */
  function First(len: seq<nat>, n: nat): nat {
    if n == 0 then 0 else 2 * (First(len, n - 1) + CountLen(len, n - 1))
  }

  /** The code of symbol `i`, a number of len[i] bits. */
  function Code(len: seq<nat>, i: nat): nat
    requires i < |len|
  {
    First(len, len[i]) + CountLen(len[..i], len[i])
  }

  function CodeBits(len: seq<nat>, i: nat): Bits
    requires i < |len|
  {
    ToBits(len[i], Code(len, i))
  }

  /** Position of symbol `i` when symbols are ordered by length, then by number. */
  function Rank(len: seq<nat>, i: nat): nat
    requires i < |len|
  {
    Shorter(len, len[i]) + CountLen(len[..i], len[i])
  }

  ghost predicate LengthsWithin(len: seq<nat>, lo: nat, hi: nat) {
    forall i :: 0 <= i < |len| ==> lo <= len[i] <= hi
  }

  // ----- Counting.

  lemma CountPush(len: seq<nat>, n: int, i: nat)
    requires i < |len|
    ensures CountLen(len[..i + 1], n) == CountLen(len[..i], n) + if len[i] == n then 1 else 0
  {
    assert len[..i + 1][..i] == len[..i];
  }

  lemma {:induction false} CountPrefix(len: seq<nat>, n: int, i: nat, j: nat)
    requires i <= j <= |len|
    ensures CountLen(len[..i], n) <= CountLen(len[..j], n)
    ensures i < j && len[i] == n ==> CountLen(len[..i], n) < CountLen(len[..j], n)
    decreases j
  {
    if i < j {
      assert len[..j][..j - 1] == len[..j - 1];
      CountPrefix(len, n, i, j - 1);
    }
  }

  lemma {:induction false} CountNone(len: seq<nat>, n: int)
    requires forall i :: 0 <= i < |len| ==> len[i] != n
    ensures CountLen(len, n) == 0
  {
    if len != [] {
      CountNone(len[..|len| - 1], n);
    }
  }

  lemma {:induction false} ShorterMono(len: seq<nat>, m: nat, n: nat)
    requires m <= n
    ensures Shorter(len, m) <= Shorter(len, n)
  {
    if m < n {
      ShorterMono(len, m, n - 1);
    }
  }

  lemma {:induction false} NoneShorter(len: seq<nat>, lo: nat, n: nat)
    requires n <= lo && forall i :: 0 <= i < |len| ==> lo <= len[i]
    ensures Shorter(len, n) == 0 && First(len, n) == 0
  {
    if n > 0 {
      NoneShorter(len, lo, n - 1);
      CountNone(len, n - 1);
    }
  }

  lemma {:induction false} ShorterPush(len: seq<nat>, x: nat, n: nat)
    ensures Shorter(len + [x], n) == Shorter(len, n) + if x < n then 1 else 0
  {
    if n > 0 {
      ShorterPush(len, x, n - 1);
      assert (len + [x])[..|len|] == len;
    }
  }

  lemma {:induction false} ShorterAll(len: seq<nat>, n: nat)
    requires forall i :: 0 <= i < |len| ==> len[i] < n
    ensures Shorter(len, n) == |len|
  {
    if len == [] {
      ShorterEmpty(n);
    } else {
      var m := |len| - 1;
      ShorterAll(len[..m], n);
      assert len == len[..m] + [len[m]];
      ShorterPush(len[..m], len[m], n);
    }
  }

  lemma {:induction false} ShorterEmpty(n: nat)
    ensures Shorter([], n) == 0
  {
    if n > 0 {
      ShorterEmpty(n - 1);
    }
  }

  // ----- The Kraft sum.

  /** The sum of 2^(top - length) over all symbols; the Kraft inequality is Kraft(len, top) <= 2^top. */
  function Kraft(len: seq<nat>, top: nat): nat
    requires forall i :: 0 <= i < |len| ==> len[i] <= top
  {
    if len == [] then 0 else Kraft(len[..|len| - 1], top) + Pow2(top - len[|len| - 1])
  }

  /** The part of the Kraft sum due to lengths up to `n`, summed by length. */
  function KraftUpTo(len: seq<nat>, top: nat, n: nat): nat
    requires n <= top
  {
    Scale(CountLen(len, n), top - n) + if n == 0 then 0 else KraftUpTo(len, top, n - 1)
  }

  lemma {:induction false} KraftPush(len: seq<nat>, x: nat, top: nat, n: nat)
    requires n <= top
    ensures KraftUpTo(len + [x], top, n) == KraftUpTo(len, top, n) + if x <= n then Pow2(top - x) else 0
    decreases n
  {
    assert (len + [x])[..|len|] == len;
    ScaleAdd(CountLen(len, n), 1, top - n);
    if n > 0 {
      KraftPush(len, x, top, n - 1);
    }
  }

  lemma {:induction false} KraftByLength(len: seq<nat>, top: nat)
    requires forall i :: 0 <= i < |len| ==> len[i] <= top
    ensures KraftUpTo(len, top, top) == Kraft(len, top)
    decreases |len|
  {
    if len == [] {
      KraftEmpty(top, top);
    } else {
      var m := |len| - 1;
      KraftByLength(len[..m], top);
      assert len == len[..m] + [len[m]];
      KraftPush(len[..m], len[m], top, top);
    }
  }

  lemma {:induction false} KraftEmpty(top: nat, n: nat)
    requires n <= top
    ensures KraftUpTo([], top, n) == 0
    decreases n
  {
    ScaleAdd(0, 0, top - n);
    if n > 0 {
      KraftEmpty(top, n - 1);
    }
  }

  lemma {:induction false} KraftMono(len: seq<nat>, top: nat, m: nat, n: nat)
    requires m <= n <= top
    ensures KraftUpTo(len, top, m) <= KraftUpTo(len, top, n)
    decreases n
  {
    if m < n {
      KraftMono(len, top, m, n - 1);
    }
  }

  /** The end of the codes of length n, scaled to `top` bits, is the Kraft sum so far. */
  lemma {:induction false} EndOfLength(len: seq<nat>, top: nat, n: nat)
    requires n <= top
    ensures Scale(First(len, n) + CountLen(len, n), top - n) == KraftUpTo(len, top, n)
    decreases n
  {
    ScaleAdd(First(len, n), CountLen(len, n), top - n);
    if n > 0 {
      EndOfLength(len, top, n - 1);
      ScaleScale(First(len, n - 1) + CountLen(len, n - 1), 1, top - n);
    } else {
      ScaleAdd(0, 0, top);
    }
  }

  ghost predicate KraftHolds(len: seq<nat>, top: nat) {
    (forall i :: 0 <= i < |len| ==> len[i] <= top) && Kraft(len, top) <= Pow2(top)
  }

  /** The Kraft inequality at some scale. */
  ghost predicate Decodable(len: seq<nat>) {
    exists top :: KraftHolds(len, top)
  }

  lemma ScaledEnd(len: seq<nat>, top: nat, n: nat)
    requires n <= top && KraftHolds(len, top)
    ensures Scale(First(len, n) + CountLen(len, n), top - n) <= Pow2(top)
  {
    EndOfLength(len, top, n);
    KraftMono(len, top, n, top);
    KraftByLength(len, top);
  }

  /** Under the Kraft inequality the codes of length n fit into n bits. */
  lemma CodesFit(len: seq<nat>, top: nat, n: nat)
    requires n <= top && KraftHolds(len, top)
    ensures First(len, n) + CountLen(len, n) <= Pow2(n)
  {
    ScaledEnd(len, top, n);
    ScaledFits(First(len, n) + CountLen(len, n), n, top);
  }

  /** Longer codes start behind all extensions of shorter ones. */
  lemma {:induction false} FirstBeyond(len: seq<nat>, m: nat, n: nat)
    requires m < n
    ensures Scale(First(len, m) + CountLen(len, m), n - m) <= First(len, n)
    decreases n
  {
    if m < n - 1 {
      FirstBeyond(len, m, n - 1);
    }
  }

  // ----- What the decoder sees while it reads a code.

  lemma CodeFits(len: seq<nat>, top: nat, i: nat)
    requires i < |len| && KraftHolds(len, top)
    ensures Code(len, i) < Pow2(len[i]) && Val(CodeBits(len, i)) == Code(len, i)
    ensures Code(len, i) < First(len, len[i]) + CountLen(len, len[i])
  {
    CodesFit(len, top, len[i]);
    CountPrefix(len, len[i], i, |len|);
    assert len[..|len|] == len;
    ValToBits(len[i], Code(len, i));
  }

  lemma CodeBeyond(len: seq<nat>, i: nat, n: nat)
    requires i < |len| && n < len[i]
    ensures Scale(First(len, n) + CountLen(len, n), len[i] - n) <= Code(len, i)
  {
    FirstBeyond(len, n, len[i]);
  }

  /** After fewer bits than the code has, the value read is beyond the limit of that length. */
  lemma ReadingPartOfCode(len: seq<nat>, top: nat, i: nat, n: nat)
    requires i < |len| && KraftHolds(len, top)
    requires n < len[i]
    ensures First(len, n) + CountLen(len, n) <= Val(CodeBits(len, i)[..n])
  {
    hide Val, First, CountLen, Kraft, Code;
    CodeBeyond(len, i, n);
    CodeFits(len, top, i);
    PartOfNumber(CodeBits(len, i), len[i], Code(len, i), n, First(len, n) + CountLen(len, n));
  }

  lemma PartOfNumber(bs: Bits, l: nat, code: nat, n: nat, f: nat)
    requires |bs| == l && n <= l && Scale(f, l - n) <= code && Val(bs) == code
    ensures f <= Val(bs[..n])
  {
    PrefixAtLeast(bs, n, f);
  }

  ghost predicate IsPrefix(a: Bits, b: Bits) {
    |a| <= |b| && b[..|a|] == a
  }

  /** No code is a prefix of another one. */
  lemma PrefixFree(len: seq<nat>, top: nat, i: nat, j: nat)
    requires i < |len| && j < |len| && i != j
    requires KraftHolds(len, top)
    ensures !IsPrefix(CodeBits(len, i), CodeBits(len, j))
  {
    if IsPrefix(CodeBits(len, i), CodeBits(len, j)) {
      CodeFits(len, top, i);
      CodeFits(len, top, j);
      if len[i] < len[j] {
        ReadingPartOfCode(len, top, j, len[i]);
      } else {
        assert CodeBits(len, j)[..len[i]] == CodeBits(len, j);
        if i < j {
          CountPrefix(len, len[i], i, j);
        } else {
          CountPrefix(len, len[i], j, i);
        }
      }
    }
  }

  // ----- The decoding tables as functions of the lengths.

  /** The largest code of length `n`; 0 outside the range of lengths in use. */
  function Limit(len: seq<nat>, lo: nat, hi: nat, n: nat): int {
    if lo <= n <= hi then First(len, n) + CountLen(len, n) - 1 else 0
  }

  /** What to subtract from a code of length `n` to get the rank of its symbol. */
  function Base(len: seq<nat>, lo: nat, hi: nat, n: nat): int {
    if lo < n <= hi then First(len, n) - Shorter(len, n) else Shorter(len, n)
  }

  /** The symbols below `k` with codes of length `n`. */
  function SymbolsOf(len: seq<nat>, n: nat, k: nat): (r: seq<nat>)
    requires k <= |len|
    ensures |r| == CountLen(len[..k], n)
    decreases k
  {
    if k == 0 then []
    else
      CountPush(len, n, k - 1);
      SymbolsOf(len, n, k - 1) + if len[k - 1] == n then [k - 1] else []
  }

  /** The symbols with codes shorter than `n`, by length and then by number. */
  function SymbolsBelow(len: seq<nat>, n: nat): (r: seq<nat>)
    ensures |r| == Shorter(len, n)
    decreases n
  {
    if n == 0 then []
    else
      assert len[..|len|] == len;
      SymbolsBelow(len, n - 1) + SymbolsOf(len, n - 1, |len|)
  }

  lemma {:induction false} SymbolAt(len: seq<nat>, n: nat, k: nat, i: nat)
    requires i < k <= |len| && len[i] == n
    ensures CountLen(len[..i], n) < |SymbolsOf(len, n, k)| && SymbolsOf(len, n, k)[CountLen(len[..i], n)] == i
    decreases k
  {
    CountPrefix(len, n, i, k);
    if i < k - 1 {
      CountPrefix(len, n, i, k - 1);
      SymbolAt(len, n, k - 1, i);
    }
  }

  /** The table of symbols is indexed by rank. */
  lemma {:induction false} SymbolAtRank(len: seq<nat>, n: nat, i: nat)
    requires i < |len| && len[i] < n
    ensures Rank(len, i) < Shorter(len, n) && SymbolsBelow(len, n)[Rank(len, i)] == i
    decreases n
  {
    var a, c := SymbolsBelow(len, n - 1), SymbolsOf(len, n - 1, |len|);
    assert SymbolsBelow(len, n) == a + c;
    assert len[..|len|] == len;
    if len[i] == n - 1 {
      SymbolAt(len, n - 1, |len|, i);
      assert (a + c)[|a| + CountLen(len[..i], n - 1)] == i;
    } else {
      SymbolAtRank(len, n - 1, i);
      assert (a + c)[Rank(len, i)] == i;
    }
  }

  /** Decoding is right: with all bits of the code of symbol `i` read, the tables lead to `i`. */
  lemma DecodeWhole(len: seq<nat>, top: nat, lo: nat, hi: nat, i: nat)
    requires i < |len| && LengthsWithin(len, lo, hi) && KraftHolds(len, top)
    ensures Val(CodeBits(len, i)) <= Limit(len, lo, hi, len[i])
    ensures 0 <= Val(CodeBits(len, i)) - Base(len, lo, hi, len[i]) < |len| == |SymbolsBelow(len, hi + 1)|
    ensures SymbolsBelow(len, hi + 1)[Val(CodeBits(len, i)) - Base(len, lo, hi, len[i])] == i
  {
    CodeFits(len, top, i);
    NoneShorter(len, lo, lo);
    SymbolAtRank(len, hi + 1, i);
    ShorterAll(len, hi + 1);
    assert Code(len, i) - Base(len, lo, hi, len[i]) == Rank(len, i);
  }

  /** ... and with fewer bits the limit of that length is exceeded, so the decoder reads on. */
  lemma DecodePart(len: seq<nat>, top: nat, lo: nat, hi: nat, i: nat, n: nat)
    requires i < |len| && LengthsWithin(len, lo, hi) && KraftHolds(len, top)
    requires lo <= n < len[i]
    ensures Val(CodeBits(len, i)[..n]) > Limit(len, lo, hi, n)
  {
    ReadingPartOfCode(len, top, i, n);
  }

  /** The loop that reads a code: takes bits one at a time, from `n` bits on, until they are within the limit of their
      length; `|bs|` when they never are. */
  function BitsOfCode(len: seq<nat>, lo: nat, hi: nat, bs: Bits, n: nat): (r: nat)
    requires n <= |bs|
    ensures n <= r <= |bs|
    decreases |bs| - n
  {
    if n == |bs| || Val(bs[..n]) <= Limit(len, lo, hi, n) then n else BitsOfCode(len, lo, hi, bs, n + 1)
  }

  lemma {:induction false} ReadsOn(len: seq<nat>, top: nat, lo: nat, hi: nat, i: nat, rest: Bits, n: nat)
    requires i < |len| && LengthsWithin(len, lo, hi) && KraftHolds(len, top) && lo <= n <= len[i]
    ensures BitsOfCode(len, lo, hi, CodeBits(len, i) + rest, n) == len[i]
    decreases len[i] - n
  {
    hide Val, First, CountLen, Kraft;
    var code := CodeBits(len, i);
    assert (code + rest)[..n] == code[..n];
    if n < len[i] {
      DecodePart(len, top, lo, hi, i, n);
      ReadsOn(len, top, lo, hi, i, rest, n + 1);
    } else {
      assert code[..n] == code;
      DecodeWhole(len, top, lo, hi, i);
    }
  }

  /** Decoding undoes encoding: in front of any bits, the code of symbol `i` is read to its end and no further, and
      what was read leads through the tables back to `i`. */
  lemma DecodeSymbol(len: seq<nat>, top: nat, lo: nat, hi: nat, i: nat, rest: Bits)
    requires i < |len| && LengthsWithin(len, lo, hi) && KraftHolds(len, top)
    ensures var bs := CodeBits(len, i) + rest;
            && lo <= |bs|
            && var n := BitsOfCode(len, lo, hi, bs, lo);
               && n == len[i]
               && 0 <= Val(bs[..n]) - Base(len, lo, hi, n) < |SymbolsBelow(len, hi + 1)|
               && SymbolsBelow(len, hi + 1)[Val(bs[..n]) - Base(len, lo, hi, n)] == i
  {
    hide Val, First, CountLen, Kraft;
    ReadsOn(len, top, lo, hi, i, rest, lo);
    DecodeWhole(len, top, lo, hi, i);
    assert (CodeBits(len, i) + rest)[..len[i]] == CodeBits(len, i);
  }

  /** Whatever bits are read, well-formed or not: within the limit of their length they never lead beyond the alphabet.
      The tables need no end mark, and the only index to be refused is a negative one. */
  lemma WithinAlphabet(len: seq<nat>, lo: nat, hi: nat, n: nat, v: nat)
    requires 0 < |len| && LengthsWithin(len, lo, hi) && v <= Limit(len, lo, hi, n)
    ensures v - Base(len, lo, hi, n) < |len| == |SymbolsBelow(len, hi + 1)|
    ensures n > hi ==> v - Base(len, lo, hi, n) < 0
  {
    assert lo <= len[0] <= hi;
    ShorterAll(len, hi + 1);
    if lo <= n <= hi {
      NoneShorter(len, lo, lo);
      ShorterMono(len, n + 1, hi + 1);
    } else if n < lo {
      NoneShorter(len, lo, n);
    } else {
      ShorterAll(len, n);
    }
  }

  // ----- The loops.

  /** Gives out the codes of all symbols. */
  method AssignCodes(code: array<int>, length: array<nat>, minLen: nat, maxLen: nat, alphaSize: nat, ghost len: seq<nat>)
    requires alphaSize == |len| <= length.Length && length[..alphaSize] == len && alphaSize <= code.Length
    requires LengthsWithin(len, minLen, maxLen) && code as object != length
    modifies code
    ensures forall i :: 0 <= i < alphaSize ==> code[i] == Code(len, i)
  {
    NoneShorter(len, minLen, minLen);
    var vec := 0;
    var n := minLen;
    while n <= maxLen
      invariant minLen <= n <= maxLen + 1 || minLen > maxLen
      invariant vec == First(len, n)
      invariant forall i :: 0 <= i < alphaSize && len[i] < n ==> code[i] == Code(len, i)
    {
      var i := 0;
      while i < alphaSize
        invariant 0 <= i <= alphaSize
        invariant vec == First(len, n) + CountLen(len[..i], n)
        invariant forall k :: 0 <= k < alphaSize && (len[k] < n || (len[k] == n && k < i)) ==> code[k] == Code(len, k)
      {
        assert length[i] == length[..alphaSize][i];
        CountPush(len, n, i);
        if length[i] == n {
          code[i] := vec;
          vec := vec + 1;
        }
        i := i + 1;
      }
      assert len[..alphaSize] == len;
      vec := vec * 2;
      n := n + 1;
    }
  }

  /** Appends the symbols with codes of length `n` to `perm`. */
  method FillPermOfLength(perm: array<int>, length: array<nat>, n: nat, alphaSize: nat, pp0: nat, ghost len: seq<nat>) returns (pp: nat)
    requires alphaSize == |len| <= length.Length && length[..alphaSize] == len && alphaSize <= perm.Length
    requires perm as object != length && pp0 + CountLen(len, n) <= alphaSize
    modifies perm
    ensures pp == pp0 + CountLen(len, n)
    ensures perm[..pp] == old(perm[..pp0]) + SymbolsOf(len, n, alphaSize) && perm[alphaSize..] == old(perm[alphaSize..])
  {
    ghost var p := perm[..pp0];
    pp := pp0;
    var j := 0;
    while j < alphaSize
      invariant 0 <= j <= alphaSize
      invariant pp == pp0 + CountLen(len[..j], n) <= alphaSize
      invariant perm[..pp] == p + SymbolsOf(len, n, j) && perm[alphaSize..] == old(perm[alphaSize..])
    {
      assert length[j] == length[..alphaSize][j];
      CountPush(len, n, j);
      if length[j] == n {
        RoomForSymbol(len, n, j);
        assert pp < alphaSize;
        ghost var q := perm[..pp];
        perm[pp] := j;
        pp := pp + 1;
        assert perm[..pp] == q + [j];
      }
      j := j + 1;
    }
    assert len[..alphaSize] == len;
  }

  lemma RoomForSymbol(len: seq<nat>, n: nat, j: nat)
    requires j < |len| && len[j] == n
    ensures CountLen(len[..j], n) < CountLen(len, n)
  {
    CountPrefix(len, n, j, |len|);
    assert len[..|len|] == len;
  }

  /** Orders the symbols by length. */
  method FillPerm(perm: array<int>, length: array<nat>, minLen: nat, maxLen: nat, alphaSize: nat, ghost len: seq<nat>)
    requires alphaSize == |len| <= length.Length && length[..alphaSize] == len && alphaSize <= perm.Length
    requires LengthsWithin(len, minLen, maxLen) && perm as object != length && minLen <= maxLen
    modifies perm
    ensures perm[..alphaSize] == SymbolsBelow(len, maxLen + 1) && perm[alphaSize..] == old(perm[alphaSize..])
  {
    hide CountLen, SymbolsOf;
    NoneShorter(len, minLen, minLen);
    ShorterAll(len, maxLen + 1);
    var pp := 0;
    var i := minLen;
    assert perm[..pp] == SymbolsBelow(len, minLen);
    while i <= maxLen
      invariant minLen <= i <= maxLen + 1
      invariant pp == Shorter(len, i) <= alphaSize
      invariant perm[..pp] == SymbolsBelow(len, i) && perm[alphaSize..] == old(perm[alphaSize..])
    {
      ShorterMono(len, i + 1, maxLen + 1);
      ghost var below := SymbolsBelow(len, i);
      pp := FillPermOfLength(perm, length, i, alphaSize, pp, len);
      assert SymbolsBelow(len, i + 1) == below + SymbolsOf(len, i, alphaSize);
      i := i + 1;
    }
  }

  /** How many codes have a length just below `n`. */
  function CountBefore(len: seq<nat>, n: nat): nat {
    if n == 0 then 0 else CountLen(len, n - 1)
  }

  /** Counts the symbols shorter than each length. */
  method FillBase(base: array<int>, length: array<nat>, alphaSize: nat, ghost len: seq<nat>)
    requires alphaSize == |len| <= length.Length && length[..alphaSize] == len && MAX_CODE_LEN <= base.Length
    requires LengthsWithin(len, 0, MAX_CODE_LEN - 2) && base as object != length
    modifies base
    ensures forall n :: 0 <= n < MAX_CODE_LEN ==> base[n] == Shorter(len, n)
  {
    hide CountLen;
    var i := 0;
    while i < MAX_CODE_LEN
      invariant 0 <= i <= MAX_CODE_LEN && forall n :: 0 <= n < i ==> base[n] == 0
    {
      base[i] := 0;
      i := i + 1;
    }
    i := 0;
    while i < alphaSize
      invariant 0 <= i <= alphaSize
      invariant forall n :: 0 <= n < MAX_CODE_LEN ==> base[n] == CountBefore(len[..i], n)
    {
      assert length[i] == length[..alphaSize][i];
      base[length[i] + 1] := base[length[i] + 1] + 1;
      forall n | 0 <= n < MAX_CODE_LEN
        ensures CountBefore(len[..i + 1], n) == CountBefore(len[..i], n) + if len[i] == n - 1 then 1 else 0
      {
        CountPush(len, n - 1, i);
      }
      i := i + 1;
    }
    assert len[..alphaSize] == len;
    i := 1;
    while i < MAX_CODE_LEN
      invariant 1 <= i <= MAX_CODE_LEN
      invariant forall n :: 0 <= n < i ==> base[n] == Shorter(len, n)
      invariant forall n :: i <= n < MAX_CODE_LEN ==> base[n] == CountBefore(len, n)
    {
      base[i] := base[i] + base[i - 1];
      i := i + 1;
    }
  }

  /** Builds the three decoding tables. */
  method CreateDecodeTables(limit: array<int>, base: array<int>, perm: array<int>, length: array<nat>, minLen: nat, maxLen: nat,
                            alphaSize: nat, ghost len: seq<nat>)
    requires limit != base && base != perm && limit != perm
    requires limit as object != length && base as object != length && perm as object != length
    requires limit.Length >= MAX_CODE_LEN && base.Length >= MAX_CODE_LEN && perm.Length >= alphaSize
    requires alphaSize == |len| <= length.Length && length[..alphaSize] == len
    requires 1 <= minLen <= maxLen <= MAX_CODE_LEN - 3 && LengthsWithin(len, minLen, maxLen)
    modifies limit, base, perm
    ensures perm[..alphaSize] == SymbolsBelow(len, maxLen + 1) && perm[alphaSize..] == old(perm[alphaSize..])
    ensures forall n :: 0 <= n < MAX_CODE_LEN ==> limit[n] == Limit(len, minLen, maxLen, n)
    ensures forall n :: 0 <= n < MAX_CODE_LEN ==> base[n] == Base(len, minLen, maxLen, n)
  {
    FillPerm(perm, length, minLen, maxLen, alphaSize, len);
    FillBase(base, length, alphaSize, len);
    FillLimit(limit, base, minLen, maxLen, len);
    AdjustBase(limit, base, minLen, maxLen, len);
  }

  method FillLimit(limit: array<int>, base: array<int>, minLen: nat, maxLen: nat, ghost len: seq<nat>)
    requires limit != base && limit.Length >= MAX_CODE_LEN && base.Length >= MAX_CODE_LEN
    requires 1 <= minLen <= maxLen <= MAX_CODE_LEN - 3 && LengthsWithin(len, minLen, maxLen)
    requires forall n :: 0 <= n < MAX_CODE_LEN ==> base[n] == Shorter(len, n)
    modifies limit
    ensures forall n :: 0 <= n < MAX_CODE_LEN ==> limit[n] == Limit(len, minLen, maxLen, n)
  {
    var i := 0;
    while i < MAX_CODE_LEN
      invariant 0 <= i <= MAX_CODE_LEN && forall n :: 0 <= n < i ==> limit[n] == 0
    {
      limit[i] := 0;
      i := i + 1;
    }
    NoneShorter(len, minLen, minLen);
    var vec := 0;
    i := minLen;
    while i <= maxLen
      invariant minLen <= i <= maxLen + 1
      invariant vec == First(len, i)
      invariant forall n :: 0 <= n < MAX_CODE_LEN ==> limit[n] == Limit(len, minLen, i - 1, n)
    {
      vec := vec + (base[i + 1] - base[i]);
      limit[i] := vec - 1;
      vec := vec * 2;
      i := i + 1;
    }
  }

  method AdjustBase(limit: array<int>, base: array<int>, minLen: nat, maxLen: nat, ghost len: seq<nat>)
    requires limit != base && limit.Length >= MAX_CODE_LEN && base.Length >= MAX_CODE_LEN
    requires minLen <= maxLen <= MAX_CODE_LEN - 3
    requires forall n :: 0 <= n < MAX_CODE_LEN ==> limit[n] == Limit(len, minLen, maxLen, n)
    requires forall n :: 0 <= n < MAX_CODE_LEN ==> base[n] == Shorter(len, n)
    modifies base
    ensures forall n :: 0 <= n < MAX_CODE_LEN ==> base[n] == Base(len, minLen, maxLen, n)
  {
    var i := minLen + 1;
    while i <= maxLen
      invariant minLen + 1 <= i <= maxLen + 1
      invariant forall n :: 0 <= n < MAX_CODE_LEN ==> base[n] == Base(len, minLen, i - 1, n)
    {
      base[i] := (limit[i - 1] + 1) * 2 - base[i];
      i := i + 1;
    }
  }
}
