/** The decoder's comparison with the limits finds a symbol exactly when it has read the symbol's code, for any lengths at all. */
module FormatCodes {
  import opened Bits
  import opened BlockParser
  import opened Format
  import opened HuffmanCodes

  lemma {:induction false} SymbolsOfAt(len: seq<nat>, n: nat, k: nat, i: nat)
    requires k <= |len| && i < |SymbolsOf(len, n, k)|
    ensures var s := SymbolsOf(len, n, k)[i]; s < k && len[s] == n && CountLen(len[..s], n) == i
    decreases k
  {
    CountPush(len, n, k - 1);
    if i < |SymbolsOf(len, n, k - 1)| {
      SymbolsOfAt(len, n, k - 1, i);
    }
  }

  lemma {:induction false} BelowAt(len: seq<nat>, n: nat, m: nat, i: nat)
    requires n < m && i < CountLen(len, n)
    ensures Shorter(len, n) + i < Shorter(len, m) && len[..|len|] == len
    ensures SymbolsBelow(len, m)[Shorter(len, n) + i] == SymbolsOf(len, n, |len|)[i]
    decreases m
  {
    assert len[..|len|] == len;
    if n < m - 1 {
      BelowAt(len, n, m - 1, i);
    }
  }

  /** What was read lies behind all shorter codes. */
  lemma BehindShorter(len: seq<nat>, z: Bits)
    requires NoneBefore(len, z)
    ensures First(len, |z|) <= Val(z)
  {
    if z != [] {
      var n := |z| - 1;
      assert !WithinCodes(len, z[..n]);
    }
  }

  /** Within the codes of its length it is the code of a symbol. */
  lemma CodeRead(len: seq<nat>, z: Bits) returns (sym: nat)
    requires NoneBefore(len, z) && WithinCodes(len, z)
    ensures CodeText(z, len, sym) && Rank(len, sym) == Shorter(len, |z|) + (Val(z) - First(len, |z|))
  {
    hide Val, First;
    BehindShorter(len, z);
    var n := |z|;
    assert len[..|len|] == len;
    sym := SymbolsOf(len, n, |len|)[Val(z) - First(len, n)];
    SymbolsOfAt(len, n, |len|, Val(z) - First(len, n));
    ToBitsVal(z);
  }

  lemma SameCode(z: Bits, len: seq<nat>, i: nat, j: nat)
    requires CodeText(z, len, i) && CodeText(z, len, j)
    ensures i == j
  {
    if i < j {
      CountPrefix(len, len[i], i, j);
    } else if j < i {
      CountPrefix(len, len[i], j, i);
    }
  }

  lemma CodeWithin(z: Bits, len: seq<nat>, sym: nat)
    requires CodeText(z, len, sym)
    ensures sym < |len| && WithinCodes(len, z) && |z| == len[sym]
  {
    CountPrefix(len, len[sym], sym, |len|);
    assert len[..|len|] == len;
  }

  /** Beyond the longest code there is nothing. */
  lemma BeyondLongest(len: seq<nat>, z: Bits)
    requires NoneBefore(len, z) && LenOk(len, |len|) && |z| > MaxLen(len)
    ensures !WithinCodes(len, z)
  {
    BehindShorter(len, z);
    CountNone(len, |z|);
  }

  /** In the range of lengths, the limit tells. */
  lemma LimitTells(len: seq<nat>, z: Bits)
    requires LenOk(len, |len|) && 0 < |len| && MinLen(len) <= |z| <= MaxLen(len)
    ensures Val(z) <= Limit(len, MinLen(len), MaxLen(len), |z|) <==> WithinCodes(len, z)
    ensures Base(len, MinLen(len), MaxLen(len), |z|) == First(len, |z|) - Shorter(len, |z|)
  {
    NoneShorter(len, MinLen(len), MinLen(len));
  }

  lemma FoundWithin(len: seq<nat>, z: Bits) returns (sym: nat)
    requires LenOk(len, |len|) && 0 < |len| <= MAX_ALPHA_SIZE && NoneBefore(len, z) && MinLen(len) <= |z| <= MaxLen(len)
    requires WithinCodes(len, z)
    ensures LookUp(len, z) == Found(sym) && CodeText(z, len, sym)
  {
    hide Val, First, Limit, Base, NoneBefore, WithinCodes, SymbolsBelow;
    var lo, hi := MinLen(len), MaxLen(len);
    assert hi <= LONGEST_CODE;
    LimitTells(len, z);
    WithinAlphabet(len, lo, hi, |z|, Val(z));
    sym := CodeRead(len, z);
    CodeWithin(z, len, sym);
    SymbolAtRank(len, hi + 1, sym);
  }

  /** The symbol found is the one whose code was read; and where the comparison asks for more bits, no code has been read. */
  lemma LookUpExact(len: seq<nat>, z: Bits, sym: nat)
    requires LenOk(len, |len|) && 0 < |len| <= MAX_ALPHA_SIZE && NoneBefore(len, z) && MinLen(len) <= |z| <= LONGEST_CODE
    ensures LookUp(len, z) == Found(sym) <==> CodeText(z, len, sym)
    ensures LookUp(len, z) == More <==> !WithinCodes(len, z) && !(|z| > MaxLen(len) && Val(z) == 0)
  {
    hide First, Base, WithinCodes, NoneBefore, CodeText, Val;
    var lo, hi := MinLen(len), MaxLen(len);
    if CodeText(z, len, sym) {
      CodeWithin(z, len, sym);
    }
    if |z| > hi {
      BeyondLongest(len, z);
      NotBeyond(len, z);
    } else {
      LimitTells(len, z);
      if WithinCodes(len, z) {
        var s := FoundWithin(len, z);
        if CodeText(z, len, sym) {
          SameCode(z, len, sym, s);
        }
      }
    }
  }

  lemma NotBeyond(len: seq<nat>, z: Bits)
    requires LenOk(len, |len|) && 0 < |len| <= MAX_ALPHA_SIZE && MaxLen(len) < |z| <= LONGEST_CODE
    ensures LookUp(len, z) == if Val(z) == 0 then Bad else More
  {
    hide Val, First;
    var lo, hi := MinLen(len), MaxLen(len);
    if Val(z) == 0 {
      WithinAlphabet(len, lo, hi, |z|, 0);
    }
  }

  /** Where no code has been read, the bits are no code only if they are too many. */
  lemma OnlyTooLong(len: seq<nat>, z: Bits)
    requires LenOk(len, |len|) && 0 < |len| <= MAX_ALPHA_SIZE && NoneBefore(len, z) && MinLen(len) <= |z| <= 21 && LookUp(len, z) == Bad
    ensures |z| == 21
  {
    hide First, Base, WithinCodes, NoneBefore, CodeText, Val, LookUp, CountLen;
    if |z| <= 20 {
      LookUpExact(len, z, 0);
      if |z| > MaxLen(len) {
        FirstCodeZero(len, z);
        BeyondLongest(len, z);
      } else if WithinCodes(len, z) {
        var sym := FoundWithin(len, z);
      }
    }
  }

  /** All zeros begin with the first code. */
  lemma FirstCodeZero(len: seq<nat>, z: Bits)
    requires LenOk(len, |len|) && 0 < |len| && NoneBefore(len, z) && |z| > MaxLen(len)
    ensures Val(z) > 0
  {
    BehindShorter(len, z);
    var hi := MaxLen(len);
    assert hi in len;
    SomeOfLength(len, hi);
    assert !WithinCodes(len, z[..hi]);
    PrefixVal(z, hi);
  }

  lemma {:induction false} SomeOfLength(len: seq<nat>, n: nat)
    requires n in len
    ensures CountLen(len, n) > 0
  {
    var k := |len| - 1;
    if len[k] != n {
      assert len == len[..k] + [len[k]];
      SomeOfLength(len[..k], n);
    }
  }

  lemma PrefixVal(z: Bits, n: nat)
    requires n <= |z|
    ensures Val(z) >= Val(z[..n])
  {
    assert z == z[..n] + z[n..];
    ValConcat(z[..n], z[n..]);
    ScaleAtLeast(Val(z[..n]), |z| - n);
  }

  lemma {:induction false} ScaleAtLeast(a: nat, k: nat)
    ensures Scale(a, k) >= a
  {
    if k > 0 {
      ScaleAtLeast(a, k - 1);
    }
  }
}
