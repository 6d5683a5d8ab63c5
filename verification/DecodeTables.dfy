/** The decoder's tables for one block: for every coding table its shortest length and the limit, base and perm arrays. */
module DecodeTables {
  import opened Bits
  import opened BlockParser
  import opened HuffmanCodes

  datatype DecodeTable = DecodeTable(minLen: nat, limit: seq<int>, base: seq<int>, perm: seq<int>)

  ghost predicate TableFor(t: DecodeTable, len: seq<nat>) {
    var lo, hi := MinLen(len), MaxLen(len);
    && t.minLen == lo && |t.limit| == |t.base| == MAX_CODE_LEN && t.perm == HuffmanCodes.SymbolsBelow(len, hi + 1) && |t.perm| == |len|
    && forall n :: 0 <= n < MAX_CODE_LEN ==> t.limit[n] == Limit(len, lo, hi, n) && t.base[n] == Base(len, lo, hi, n)
  }

  ghost predicate TablesFor(tables: seq<DecodeTable>, lens: seq<seq<nat>>) {
    |tables| == |lens| && forall t :: 0 <= t < |tables| ==> TableFor(tables[t], lens[t])
  }

  /** Row `t` of the array of code lengths. */
  ghost predicate IsRow(lens: array2<nat>, t: nat, len: seq<nat>)
    reads lens
  {
    t < lens.Length0 && |len| <= lens.Length1 && forall i :: 0 <= i < |len| ==> lens[t, i] == len[i]
  }

  lemma LengthsBetween(len: seq<nat>)
    requires LenOk(len, |len|) && 0 < |len|
    ensures 1 <= MinLen(len) <= MaxLen(len) <= LONGEST_CODE && LengthsWithin(len, MinLen(len), MaxLen(len))
  {
    assert MinLen(len) <= len[0] <= MaxLen(len);
    assert MinLen(len) in len && MaxLen(len) in len;
  }

  /** The shortest and the longest length, and the row as an array. */
  method MeasureRow(lens: array2<nat>, t: nat, alphaSize: nat, ghost len: seq<nat>) returns (minLen: nat, maxLen: nat, row: array<nat>)
    requires IsRow(lens, t, len) && |len| == alphaSize
    ensures minLen == MinLen(len) && maxLen == MaxLen(len) && row.Length == alphaSize && row[..] == len && fresh(row)
  {
    row := new nat[alphaSize];
    minLen, maxLen := 32, 0;
    var i := 0;
    while i < alphaSize
      invariant 0 <= i <= alphaSize && minLen == MinLen(len[..i]) && maxLen == MaxLen(len[..i]) && row[..i] == len[..i]
    {
      assert len[..i + 1][..i] == len[..i] && len[..i + 1][i] == len[i];
      if lens[t, i] > maxLen {
        maxLen := lens[t, i];
      }
      if lens[t, i] < minLen {
        minLen := lens[t, i];
      }
      row[i] := lens[t, i];
      assert row[..i + 1] == row[..i] + [row[i]];
      i := i + 1;
    }
    assert len[..i] == len && row[..i] == row[..];
  }

  /** BZ2_hbCreateDecodeTables for one table. */
  method MakeDecodeTable(lens: array2<nat>, t: nat, alphaSize: nat, ghost len: seq<nat>) returns (table: DecodeTable)
    requires IsRow(lens, t, len) && LenOk(len, |len|) && 0 < |len| == alphaSize <= MAX_ALPHA_SIZE
    ensures TableFor(table, len)
  {
    hide First, Shorter, CountLen, MinLen, MaxLen;
    LengthsBetween(len);
    var minLen, maxLen, row := MeasureRow(lens, t, alphaSize, len);
    var limit, base, perm := new int[MAX_CODE_LEN], new int[MAX_CODE_LEN], new int[alphaSize];
    assert row[..alphaSize] == row[..];
    CreateDecodeTables(limit, base, perm, row, minLen, maxLen, alphaSize, len);
    table := DecodeTable(minLen, limit[..], base[..], perm[..alphaSize]);
  }

  method MakeDecodeTables(lens: array2<nat>, nGroups: nat, alphaSize: nat, ghost all: seq<seq<nat>>) returns (tables: seq<DecodeTable>)
    requires |all| == nGroups && 0 < alphaSize <= MAX_ALPHA_SIZE && LensOk(all, alphaSize)
    requires forall t :: 0 <= t < nGroups ==> IsRow(lens, t, all[t])
    ensures TablesFor(tables, all)
  {
    hide TableFor;
    tables := [];
    var t := 0;
    while t < nGroups
      invariant 0 <= t == |tables| <= nGroups && forall k :: 0 <= k < t ==> TableFor(tables[k], all[k])
      invariant forall k :: 0 <= k < nGroups ==> IsRow(lens, k, all[k])
    {
      assert LenOk(all[t], alphaSize);
      var table := MakeDecodeTable(lens, t, alphaSize, all[t]);
      tables := tables + [table];
      t := t + 1;
    }
  }

  /** Compares the bits read so far, the number `zvec` of `zn` bits, with the limit of their length, and finds their
      symbol. */
  method FindSymbol(t: DecodeTable, zn: nat, zvec: nat, ghost bits: Bits, ghost len: seq<nat>) returns (r: Lookup)
    requires TableFor(t, len) && LenOk(len, |len|) && 0 < |len| <= MAX_ALPHA_SIZE && zn == |bits| && zvec == Val(bits)
    ensures r == LookUp(len, bits)
  {
    hide Val, First, Shorter, CountLen, Limit, Base, HuffmanCodes.SymbolsBelow;
    LengthsBetween(len);
    if zn > LONGEST_CODE {
      return Bad;
    }
    if zvec > t.limit[zn] {
      return More;
    }
    WithinAlphabet(len, MinLen(len), MaxLen(len), zn, zvec);
    if zvec - t.base[zn] < 0 || zvec - t.base[zn] >= MAX_ALPHA_SIZE {
      return Bad;
    }
    return Found(t.perm[zvec - t.base[zn]]);
  }

  lemma {:induction false} SymbolsOfRange(len: seq<nat>, n: nat, k: nat)
    requires k <= |len|
    ensures forall i :: 0 <= i < |SymbolsOf(len, n, k)| ==> SymbolsOf(len, n, k)[i] < |len|
    decreases k
  {
    if k > 0 {
      SymbolsOfRange(len, n, k - 1);
    }
  }

  lemma {:induction false} SymbolsRange(len: seq<nat>, n: nat)
    ensures forall i :: 0 <= i < |HuffmanCodes.SymbolsBelow(len, n)| ==> HuffmanCodes.SymbolsBelow(len, n)[i] < |len|
  {
    if n > 0 {
      SymbolsRange(len, n - 1);
      SymbolsOfRange(len, n - 1, |len|);
    }
  }

  /** Only symbols of the alphabet are found. */
  lemma FoundInAlphabet(len: seq<nat>, bits: Bits)
    requires LenOk(len, |len|) && 0 < |len| <= MAX_ALPHA_SIZE && LookUp(len, bits).Found?
    ensures LookUp(len, bits).sym < |len|
  {
    hide Val, First, Shorter, CountLen, Limit, Base, HuffmanCodes.SymbolsBelow;
    SymbolsRange(len, MaxLen(len) + 1);
    LengthsBetween(len);
    WithinAlphabet(len, MinLen(len), MaxLen(len), |bits|, Val(bits));
  }
}
