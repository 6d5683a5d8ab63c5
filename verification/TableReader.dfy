/** The decoder between requests for bits, as the code does it: a label for the place to go on from, and the locals and
    tables that outlive a suspension, all of them updated in place.

    `ctl` is the abstract place; every turn takes it where `HandleCtl` says.
 */
module TableReader {
  import opened Bits
  import opened BlockParser
  import opened Crc
  import opened HuffmanCodes
  import opened MoveToFront
  import opened MtfEncoder
  import opened Rotations

  const X_IDLE := 1
  const X_OUTPUT := 2
  const X_MAGIC_1 := 10
  const X_MAGIC_2 := 11
  const X_MAGIC_3 := 12
  const X_MAGIC_4 := 13
  const X_BLKHDR_1 := 14
  const X_BLKHDR_2 := 15
  const X_BLKHDR_3 := 16
  const X_BLKHDR_4 := 17
  const X_BLKHDR_5 := 18
  const X_BLKHDR_6 := 19
  const X_BCRC_1 := 20
  const X_BCRC_4 := 23
  const X_RANDBIT := 24
  const X_ORIGPTR_1 := 25
  const X_ORIGPTR_3 := 27
  const X_MAPPING_1 := 28
  const X_MAPPING_2 := 29
  const X_SELECTOR_1 := 30
  const X_SELECTOR_2 := 31
  const X_SELECTOR_3 := 32
  const X_CODING_1 := 33
  const X_CODING_2 := 34
  const X_CODING_3 := 35
  const X_MTF_1 := 36
  const X_MTF_2 := 37
  const X_ENDHDR_2 := 42
  const X_ENDHDR_3 := 43
  const X_ENDHDR_4 := 44
  const X_ENDHDR_5 := 45
  const X_ENDHDR_6 := 46
  const X_CCRC_1 := 47
  const X_CCRC_4 := 50
  // After an error the model stays where it is.
  const X_BAD_MAGIC := 51
  const X_BAD_DATA := 52
  const X_RANDOMISED := 53

  function Least(a: nat, b: nat): nat {
    if a < b then a else b
  }

  /** A 32-bit word of which the bits `acc` have been shifted in. */
  ghost predicate Holds(w: Word, acc: Bits) {
    PartOfWord(acc) && w == Zeros(32 - |acc|) + acc
  }

  function ShiftIn(w: Word, uc: Byte): Word {
    w[8..] + ToBits(8, uc)
  }

  lemma ShiftInHolds(w: Word, acc: Bits, uc: Byte, bs: Bits)
    requires Holds(w, acc) && |acc| <= 24 && |bs| == 8 && uc == Val(bs)
    ensures |acc| < 24 ==> Holds(ShiftIn(w, uc), acc + bs)
    ensures |acc| == 24 ==> ShiftIn(w, uc) == acc + bs
  {
    hide ToBits, Val;
    ToBitsVal(bs);
    assert w[8..] == Zeros(24 - |acc|) + acc;
  }

  lemma BitValue(bs: Bits)
    requires |bs| == 1
    ensures Val(bs) == (if bs[0] then 1 else 0) && bs == [bs[0]]
  {
    assert bs[..0] == [];
  }

  lemma ByteJoins(acc: Bits, bs: Bits)
    requires |bs| == 8
    ensures Val(acc + bs) == Val(acc) * 256 + Val(bs)
  {
    ValConcat(acc, bs);
    EightTimes(Val(acc));
  }

  lemma EightTimes(a: nat)
    ensures Scale(a, 8) == a * 256
  {
    assert Scale(a, 1) == 2 * a && Scale(a, 2) == 4 * a && Scale(a, 3) == 8 * a && Scale(a, 4) == 16 * a;
    assert Scale(a, 5) == 32 * a && Scale(a, 6) == 64 * a && Scale(a, 7) == 128 * a;
  }

  lemma DecodeOne(order: seq<nat>, vals: seq<nat>, i: nat, done: seq<nat>)
    requires i < |vals| && forall k :: 0 <= k < |vals| ==> vals[k] < |order|
    ensures done + SelDecode(order, vals[i..]) == done + [order[vals[i]]] + SelDecode(MoveFront(order, vals[i]), vals[i + 1..])
  {
    hide MoveFront;
    assert vals[i..][1..] == vals[i + 1..];
  }

  lemma DecodeNone(order: seq<nat>, vals: seq<nat>)
    requires vals == []
    ensures SelDecode(order, vals) == []
  {
  }

  class Reader {
    const inUse16: array<bool>
    const inUse: array<bool>
    const seqToUnseq: array<Byte>
    const selectorMtf: array<nat>
    const selector: array<nat>
    const len: array2<nat>
    var state: nat
    var blockSize100k: nat
    var storedBlockCRC: Word
    var storedCombinedCRC: Word
    var origPtr: nat
    var nInUse: nat
    var alphaSize: nat
    var nGroups: nat
    var nSelectors: nat
    var i: nat
    var j: nat
    var t: nat
    var curr: nat
    var groupNo: int
    var groupPos: nat
    var zn: nat
    var zvec: nat

    /** The place. */
    ghost var ctl: Ctl

    ghost function Arrays(): set<object> {
      {inUse16 as object, inUse as object, seqToUnseq as object, selectorMtf as object, selector as object, len as object}
    }

    ghost predicate Shape() {
      && inUse16.Length == 16 && inUse.Length == 256 && seqToUnseq.Length == 256 && inUse16 != inUse
      && selectorMtf.Length == selector.Length == MAX_SELECTORS && selectorMtf != selector
      && len.Length0 == N_GROUPS && len.Length1 == MAX_ALPHA_SIZE
      && seqToUnseq as object != selector && seqToUnseq as object != selectorMtf
      && inUse as object != seqToUnseq && inUse16 as object != seqToUnseq
    }

    ghost predicate HeadIs(h: Head)
      reads this
    {
      blockSize100k == h.level && storedBlockCRC == h.crc && origPtr == h.orig
    }

    /** The bits of the map read so far; the rest is clear. */
    ghost predicate MapIs(used: seq<bool>)
      requires Shape()
      reads this, inUse
    {
      i < 16 && j < 16 && |used| == i * 16 + j && inUse[..|used|] == used && forall k :: |used| <= k < 256 ==> !inUse[k]
    }

    ghost predicate BytesKnown(used: seq<bool>)
      requires Shape()
      reads this, inUse, seqToUnseq
    {
      && inUse[..] == used && nInUse == Used(used, 256) && seqToUnseq[..nInUse] == UsedList(used, 256) && alphaSize == nInUse + 2
    }

    ghost predicate SelectorsRead(mtf: seq<nat>)
      requires Shape()
      reads this, selectorMtf
    {
      var n := Least(|mtf|, MAX_SELECTORS);
      i == |mtf| && selectorMtf[..n] == mtf[..n]
    }

    ghost predicate LensAre(lens: seq<seq<nat>>)
      requires Shape()
      reads this, len
    {
      |lens| <= N_GROUPS && forall a :: 0 <= a < |lens| ==> RowIs(a, lens[a]) && |lens[a]| == alphaSize
    }

    ghost predicate RowIs(a: nat, l: seq<nat>)
      requires Shape() && a < N_GROUPS
      reads len
    {
      |l| <= MAX_ALPHA_SIZE && forall b :: 0 <= b < |l| ==> len[a, b] == l[b]
    }

    ghost predicate SelectorsKnown(sel: seq<nat>)
      requires Shape()
      reads this, selector
    {
      nSelectors == |sel| <= MAX_SELECTORS && selector[..nSelectors] == sel
    }

    ghost predicate InTable(used: seq<bool>, n: nat, sel: seq<nat>, lens: seq<seq<nat>>)
      requires Shape()
      reads this, Arrays()
    {
      BytesKnown(used) && nGroups == n && SelectorsKnown(sel) && t == |lens| < N_GROUPS && LensAre(lens)
    }

    ghost predicate InSymbols(tb: Tables, no: nat, pos: nat)
      requires Shape()
      reads this, Arrays()
    {
      && BytesKnown(tb.used) && nGroups == |tb.lens| && SelectorsKnown(tb.sel) && LensAre(tb.lens)
      && groupNo == no && groupPos == pos
    }

    /** The fields stand for the place `c`. */
    ghost predicate Shows(c: Ctl)
      requires Shape()
      reads this, Arrays()
    {
      match c
      case Magic(k) => state == X_MAGIC_1 + k
      case BlkHdr(level, k) => state == X_BLKHDR_1 + k && blockSize100k == level
      case BCrc(level, acc) => Holds(storedBlockCRC, acc) && state == X_BCRC_1 + |acc| / 8 && blockSize100k == level
      case RandBit(level, crc) => state == X_RANDBIT && blockSize100k == level && storedBlockCRC == crc
      case OrigPtr(level, crc, acc) =>
        state == X_ORIGPTR_1 + |acc| / 8 && blockSize100k == level && storedBlockCRC == crc && origPtr == Val(acc)
      case Mapping1(h, u) => state == X_MAPPING_1 && HeadIs(h) && i == |u| <= 16 && inUse16[..i] == u
      case Mapping2(h, u, used) => state == X_MAPPING_2 && HeadIs(h) && inUse16[..] == u && MapIs(used)
      case Selector1(h, used) => state == X_SELECTOR_1 && HeadIs(h) && BytesKnown(used)
      case Selector2(h, used, n) => state == X_SELECTOR_2 && HeadIs(h) && BytesKnown(used) && nGroups == n
      case Selector3(h, used, n, nSel, mtf, k) =>
        state == X_SELECTOR_3 && HeadIs(h) && BytesKnown(used) && nGroups == n && nSelectors == nSel && SelectorsRead(mtf) && j == k
      case Coding1(h, used, n, sel, lens) => state == X_CODING_1 && HeadIs(h) && InTable(used, n, sel, lens)
      case Coding2(h, used, n, sel, lens, l, cur) =>
        state == X_CODING_2 && HeadIs(h) && InTable(used, n, sel, lens) && i == |l| && RowIs(t, l) && curr == cur
      case Coding3(h, used, n, sel, lens, l, cur) =>
        state == X_CODING_3 && HeadIs(h) && InTable(used, n, sel, lens) && i == |l| && RowIs(t, l) && curr == cur
      case Mtf1(h, tb, no, pos) => state == X_MTF_1 && HeadIs(h) && InSymbols(tb, no, pos)
      case Mtf2(h, tb, no, pos, z) => state == X_MTF_2 && HeadIs(h) && InSymbols(tb, no, pos) && zn == |z| && zvec == Val(z)
      case EndHdr(level, k) => 1 <= k && state == X_ENDHDR_2 + k - 1 && blockSize100k == level
      case CCrc(level, acc) => Holds(storedCombinedCRC, acc) && state == X_CCRC_1 + |acc| / 8 && blockSize100k == level
      case End(stored) => state == X_IDLE && storedCombinedCRC == stored
      case Output(h, column) => state == X_OUTPUT && HeadIs(h)
      case Randomised => state == X_RANDOMISED
      case Failed(error) => state == if error == BadMagic then X_BAD_MAGIC else X_BAD_DATA
    }

    ghost predicate Valid()
      reads this, Arrays()
    {
      Shape() && Shows(ctl)
    }

    constructor ()
      ensures Valid() && ctl == Magic(0) && fresh(this) && fresh(Arrays())
    {
      inUse16, inUse, seqToUnseq := new bool[16], new bool[256], new Byte[256];
      selectorMtf, selector, len := new nat[MAX_SELECTORS], new nat[MAX_SELECTORS], new nat[N_GROUPS, MAX_ALPHA_SIZE];
      state, blockSize100k, storedBlockCRC, storedCombinedCRC, origPtr := X_MAGIC_1, 0, Zeros(32), Zeros(32), 0;
      nInUse, alphaSize, nGroups, nSelectors, i, j, t, curr := 0, 0, 0, 0, 0, 0, 0, 0;
      groupNo, groupPos, zn, zvec := 0, 0, 0, 0;
      ctl := Magic(0);
    }

    method Fail()
      requires Shape()
      modifies this`state, this`ctl
      ensures Valid() && ctl == Failed(BadData)
    {
      state, ctl := X_BAD_DATA, Failed(BadData);
    }

    // ----- Bytes.

    method MagicTurn(uc: Byte)
      requires Valid() && CtlOk(ctl) && ctl.Magic?
      modifies this`state, this`blockSize100k, this`ctl
      ensures Valid() && ctl == HandleMagic(old(ctl.k), uc)
    {
      ctl := HandleMagic(ctl.k, uc);
      if state == X_MAGIC_1 {
        state := if uc != 0x42 then X_BAD_MAGIC else X_MAGIC_2;
      } else if state == X_MAGIC_2 {
        state := if uc != 0x5a then X_BAD_MAGIC else X_MAGIC_3;
      } else if state == X_MAGIC_3 {
        state := if uc != 0x68 then X_BAD_MAGIC else X_MAGIC_4;
      } else {
        blockSize100k := uc;
        if blockSize100k < 0x30 + 1 || blockSize100k > 0x30 + 9 {
          state := X_BAD_MAGIC;
        } else {
          blockSize100k := blockSize100k - 0x30;
          state := X_BLKHDR_1;
        }
      }
    }

    method BlkHdrTurn(uc: Byte)
      requires Valid() && CtlOk(ctl) && ctl.BlkHdr?
      modifies this`state, this`storedBlockCRC, this`ctl
      ensures Valid() && ctl == HandleBlkHdr(old(ctl.level), old(ctl.k), uc)
    {
      ctl := HandleBlkHdr(ctl.level, ctl.k, uc);
      if state == X_BLKHDR_1 {
        state := if uc == 0x17 then X_ENDHDR_2 else if uc != 0x31 then X_BAD_DATA else X_BLKHDR_2;
      } else if state == X_BLKHDR_2 {
        state := if uc != 0x41 then X_BAD_DATA else X_BLKHDR_3;
      } else if state == X_BLKHDR_3 {
        state := if uc != 0x59 then X_BAD_DATA else X_BLKHDR_4;
      } else if state == X_BLKHDR_4 {
        state := if uc != 0x26 then X_BAD_DATA else X_BLKHDR_5;
      } else if state == X_BLKHDR_5 {
        state := if uc != 0x53 then X_BAD_DATA else X_BLKHDR_6;
      } else if uc != 0x59 {
        state := X_BAD_DATA;
      } else {
        storedBlockCRC := Zeros(32);
        state := X_BCRC_1;
      }
    }

    method BCrcTurn(uc: Byte, ghost bs: Bits)
      requires Valid() && CtlOk(ctl) && ctl.BCrc? && |bs| == 8 && uc == Val(bs)
      modifies this`state, this`storedBlockCRC, this`ctl
      ensures Valid() && ctl == HandleCtl(old(ctl), bs)
    {
      hide Val;
      ShiftInHolds(storedBlockCRC, ctl.acc, uc, bs);
      ctl := HandleCtl(ctl, bs);
      storedBlockCRC := ShiftIn(storedBlockCRC, uc);
      state := state + 1;
    }

    method OrigPtrTurn(uc: Byte, ghost bs: Bits)
      requires Valid() && CtlOk(ctl) && ctl.OrigPtr? && |bs| == 8 && uc == Val(bs)
      modifies this`state, this`origPtr, this`i, this`ctl
      ensures Valid() && ctl == HandleCtl(old(ctl), bs)
    {
      hide Val;
      ByteJoins(ctl.acc, bs);
      ctl := HandleCtl(ctl, bs);
      origPtr := origPtr * 256 + uc;
      if state < X_ORIGPTR_3 {
        state := state + 1;
      } else if origPtr > 10 + 100_000 * blockSize100k {
        state := X_BAD_DATA;
      } else {
        i := 0;
        state := X_MAPPING_1;
        assert inUse16[..0] == [];
      }
    }

    method EndHdrTurn(uc: Byte, ghost bs: Bits)
      requires Valid() && CtlOk(ctl) && ctl.EndHdr? && |bs| == 8 && uc == Val(bs)
      modifies this`state, this`storedCombinedCRC, this`ctl
      ensures Valid() && ctl == HandleCtl(old(ctl), bs)
    {
      hide Val;
      ctl := HandleCtl(ctl, bs);
      if state == X_ENDHDR_2 {
        state := if uc != 0x72 then X_BAD_DATA else X_ENDHDR_3;
      } else if state == X_ENDHDR_3 {
        state := if uc != 0x45 then X_BAD_DATA else X_ENDHDR_4;
      } else if state == X_ENDHDR_4 {
        state := if uc != 0x38 then X_BAD_DATA else X_ENDHDR_5;
      } else if state == X_ENDHDR_5 {
        state := if uc != 0x50 then X_BAD_DATA else X_ENDHDR_6;
      } else if uc != 0x90 {
        state := X_BAD_DATA;
      } else {
        storedCombinedCRC := Zeros(32);
        state := X_CCRC_1;
      }
    }

    method CCrcTurn(uc: Byte, ghost bs: Bits)
      requires Valid() && CtlOk(ctl) && ctl.CCrc? && |bs| == 8 && uc == Val(bs)
      modifies this`state, this`storedCombinedCRC, this`ctl
      ensures Valid() && ctl == HandleCtl(old(ctl), bs)
    {
      hide Val;
      ShiftInHolds(storedCombinedCRC, ctl.acc, uc, bs);
      ctl := HandleCtl(ctl, bs);
      storedCombinedCRC := ShiftIn(storedCombinedCRC, uc);
      state := if state == X_CCRC_4 then X_IDLE else state + 1;
    }

    method RandTurn(bit: nat, ghost bs: Bits)
      requires Valid() && CtlOk(ctl) && ctl.RandBit? && |bs| == 1 && bit == Val(bs)
      modifies this`state, this`origPtr, this`ctl
      ensures Valid() && ctl == HandleCtl(old(ctl), bs)
    {
      BitValue(bs);
      ctl := HandleCtl(ctl, bs);
      if bit == 1 {
        state := X_RANDOMISED;
      } else {
        origPtr := 0;
        state := X_ORIGPTR_1;
      }
    }

    // ----- The map of bytes in use.

    method Mapping1Turn(bit: nat, ghost bs: Bits)
      requires Valid() && CtlOk(ctl) && ctl.Mapping1? && |bs| == 1 && bit == Val(bs)
      modifies this`state, this`i, this`j, this`nInUse, this`alphaSize, this`ctl, inUse16, inUse, seqToUnseq
      ensures Valid() && ctl == HandleCtl(old(ctl), bs)
    {
      hide Used;
      BitValue(bs);
      ghost var h, u := ctl.h, ctl.used16;
      ctl := HandleCtl(ctl, bs);
      inUse16[i] := bit == 1;
      i := i + 1;
      assert inUse16[..i] == u + bs;
      if i == 16 {
        ClearMap();
        i := 0;
        assert inUse[..0] == [];
        SkipRows(h, u + bs, []);
      }
    }

    method ClearMap()
      requires Shape()
      modifies inUse
      ensures forall k :: 0 <= k < 256 ==> !inUse[k]
    {
      var k := 0;
      while k < 256
        invariant 0 <= k <= 256 && forall l :: 0 <= l < k ==> !inUse[l]
      {
        inUse[k] := false;
        k := k + 1;
      }
    }

    /** The outer loop up to the next row that is in use. */
    method SkipRows(ghost h: Head, ghost u: seq<bool>, ghost used: seq<bool>)
      requires Shape() && HeadIs(h) && HeadOk(h) && |u| == 16 && inUse16[..] == u
      requires i <= 16 && |used| == i * 16 && inUse[..|used|] == used && forall k :: |used| <= k < 256 ==> !inUse[k]
      requires ctl == MappingNext(h, u, used)
      modifies this`state, this`i, this`j, this`nInUse, this`alphaSize, this`ctl, seqToUnseq
      ensures Valid() && ctl == old(ctl)
    {
      hide Used;
      ghost var v := used;
      while i < 16 && !inUse16[i]
        invariant i <= 16 && |v| == i * 16 && inUse[..|v|] == v && HeadIs(h) && ctl == old(ctl) == MappingNext(h, u, v)
        invariant forall k :: |v| <= k < 256 ==> !inUse[k]
        decreases 16 - i
      {
        assert !u[i] && |v| / 16 == i && |v| % 16 == 0;
        i := i + 1;
        assert inUse[..|v| + 16] == v + Zeros(16);
        v := v + Zeros(16);
      }
      if i < 16 {
        j := 0;
        state := X_MAPPING_2;
        assert u[i] && |v| / 16 == i;
      } else {
        assert inUse[..256] == inUse[..];
        MapDone(h, v);
      }
    }

    method MapDone(ghost h: Head, ghost used: seq<bool>)
      requires Shape() && HeadIs(h) && |used| == 256 && inUse[..] == used
      requires ctl == if Used(used, 256) == 0 then Failed(BadData) else Selector1(h, used)
      modifies this`state, this`nInUse, this`alphaSize, seqToUnseq
      ensures Valid() && ctl == old(ctl)
    {
      nInUse := MakeMapsD(inUse, seqToUnseq);
      if nInUse == 0 {
        state := X_BAD_DATA;
        return;
      }
      alphaSize := nInUse + 2;
      state := X_SELECTOR_1;
    }

    method Mapping2Turn(bit: nat, ghost bs: Bits)
      requires Valid() && CtlOk(ctl) && ctl.Mapping2? && |bs| == 1 && bit == Val(bs)
      modifies this`state, this`i, this`j, this`nInUse, this`alphaSize, this`ctl, inUse, seqToUnseq
      ensures Valid() && ctl == HandleCtl(old(ctl), bs)
    {
      hide Used;
      BitValue(bs);
      ghost var h, u, used := ctl.h, ctl.used16, ctl.used;
      ctl := HandleCtl(ctl, bs);
      if bit == 1 {
        inUse[i * 16 + j] := true;
      }
      assert inUse[..|used| + 1] == used + bs;
      j := j + 1;
      if j == 16 {
        i := i + 1;
        SkipRows(h, u, used + bs);
      }
    }

    // ----- The selectors.

    method Selector1Turn(v: nat, ghost bs: Bits)
      requires Valid() && CtlOk(ctl) && ctl.Selector1? && |bs| == 3 && v == Val(bs)
      modifies this`state, this`nGroups, this`ctl
      ensures Valid() && ctl == HandleCtl(old(ctl), bs)
    {
      hide Val, Used;
      ctl := HandleCtl(ctl, bs);
      nGroups := v;
      state := if nGroups < 2 || nGroups > N_GROUPS then X_BAD_DATA else X_SELECTOR_2;
    }

    method Selector2Turn(v: nat, ghost bs: Bits)
      requires Valid() && CtlOk(ctl) && ctl.Selector2? && |bs| == 15 && v == Val(bs)
      modifies this`state, this`nSelectors, this`i, this`j, this`ctl
      ensures Valid() && ctl == HandleCtl(old(ctl), bs)
    {
      hide Val, Used;
      ctl := HandleCtl(ctl, bs);
      nSelectors := v;
      if nSelectors < 1 {
        state := X_BAD_DATA;
      } else {
        i, j := 0, 0;
        state := X_SELECTOR_3;
        assert selectorMtf[..0] == [];
      }
    }

    method Selector3Turn(bit: nat, ghost bs: Bits)
      requires Valid() && CtlOk(ctl) && ctl.Selector3? && |bs| == 1 && bit == Val(bs)
      modifies this`state, this`nSelectors, this`i, this`j, this`t, this`ctl, selectorMtf, selector
      ensures Valid() && ctl == HandleCtl(old(ctl), bs)
    {
      hide Used, UsedList, SelDecode, Groups, Val;
      BitValue(bs);
      ghost var c := ctl;
      ctl := HandleCtl(ctl, bs);
      if bit != 0 {
        j := j + 1;
        if j >= nGroups {
          state := X_BAD_DATA;
        }
        return;
      }
      StoreSelector(c.mtf);
      if i < nSelectors {
        j := 0;
      } else {
        EndSelectors(c.h, c.used, c.mtf + [c.j]);
      }
    }

    method EndSelectors(ghost h: Head, ghost used: seq<bool>, ghost mtf: seq<nat>)
      requires Shape() && HeadIs(h) && BytesKnown(used)
      requires SelectorsRead(mtf) && nSelectors == |mtf| && nGroups <= N_GROUPS && MtfOk(mtf, nGroups)
      requires ctl == Coding1(h, used, nGroups, SelDecode(Groups(nGroups), if |mtf| > MAX_SELECTORS then mtf[..MAX_SELECTORS] else mtf), [])
      modifies this`state, this`nSelectors, this`t, selector
      ensures Valid() && ctl == old(ctl)
    {
      hide Used, UsedList, SelDecode, Groups;
      UndoSelectors(mtf);
      t := 0;
      state := X_CODING_1;
    }

    /** Selectors beyond the most that can be used are not stored. */
    method StoreSelector(ghost mtf: seq<nat>)
      requires Shape() && SelectorsRead(mtf)
      modifies this`i, selectorMtf
      ensures SelectorsRead(mtf + [j])
    {
      ghost var n := Least(|mtf|, MAX_SELECTORS);
      if i < MAX_SELECTORS {
        selectorMtf[i] := j;
        assert selectorMtf[..n + 1] == selectorMtf[..n] + [j];
        assert (mtf + [j])[..n + 1] == mtf[..n] + [j];
      } else {
        assert (mtf + [j])[..n] == mtf[..n];
      }
      i := i + 1;
    }

    /** Undoes the move-to-front coding of the selectors. */
    method UndoSelectors(ghost mtf: seq<nat>)
      requires Shape() && SelectorsRead(mtf) && nSelectors == |mtf| && nGroups <= N_GROUPS && MtfOk(mtf, nGroups)
      modifies this`nSelectors, selector
      ensures SelectorsKnown(SelDecode(Groups(nGroups), if |mtf| > MAX_SELECTORS then mtf[..MAX_SELECTORS] else mtf))
    {
      hide SelDecode;
      if nSelectors > MAX_SELECTORS {
        nSelectors := MAX_SELECTORS;
      }
      ghost var vals := mtf[..nSelectors];
      assert |mtf| <= MAX_SELECTORS ==> vals == mtf;
      UndoValues(selectorMtf, selector, nSelectors, nGroups, vals);
    }

    static method UndoValues(selectorMtf: array<nat>, selector: array<nat>, nSelectors: nat, nGroups: nat, ghost vals: seq<nat>)
      requires selectorMtf != selector && nSelectors <= selectorMtf.Length && nSelectors <= selector.Length && nGroups <= N_GROUPS
      requires selectorMtf[..nSelectors] == vals && forall k :: 0 <= k < |vals| ==> vals[k] < nGroups
      modifies selector
      ensures selector[..nSelectors] == SelDecode(Groups(nGroups), vals)
    {
      hide SelDecode, MoveFront;
      var pos := new nat[N_GROUPS];
      InOrder(pos, nGroups);
      ghost var order := Groups(nGroups);
      var i := 0;
      while i < nSelectors
        modifies selector, pos
        invariant 0 <= i <= nSelectors && |order| == nGroups && pos[..nGroups] == order && selectorMtf[..nSelectors] == vals
        invariant SelDecode(Groups(nGroups), vals) == selector[..i] + SelDecode(order, vals[i..])
      {
        assert vals[i] == selectorMtf[i];
        DecodeOne(order, vals, i, selector[..i]);
        ghost var before := selector[..i];
        var tmp := ToFront(pos, selectorMtf[i], nGroups, order);
        selector[i] := tmp;
        assert selector[..i + 1] == before + [tmp];
        order := MoveFront(order, vals[i]);
        i := i + 1;
      }
      DecodeNone(order, vals[i..]);
    }

    static method InOrder(pos: array<nat>, n: nat)
      requires n <= pos.Length
      modifies pos
      ensures pos[..n] == Groups(n)
    {
      var v := 0;
      while v < n
        invariant 0 <= v <= n && forall k :: 0 <= k < v ==> pos[k] == k
      {
        pos[v] := v;
        v := v + 1;
      }
    }

    /** Takes the entry at `v0` to the front, shifting those before it up one at a time. */
    static method ToFront(pos: array<nat>, v0: nat, n: nat, ghost order: seq<nat>) returns (tmp: nat)
      requires v0 < n <= pos.Length && pos[..n] == order
      modifies pos
      ensures tmp == order[v0] && pos[..n] == MoveFront(order, v0)
    {
      assert forall k :: 0 <= k < n ==> pos[k] == order[k];
      tmp := pos[v0];
      var v := v0;
      while v > 0
        invariant 0 <= v <= v0
        invariant forall k :: 0 <= k <= v ==> pos[k] == order[k]
        invariant forall k :: v < k <= v0 ==> pos[k] == order[k - 1]
        invariant forall k :: v0 < k < n ==> pos[k] == order[k]
      {
        pos[v] := pos[v - 1];
        v := v - 1;
      }
      pos[0] := tmp;
    }

    // ----- The code lengths.

    method Coding1Turn(v: nat, ghost bs: Bits)
      requires Valid() && CtlOk(ctl) && ctl.Coding1? && |bs| == 5 && v == Val(bs)
      modifies this`state, this`i, this`t, this`curr, this`groupNo, this`groupPos, this`ctl
      ensures Valid() && ctl == HandleCtl(old(ctl), bs)
    {
      hide Val, Used, UsedList;
      ghost var c := ctl;
      ctl := HandleCtl(ctl, bs);
      curr := v;
      i := 0;
      NextLength(c.h, c.used, c.nGroups, c.sel, c.lens, []);
    }

    method Coding2Turn(bit: nat, ghost bs: Bits)
      requires Valid() && CtlOk(ctl) && ctl.Coding2? && |bs| == 1 && bit == Val(bs)
      modifies this`state, this`i, this`t, this`curr, this`groupNo, this`groupPos, this`ctl, len
      ensures Valid() && ctl == HandleCtl(old(ctl), bs)
    {
      hide Used, UsedList;
      BitValue(bs);
      ghost var c := ctl;
      ctl := HandleCtl(ctl, bs);
      if bit == 0 {
        StoreLength(c.lens, c.len);
        NextLength(c.h, c.used, c.nGroups, c.sel, c.lens, c.len + [c.curr]);
      } else {
        state := X_CODING_3;
      }
    }

    method StoreLength(ghost lens: seq<seq<nat>>, ghost l: seq<nat>)
      requires Shape() && t == |lens| < N_GROUPS && LensAre(lens) && RowIs(t, l) && i == |l| < MAX_ALPHA_SIZE
      modifies this`i, len
      ensures LensAre(lens) && RowIs(t, l + [curr]) && i == |l| + 1
    {
      len[t, i] := curr;
      i := i + 1;
    }

    method Coding3Turn(bit: nat, ghost bs: Bits)
      requires Valid() && CtlOk(ctl) && ctl.Coding3? && |bs| == 1 && bit == Val(bs)
      modifies this`state, this`i, this`t, this`curr, this`groupNo, this`groupPos, this`ctl
      ensures Valid() && ctl == HandleCtl(old(ctl), bs)
    {
      hide Used, UsedList;
      BitValue(bs);
      ghost var c := ctl;
      ctl := HandleCtl(ctl, bs);
      if bit == 0 {
        curr := curr + 1;
      } else {
        curr := curr - 1;
      }
      NextLength(c.h, c.used, c.nGroups, c.sel, c.lens, c.len);
    }

    /** Goes on with the current length, the next table, or the symbols. */
    method NextLength(ghost h: Head, ghost used: seq<bool>, ghost n: nat, ghost sel: seq<nat>, ghost lens: seq<seq<nat>>, ghost l: seq<nat>)
      requires Shape() && HeadIs(h) && |used| == 256 && InTable(used, n, sel, lens) && |lens| < n <= N_GROUPS
      requires i == |l| <= alphaSize && RowIs(t, l)
      requires ctl == CodingNext(h, used, n, sel, lens, l, curr)
      modifies this`state, this`i, this`t, this`curr, this`groupNo, this`groupPos, this`ctl
      ensures Valid() && ctl == old(ctl)
    {
      hide Used, UsedList;
      if i < alphaSize {
        state := if curr < 1 || curr > LONGEST_CODE then X_BAD_DATA else X_CODING_2;
        return;
      }
      t := t + 1;
      if t < nGroups {
        state := X_CODING_1;
      } else {
        groupNo, groupPos := -1, 0;
        NextSymbol(h, Tables(used, sel, lens + [l]), -1, 0);
      }
    }

    /** The start of reading a symbol: every fifty symbols the next selector is taken. */
    method NextSymbol(ghost h: Head, ghost tb: Tables, ghost no: int, ghost pos: nat)
      requires Shape() && HeadIs(h) && BytesKnown(tb.used) && nGroups == |tb.lens| && SelectorsKnown(tb.sel) && LensAre(tb.lens)
      requires groupNo == no >= -1 && groupPos == pos && (pos > 0 ==> no >= 0)
      modifies this`state, this`groupNo, this`groupPos, this`ctl
      ensures Valid() && ctl == GetMtf(h, tb, no, pos)
    {
      hide Used, UsedList;
      ctl := GetMtf(h, tb, no, pos);
      if groupPos == 0 {
        groupNo := groupNo + 1;
        if groupNo >= nSelectors {
          state := X_BAD_DATA;
          return;
        }
        groupPos := G_SIZE;
      }
      groupPos := groupPos - 1;
      state := X_MTF_1;
    }

    /** The next symbol, once one is done with. */
    method NextIn()
      requires Valid() && CtlOk(ctl) && (ctl.Mtf1? || ctl.Mtf2?)
      modifies this`state, this`groupNo, this`groupPos, this`ctl
      ensures Valid() && ctl == GetMtf(old(ctl.h), old(ctl.tb), old(ctl.groupNo), old(ctl.groupPos))
    {
      NextSymbol(ctl.h, ctl.tb, ctl.groupNo, ctl.groupPos);
    }

    /** The bits of a symbol so far do not suffice. */
    method WaitForMore(n: nat, v: nat, ghost z: Bits)
      requires Valid() && (ctl.Mtf1? || ctl.Mtf2?) && n == |z| && v == Val(z)
      modifies this`state, this`zn, this`zvec, this`ctl
      ensures Valid() && ctl == Mtf2(old(ctl.h), old(ctl.tb), old(ctl.groupNo), old(ctl.groupPos), z)
    {
      hide Used, UsedList, Val;
      ctl := Mtf2(ctl.h, ctl.tb, ctl.groupNo, ctl.groupPos, z);
      state, zn, zvec := X_MTF_2, n, v;
    }

    method ToOutput(ghost column: seq<Byte>)
      requires Valid() && (ctl.Mtf1? || ctl.Mtf2?)
      modifies this`state, this`ctl
      ensures Valid() && ctl == Output(old(ctl.h), column)
    {
      state, ctl := X_OUTPUT, Output(ctl.h, column);
    }

    method ToNextBlock()
      requires Valid() && ctl.Output?
      modifies this`state, this`ctl
      ensures Valid() && ctl == BlkHdr(old(ctl.h.level), 0)
    {
      state, ctl := X_BLKHDR_1, BlkHdr(ctl.h.level, 0);
    }

    // ----- Any turn.

    /** The label says which place it is. */
    lemma Labels()
      requires Valid() && CtlOk(ctl)
      ensures ctl.Magic? <==> X_MAGIC_1 <= state <= X_MAGIC_4
      ensures ctl.BlkHdr? <==> X_BLKHDR_1 <= state <= X_BLKHDR_6
      ensures ctl.BCrc? <==> X_BCRC_1 <= state <= X_BCRC_4
      ensures ctl.RandBit? <==> state == X_RANDBIT
      ensures ctl.OrigPtr? <==> X_ORIGPTR_1 <= state <= X_ORIGPTR_3
      ensures ctl.Mapping1? <==> state == X_MAPPING_1
      ensures ctl.Mapping2? <==> state == X_MAPPING_2
      ensures ctl.Selector1? <==> state == X_SELECTOR_1
      ensures ctl.Selector2? <==> state == X_SELECTOR_2
      ensures ctl.Selector3? <==> state == X_SELECTOR_3
      ensures ctl.Coding1? <==> state == X_CODING_1
      ensures ctl.Coding2? <==> state == X_CODING_2
      ensures ctl.Coding3? <==> state == X_CODING_3
      ensures ctl.Mtf1? <==> state == X_MTF_1
      ensures ctl.Mtf2? <==> state == X_MTF_2
      ensures ctl.EndHdr? <==> X_ENDHDR_2 <= state <= X_ENDHDR_6
      ensures ctl.CCrc? <==> X_CCRC_1 <= state <= X_CCRC_4
      ensures ctl.End? <==> state == X_IDLE
      ensures ctl.Output? <==> state == X_OUTPUT
      ensures ctl.Randomised? <==> state == X_RANDOMISED
      ensures ctl.Failed? <==> state == X_BAD_MAGIC || state == X_BAD_DATA
      ensures ctl == Failed(BadMagic) <==> state == X_BAD_MAGIC
      ensures ctl == Failed(BadData) <==> state == X_BAD_DATA
    {
      hide Used, UsedList, Val, LensOk, SelOk;
    }

    lemma OneByte(bs: Bits)
      ensures |bs| == 8 ==> Val(bs) < 256
    {
      ValBound(bs);
      Powers();
    }

    /** How many bits are asked for, except at the start of a symbol. */
    function Asks(): (n: nat)
      requires Valid() && CtlOk(ctl) && !Stopped(ctl) && !ctl.Mtf1?
      reads this, Arrays()
      ensures n == Need(ctl)
    {
      Labels();
      if state == X_RANDBIT || state == X_MAPPING_1 || state == X_MAPPING_2 || state == X_SELECTOR_3 then 1
      else if state == X_CODING_2 || state == X_CODING_3 || state == X_MTF_2 then 1
      else if state == X_SELECTOR_1 then 3
      else if state == X_SELECTOR_2 then 15
      else if state == X_CODING_1 then 5
      else 8
    }

    /** What follows a request for bits, outside the symbols. */
    method Turn(v: nat, ghost bs: Bits)
      requires Valid() && CtlOk(ctl) && !Stopped(ctl) && !ctl.Mtf1? && !ctl.Mtf2? && |bs| == Need(ctl) && v == Val(bs)
      modifies this, inUse16, inUse, seqToUnseq, selectorMtf, selector, len
      ensures Valid() && ctl == HandleCtl(old(ctl), bs)
    {
      hide Shows, Val, HandleMagic, HandleBlkHdr, HandleOrigPtr, HandleSelector3, MappingNext, CodingNext;
      Labels();
      OneByte(bs);
      if state >= X_CODING_1 {
        LateTurn(v, bs);
      } else if state >= X_RANDBIT {
        MiddleTurn(v, bs);
      } else if state <= X_MAGIC_4 {
        MagicTurn(v);
      } else if state <= X_BLKHDR_6 {
        BlkHdrTurn(v);
      } else {
        BCrcTurn(v, bs);
      }
    }

    method MiddleTurn(v: nat, ghost bs: Bits)
      requires Valid() && CtlOk(ctl) && X_RANDBIT <= state <= X_SELECTOR_3 && !Stopped(ctl) && |bs| == Need(ctl) && v == Val(bs)
      modifies this, inUse16, inUse, seqToUnseq, selectorMtf, selector
      ensures Valid() && !old(ctl).Mtf1? && !old(ctl).Mtf2? && ctl == HandleCtl(old(ctl), bs)
    {
      hide Shows, Val, HandleCtl;
      Labels();
      OneByte(bs);
      if state == X_RANDBIT {
        RandTurn(v, bs);
      } else if state <= X_ORIGPTR_3 {
        OrigPtrTurn(v, bs);
      } else if state == X_MAPPING_1 {
        Mapping1Turn(v, bs);
      } else if state == X_MAPPING_2 {
        Mapping2Turn(v, bs);
      } else if state == X_SELECTOR_1 {
        Selector1Turn(v, bs);
      } else if state == X_SELECTOR_2 {
        Selector2Turn(v, bs);
      } else {
        Selector3Turn(v, bs);
      }
    }

    method LateTurn(v: nat, ghost bs: Bits)
      requires Valid() && CtlOk(ctl) && !Stopped(ctl) && !ctl.Mtf1? && !ctl.Mtf2? && state >= X_CODING_1 &&
               |bs| == Need(ctl) && v == Val(bs)
      modifies this, len
      ensures Valid() && ctl == HandleCtl(old(ctl), bs)
    {
      hide Shows, Val, HandleCtl;
      Labels();
      OneByte(bs);
      if state == X_CODING_1 {
        Coding1Turn(v, bs);
      } else if state == X_CODING_2 {
        Coding2Turn(v, bs);
      } else if state == X_CODING_3 {
        Coding3Turn(v, bs);
      } else if state <= X_ENDHDR_6 {
        EndHdrTurn(v, bs);
      } else {
        CCrcTurn(v, bs);
      }
    }
  }
}
