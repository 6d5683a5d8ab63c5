/** The parser gives up as soon as it can: every text that no block begins with leads it, at its last bit, to the error. */
module FormatRejected {
  import opened Bits
  import opened BlockParser
  import opened BlockPrinter
  import opened Crc
  import opened Format
  import opened FormatCodes
  import opened FormatLeads
  import opened FormatSeen
  import opened HuffmanCodes
  import opened MoveToFront
  import opened MtfEncoder
  import opened Rotations

  /** The text leads to the error. */
  ghost predicate Fails(level: nat, t: Bits, dec: Decoder) {
    exists y: Conf :: y.ctl == Failed(BadData) && Leads(Conf(BlkHdr(level, 0), dec), t, y)
  }

  lemma FailsBy(level: nat, t: Bits, dec: Decoder, x: Conf, bs: Bits, t': Bits)
    requires Leads(Conf(BlkHdr(level, 0), dec), t, x) && Ok(x) && !Stopped(x.ctl) && |bs| == Need(x.ctl)
    requires Handle(x, bs).ctl == Failed(BadData) && t' == t + bs
    ensures Fails(level, t', dec)
  {
    hide Leads, Handle;
    ThenBits(Conf(BlkHdr(level, 0), dec), t, x, bs, Handle(x, bs));
  }

  // ----- The head.

  lemma BadByteFails(t: Bits, level: nat, dec: Decoder)
    requires BadByte(t) && 1 <= level <= 9 && |dec.yy| == 256
    ensures Fails(level, t, dec)
  {
    hide ToBits, Val, Leads, Fails, BlockMagicPart, EndMagicPart, BlockByte, EndByte;
    if k: nat, v: nat :| k < 6 && v < 256 && v != BlockByte(k) && !(k == 0 && v == EndByte(0)) && t == BlockMagicPart(k) + ByteBits(v) {
      BlockMagicPartLeads(level, k, dec);
      ByteVal(v);
      FailsBy(level, BlockMagicPart(k), dec, Conf(BlkHdr(level, k), dec), ByteBits(v), t);
    } else {
      var k: nat, v: nat :| 1 <= k < 6 && v < 256 && v != EndByte(k) && t == EndMagicPart(k) + ByteBits(v);
      EndMagicPartLeads(level, k, dec);
      ByteVal(v);
      FailsBy(level, EndMagicPart(k), dec, Conf(EndHdr(level, k), dec), ByteBits(v), t);
    }
  }

  lemma BadOrigFails(t: Bits, level: nat, dec: Decoder)
    requires BadOrig(t, level) && 1 <= level <= 9 && |dec.yy| == 256
    ensures Fails(level, t, dec)
  {
    hide ToBits, Val, Leads, BlockMagic;
    var crc: Word, v: nat :| 10 + 100_000 * level < v < 0x100_0000 && t == BlockMagic() + crc + [false] + ToBits(24, v);
    var x0, x1 := Conf(BlkHdr(level, 0), dec), Conf(BCrc(level, []), dec);
    var x2, x3 := Conf(RandBit(level, crc), dec), Conf(OrigPtr(level, crc, []), dec);
    BlockMagicLeads(level, dec);
    BlockCrcLeads(level, crc, dec);
    OrigPtrLeads(level, crc, v, dec);
    LeadsThen(x0, BlockMagic(), x1, crc, x2);
    ThenBits(x0, BlockMagic() + crc, x2, [false], x3);
    LeadsThen(x0, BlockMagic() + crc + [false], x3, ToBits(24, v), Conf(HandleOrigPtr(level, crc, ToBits(24, v)), dec));
  }

  // ----- The map, and the numbers of tables and selectors.

  lemma BadMapFails(t: Bits, h: Head, dec: Decoder)
    requires BadMap(t, h) && HeadOk(h) && HeadFits(h, h.level) && |dec.yy| == 256
    ensures Fails(h.level, t, dec)
  {
    hide Leads, HeadText, RowsOf, Used;
    var rows, used :| |used| == 256 && Used(used, 256) == 0 && MapSeen(t, h, rows, used);
    var x0, x1, x2 := Conf(BlkHdr(h.level, 0), dec), Conf(Mapping1(h, []), dec), Conf(MappingNext(h, rows, []), dec);
    BlockHeadLeads(h, dec);
    AllMarksLead(h, rows, dec);
    RowsLead(h, rows, used, 256, dec);
    assert used[..256] == used;
    LeadsThen(x0, HeadText(h), x1, rows, x2);
    LeadsThen(x0, HeadText(h) + rows, x2, RowsOf(rows, used), Conf(MappingNext(h, rows, used), dec));
  }

  lemma UpToMapLeads(a: Bits, h: Head, used: seq<bool>, dec: Decoder)
    requires UpToMap(a, h, used) && HeadOk(h) && HeadFits(h, h.level) && |dec.yy| == 256
    ensures UsedOk(used) && Leads(Conf(BlkHdr(h.level, 0), dec), a, Conf(Selector1(h, used), dec))
  {
    hide Leads, HeadText, RowsOf, Used;
    var m :| MapText(m, used) && a == HeadText(h) + m;
    BlockHeadLeads(h, dec);
    MapLeads(h, m, used, dec);
    LeadsThen(Conf(BlkHdr(h.level, 0), dec), HeadText(h), Conf(Mapping1(h, []), dec), m, Conf(Selector1(h, used), dec));
  }

  lemma ThreeBits(v: nat)
    requires v < 8
    ensures Val(ToBits(3, v)) == v
  {
    assert Pow2(3) == 8;
    ValToBits(3, v);
  }

  lemma NoCount()
    ensures Val(ToBits(15, 0)) == 0
  {
    Powers();
    ValToBits(15, 0);
  }

  lemma BadCountsFails(t: Bits, h: Head, dec: Decoder)
    requires BadCounts(t, h) && HeadOk(h) && HeadFits(h, h.level) && |dec.yy| == 256
    ensures Fails(h.level, t, dec)
  {
    hide Leads, UpToMap, Used, ToBits, Val, Fails;
    if used, a, v: nat :| UpToMap(a, h, used) && v < 8 && (v < 2 || v > 6) && t == a + ToBits(3, v) {
      UpToMapLeads(a, h, used, dec);
      ThreeBits(v);
      FailsBy(h.level, a, dec, Conf(Selector1(h, used), dec), ToBits(3, v), t);
    } else {
      var used, a, n: nat :| UpToMap(a, h, used) && 2 <= n <= 6 && t == a + ToBits(3, n) + ToBits(15, 0);
      UpToMapLeads(a, h, used, dec);
      ThreeBits(n);
      NoCount();
      ThenBits(Conf(BlkHdr(h.level, 0), dec), a, Conf(Selector1(h, used), dec), ToBits(3, n), Conf(Selector2(h, used, n), dec));
      FailsBy(h.level, a + ToBits(3, n), dec, Conf(Selector2(h, used, n), dec), ToBits(15, 0), t);
    }
  }

  lemma BadSelectorFails(t: Bits, h: Head, dec: Decoder)
    requires BadSelector(t, h) && HeadOk(h) && HeadFits(h, h.level) && |dec.yy| == 256
    ensures Fails(h.level, t, dec)
  {
    hide Leads, UpToMap, Used, ToBits, Fails, UnaryAll;
    var used, n: nat, nSel: nat, vals :| SelectorsSeen(t, h, used, n, nSel, vals, n) && 2 <= n <= 6 && |vals| < nSel
      && forall i :: 0 <= i < |vals| ==> vals[i] < n;
    var a :| UpToMap(a, h, used) && t == a + ToBits(3, n) + ToBits(15, nSel) + UnaryAll(vals, |vals|) + Ones(n);
    var x0, x1 := Conf(BlkHdr(h.level, 0), dec), Conf(Selector1(h, used), dec);
    var x2, x3 := Conf(Selector3(h, used, n, nSel, [], 0), dec), Conf(Selector3(h, used, n, nSel, vals, 0), dec);
    var x4 := Conf(Selector3(h, used, n, nSel, vals, n - 1), dec);
    UpToMapLeads(a, h, used, dec);
    SelectorCountsLead(h, used, n, nSel, dec);
    UnaryAllLead(h, used, n, nSel, vals, |vals|, dec);
    OnesLead(h, used, n, nSel, vals, n - 1, dec);
    assert vals[..|vals|] == vals;
    var c, u := ToBits(3, n) + ToBits(15, nSel), UnaryAll(vals, |vals|);
    LeadsThen(x0, a, x1, c, x2);
    LeadsThen(x0, a + c, x2, u, x3);
    LeadsThen(x0, a + c + u, x3, Ones(n - 1), x4);
    OneMoreOne(a, ToBits(3, n), ToBits(15, nSel), u, n);
    FailsBy(h.level, a + c + u + Ones(n - 1), dec, x4, [true], t);
  }

  lemma OneMoreOne(a: Bits, b: Bits, c: Bits, d: Bits, n: nat)
    requires n > 0
    ensures a + (b + c) + d + Ones(n - 1) + [true] == a + b + c + d + Ones(n)
  {
    assert Ones(n - 1) + [true] == Ones(n);
  }

  // ----- The code lengths.

  lemma UpToSelectorsLeads(t: Bits, h: Head, used: seq<bool>, n: nat, sel: seq<nat>, dec: Decoder)
    requires UpToSelectors(t, h, used, n, sel) && HeadOk(h) && HeadFits(h, h.level) && |dec.yy| == 256
    ensures Leads(Conf(BlkHdr(h.level, 0), dec), t, Conf(Coding1(h, used, n, sel, []), dec))
  {
    hide Leads, UpToMap, Used, SelectorsText;
    var a, s :| UpToMap(a, h, used) && SelectorsText(s, n, sel) && t == a + s;
    UpToMapLeads(a, h, used, dec);
    SelectorsLead(h, used, n, s, sel, dec);
    LeadsThen(Conf(BlkHdr(h.level, 0), dec), a, Conf(Selector1(h, used), dec), s, Conf(Coding1(h, used, n, sel, []), dec));
  }

  /** All tables of the block, as far as they are known; the others do not matter. */
  ghost function FilledUp(used: seq<bool>, n: nat, sel: seq<nat>, lens: seq<seq<nat>>): (tb: Tables)
    requires |used| == 256 && |lens| <= n
    ensures |tb.lens| == n && tb.lens[..|lens|] == lens && tb.used == used && tb.sel == sel
  {
    Tables(used, sel, lens + seq(n - |lens|, _ => seq(Alpha(used), _ => 1)))
  }

  lemma FilledUpOk(h: Head, used: seq<bool>, n: nat, sel: seq<nat>, lens: seq<seq<nat>>)
    requires CodingOk(h, used, n, sel, lens)
    ensures TablesOk(FilledUp(used, n, sel, lens))
  {
    hide Used;
    var tb := FilledUp(used, n, sel, lens);
    forall t | 0 <= t < |tb.lens|
      ensures LenOk(tb.lens[t], Alpha(used))
    {
      if t < |lens| {
        assert tb.lens[t] == lens[t];
      }
    }
  }

  lemma TablesSeenLeads(t: Bits, h: Head, used: seq<bool>, n: nat, sel: seq<nat>, lens: seq<seq<nat>>, dec: Decoder) returns (dec': Decoder)
    requires TablesSeen(t, h, used, n, sel, lens) && CodingOk(h, used, n, sel, lens) && HeadFits(h, h.level) && |dec.yy| == 256
    ensures |dec'.yy| == 256 && Leads(Conf(BlkHdr(h.level, 0), dec), t, Conf(Coding1(h, used, n, sel, lens), dec'))
  {
    hide Leads, Used, UpToSelectors, TablesText, TablesOk;
    var a, l :| UpToSelectors(a, h, used, n, sel) && TablesText(l, lens, Alpha(used)) && t == a + l;
    UpToSelectorsLeads(a, h, used, n, sel, dec);
    var tb := FilledUp(used, n, sel, lens);
    FilledUpOk(h, used, n, sel, lens);
    TablesLead(h, tb, |lens|, l, dec);
    assert tb.lens[..0] == [];
    var y := AfterTables(h, tb, |lens|, dec);
    dec' := y.dec;
    LeadsThen(Conf(BlkHdr(h.level, 0), dec), a, Conf(Coding1(h, used, n, sel, []), dec), l, y);
  }

  lemma BadLengthFails(t: Bits, h: Head, dec: Decoder)
    requires BadLength(t, h) && HeadFits(h, h.level) && |dec.yy| == 256
    ensures Fails(h.level, t, dec)
  {
    hide Leads, Used, TablesSeen, LengthsText, Steps, ToBits, Val, CodingNext, LenOk;
    var used, n: nat, sel, lens, len, curr: nat :| LengthSeen(t, h, used, n, sel, lens, len, curr) && CodingOk(h, used, n, sel, lens)
      && |len| < Alpha(used) && !(1 <= curr <= 20);
    var a, start, b, s :| TablesSeen(a, h, used, n, sel, lens) && LengthsText(b, start, len) && Steps(s, LastOf(start, len), curr)
      && start < 32 && t == a + ToBits(5, start) + b + s;
    var dec' := TablesSeenLeads(a, h, used, n, sel, lens, dec);
    FiveBits(start);
    var x0, x1 := Conf(BlkHdr(h.level, 0), dec), Conf(Coding1(h, used, n, sel, lens), dec');
    var x2, x3 := Started(CodingNext(h, used, n, sel, lens, [], start)), Started(CodingNext(h, used, n, sel, lens, len, LastOf(start, len)));
    ThenBits(x0, a, x1, ToBits(5, start), x2);
    LengthsLead(h, used, n, sel, lens, start, b, len);
    LeadsThen(x0, a + ToBits(5, start), x2, b, x3);
    StepsLead(h, used, n, sel, lens, len, s, LastOf(start, len), curr);
    OutOfRange(h, used, n, sel, lens, len, curr);
    LeadsThen(x0, a + ToBits(5, start) + b, x3, s, Started(CodingNext(h, used, n, sel, lens, len, curr)));
  }

  lemma OutOfRange(h: Head, used: seq<bool>, n: nat, sel: seq<nat>, lens: seq<seq<nat>>, len: seq<nat>, curr: nat)
    requires |used| == 256 && |len| < Alpha(used) && !(1 <= curr <= 20)
    ensures CodingNext(h, used, n, sel, lens, len, curr) == Failed(BadData)
  {
  }

  // ----- The symbols.

  lemma SymbolsTakenLead(h: Head, tb: Tables, f: Bits, c: Bits, syms: seq<Symbol>, dec: Decoder) returns (x: Conf)
    requires FrontText(f, h, tb) && SymbolsText(c, tb, syms) && Taken(h, tb, syms) && TablesOk(tb) && HeadOk(h) && HeadFits(h, h.level)
    requires |dec.yy| == 256
    ensures x == Conf(BeforeSymbol(h, tb, |syms|), Fed(SeqToUnseq(tb.used), StartDecoder(), syms)) && |x.dec.yy| == 256
    ensures Leads(Conf(BlkHdr(h.level, 0), dec), f + c, x)
  {
    hide Leads, Used, FrontText, SymbolsText, SeqToUnseq, FedOk;
    FrontLeads(h, tb, f, dec);
    assert syms[..|syms|] == syms;
    SymbolsLead(h, tb, syms, |syms|, c);
    x := Conf(BeforeSymbol(h, tb, |syms|), Fed(SeqToUnseq(tb.used), StartDecoder(), syms));
    LeadsThen(Conf(BlkHdr(h.level, 0), dec), f, Started(GetMtf(h, tb, -1, 0)), c, x);
  }

  lemma BadSymbolFails(t: Bits, h: Head, dec: Decoder)
    requires BadSymbol(t, h) && HeadOk(h) && HeadFits(h, h.level) && |dec.yy| == 256
    ensures Fails(h.level, t, dec)
  {
    hide Leads, FrontText, SymbolsText, Taken, CodeText, Unfit, OnSymbol, SeqToUnseq, LensOk;
    var tb, f, c, syms, z, sym: nat :| FrontText(f, h, tb) && SymbolsText(c, tb, syms) && Taken(h, tb, syms) && TablesOk(tb)
      && |syms| / 50 < |tb.sel| && CodeText(z, tb.lens[tb.sel[|syms| / 50]], sym) && Unfit(h, tb, syms, sym) && t == f + c + z;
    var x := SymbolsTakenLead(h, tb, f, c, syms, dec);
    var k := |syms|;
    BeforeSymbolIs(h, tb, k);
    CodeLeads(h, tb, k / 50, 49 - k % 50, z, sym, x.dec);
    var y := OnSymbol(h, tb, k / 50, 49 - k % 50, sym, x.dec);
    SymbolInAlphabet(tb, k / 50, z, sym);
    UnfitFails(h, tb, k / 50, 49 - k % 50, sym, x.dec, syms);
    LeadsThen(Conf(BlkHdr(h.level, 0), dec), f + c, x, z, y);
  }

  lemma SymbolInAlphabet(tb: Tables, groupNo: nat, z: Bits, sym: nat)
    requires TablesOk(tb) && groupNo < |tb.sel| && CodeText(z, tb.lens[tb.sel[groupNo]], sym)
    ensures sym < Alpha(tb.used)
  {
    TableInRange(tb, groupNo);
  }

  lemma NotYetRead(len: seq<nat>, z: Bits, n: nat)
    requires LenOk(len, |len|) && 0 < |len| <= MAX_ALPHA_SIZE && NoneBefore(len, z) && |z| == 21 && MinLen(len) <= n <= 21
    ensures n < 21 ==> LookUp(len, z[..n]) == More
    ensures n == 21 ==> LookUp(len, z[..n]) == Bad
  {
    hide WithinCodes, LookUp, First, CountLen, Val;
    if n < 21 {
      assert NoneBefore(len, z[..n]) by {
        forall i | 0 <= i < n
          ensures !WithinCodes(len, z[..n][..i])
        {
          assert z[..n][..i] == z[..i];
        }
      }
      LookUpExact(len, z[..n], 0);
      if n > MaxLen(len) {
        FirstCodeZero(len, z[..n]);
      }
    } else {
      TooLong(len, z);
      assert z[..21] == z;
    }
  }

  lemma TooLong(len: seq<nat>, z: Bits)
    requires LenOk(len, |len|) && 0 < |len| <= MAX_ALPHA_SIZE && |z| == 21
    ensures LookUp(len, z) == Bad
  {
  }

  lemma {:induction false} NoCodeLeads(h: Head, tb: Tables, groupNo: nat, groupPos: nat, z: Bits, n: nat, dec: Decoder)
    requires HeadOk(h) && TablesOk(tb) && groupNo < |tb.sel| && |dec.yy| == 256
    requires NoneBefore(tb.lens[tb.sel[groupNo]], z) && |z| == 21 && MinLen(tb.lens[tb.sel[groupNo]]) <= n <= 21
    ensures Leads(CheckCode(h, tb, groupNo, groupPos, z[..n], dec), z[n..], Conf(Failed(BadData), dec))
    decreases 21 - n
  {
    hide OnSymbol, LookUp, HandleCtl, Leads, NoneBefore, MinLen;
    TableInRange(tb, groupNo);
    CheckCodeOk(h, tb, groupNo, groupPos, z[..n], dec);
    NotYetRead(tb.lens[tb.sel[groupNo]], z, n);
    if n == 21 {
      assert z[n..] == [];
      Stays(Conf(Failed(BadData), dec));
    } else {
      var x, b := Conf(Mtf2(h, tb, groupNo, groupPos, z[..n]), dec), [z[n]];
      assert z[..n] + b == z[..n + 1] && z[n..] == b + z[n + 1..];
      BitsLead(x, b, CheckCode(h, tb, groupNo, groupPos, z[..n + 1], dec));
      NoCodeLeads(h, tb, groupNo, groupPos, z, n + 1, dec);
      LeadsThen(x, b, CheckCode(h, tb, groupNo, groupPos, z[..n + 1], dec), z[n + 1..], Conf(Failed(BadData), dec));
    }
  }

  lemma NoCodeFromStart(h: Head, tb: Tables, groupNo: nat, groupPos: nat, z: Bits, dec: Decoder)
    requires HeadOk(h) && TablesOk(tb) && groupNo < |tb.sel| && |dec.yy| == 256
    requires NoneBefore(tb.lens[tb.sel[groupNo]], z) && |z| == 21
    ensures Leads(Conf(Mtf1(h, tb, groupNo, groupPos), dec), z, Conf(Failed(BadData), dec))
  {
    hide Leads, NoneBefore, CheckCode, MinLen, UsedOk, LensOk;
    var x, n := Conf(Mtf1(h, tb, groupNo, groupPos), dec), MinLen(tb.lens[tb.sel[groupNo]]);
    MinLenInRange(tb, groupNo);
    var y := CheckCode(h, tb, groupNo, groupPos, z[..n], dec);
    BitsLead(x, z[..n], y);
    NoCodeLeads(h, tb, groupNo, groupPos, z, n, dec);
    LeadsThen(x, z[..n], y, z[n..], Conf(Failed(BadData), dec));
    assert z[..n] + z[n..] == z;
  }

  lemma BadCodeFails(t: Bits, h: Head, dec: Decoder)
    requires BadCode(t, h) && HeadOk(h) && HeadFits(h, h.level) && |dec.yy| == 256
    ensures Fails(h.level, t, dec)
  {
    hide Leads, FrontText, SymbolsText, Taken, NoneBefore, SeqToUnseq, Fed, UsedOk, LensOk;
    var tb, f, c, syms, z :| FrontText(f, h, tb) && SymbolsText(c, tb, syms) && Taken(h, tb, syms) && TablesOk(tb)
      && |syms| / 50 < |tb.sel| && NoneBefore(tb.lens[tb.sel[|syms| / 50]], z) && |z| == 21 && t == f + c + z;
    var x := SymbolsTakenLead(h, tb, f, c, syms, dec);
    var k := |syms|;
    BeforeSymbolIs(h, tb, k);
    NoCodeFromStart(h, tb, k / 50, 49 - k % 50, z, x.dec);
    LeadsThen(Conf(BlkHdr(h.level, 0), dec), f + c, x, z, Conf(Failed(BadData), x.dec));
  }

  lemma OutOfSelectorsFails(t: Bits, h: Head, dec: Decoder)
    requires OutOfSelectors(t, h) && HeadOk(h) && HeadFits(h, h.level) && |dec.yy| == 256
    ensures Fails(h.level, t, dec)
  {
    hide Leads, FrontText, SymbolsText, Taken, SeqToUnseq, Fed, LensOk, Used;
    var tb, f, c, syms :| FrontText(f, h, tb) && SymbolsText(c, tb, syms) && Taken(h, tb, syms) && TablesOk(tb)
      && |syms| == 50 * |tb.sel| && t == f + c;
    var x := SymbolsTakenLead(h, tb, f, c, syms, dec);
    assert (|syms| - 1) / 50 == |tb.sel| - 1 && (|syms| - 1) % 50 == 49;
  }

  // ----- All of them.

  lemma RejectedFails(t: Bits, level: nat, dec: Decoder)
    requires RejectedText(t, level) && 1 <= level <= 9 && |dec.yy| == 256
    ensures Fails(level, t, dec)
  {
    hide Fails, BadByte, BadOrig, BadMap, BadCounts, BadSelector, BadLength, BadSymbol, BadCode, OutOfSelectors;
    if BadByte(t) {
      BadByteFails(t, level, dec);
    } else if BadOrig(t, level) {
      BadOrigFails(t, level, dec);
    } else {
      var h :| HeadFits(h, level) && RejectedBlock(t, h);
      if BadMap(t, h) {
        BadMapFails(t, h, dec);
      } else if BadCounts(t, h) {
        BadCountsFails(t, h, dec);
      } else if BadSelector(t, h) {
        BadSelectorFails(t, h, dec);
      } else if BadLength(t, h) {
        BadLengthFails(t, h, dec);
      } else if BadSymbol(t, h) {
        BadSymbolFails(t, h, dec);
      } else if BadCode(t, h) {
        BadCodeFails(t, h, dec);
      } else {
        OutOfSelectorsFails(t, h, dec);
      }
    }
  }
}
