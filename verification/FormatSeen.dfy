/** The parser reads nothing but the format: wherever it stands in a block, the bits it has taken are the beginning of the text of
    one; where it stops with a column, they are the text of a block with that column; and where it gives up, no block begins
    with them.
 */
module FormatSeen {
  import opened Bits
  import opened BlockParser
  import opened BlockPrinter
  import opened Crc
  import opened Format
  import opened FormatCodes
  import opened HuffmanCodes
  import opened MoveToFront
  import opened MtfEncoder
  import opened MtfUnique
  import opened Rotations

  // ----- Where the parser stands.

  /** Symbols whose codes have been read, and where that has taken the decoder. */
  ghost predicate SymbolsSeen(t: Bits, h: Head, tb: Tables, groupNo: nat, groupPos: nat, dec: Decoder, syms: seq<Symbol>) {
    && Taken(h, tb, syms) && dec == Fed(SeqToUnseq(tb.used), StartDecoder(), syms)
    && groupNo == |syms| / 50 && groupPos == 49 - |syms| % 50
    && exists f, c :: FrontText(f, h, tb) && SymbolsText(c, tb, syms) && t == f + c
  }

  ghost predicate CodeSeen(t: Bits, h: Head, tb: Tables, groupNo: nat, groupPos: nat, z: Bits, dec: Decoder) {
    && TablesOk(tb) && groupNo < |tb.sel| && MinLen(tb.lens[tb.sel[groupNo]]) <= |z| <= 20
    && NoneBefore(tb.lens[tb.sel[groupNo]], z) && !WithinCodes(tb.lens[tb.sel[groupNo]], z)
    && exists a, syms :: SymbolsSeen(a, h, tb, groupNo, groupPos, dec, syms) && t == a + z
  }

  ghost predicate HeadSeen(c: Ctl, t: Bits) {
    match c
    case BlkHdr(_, k) => k < 6 && t == BlockMagicPart(k)
    case BCrc(_, acc) => t == BlockMagic() + acc
    case RandBit(_, crc) => t == BlockMagic() + crc
    case OrigPtr(_, crc, acc) => t == BlockMagic() + crc + [false] + acc
    case EndHdr(_, k) => k < 6 && t == EndMagicPart(k)
    case CCrc(_, acc) => t == EndMagic() + acc
    case End(w) => t == EndMagic() + w
    case _ => true
  }

  ghost predicate TableSeen(c: Ctl, t: Bits) {
    match c
    case Mapping1(h, used16) => t == HeadText(h) + used16
    case Mapping2(h, rows, used) => |used| < 256 && MapSeen(t, h, rows, used) && rows[|used| / 16]
    case Selector1(h, used) => UpToMap(t, h, used)
    case Selector2(h, used, n) => exists a :: UpToMap(a, h, used) && t == a + ToBits(3, n)
    case Selector3(h, used, n, nSel, mtf, j) => SelectorsSeen(t, h, used, n, nSel, mtf, j)
    case Coding1(h, used, n, sel, lens) => TablesSeen(t, h, used, n, sel, lens)
    case Coding2(h, used, n, sel, lens, len, curr) => LengthSeen(t, h, used, n, sel, lens, len, curr)
    case Coding3(h, used, n, sel, lens, len, curr) => |t| > 0 && t[|t| - 1] && LengthSeen(t[..|t| - 1], h, used, n, sel, lens, len, curr)
    case _ => true
  }

  ghost predicate ColumnSeen(x: Conf, t: Bits) {
    match x.ctl
    case Mtf1(h, tb, groupNo, groupPos) => exists syms :: SymbolsSeen(t, h, tb, groupNo, groupPos, x.dec, syms)
    case Mtf2(h, tb, groupNo, groupPos, z) => CodeSeen(t, h, tb, groupNo, groupPos, z, x.dec)
    case Output(h, column) => exists tb :: BlockText(t, h, tb, column)
    case _ => true
  }

  predicate InHead(c: Ctl) {
    c.BlkHdr? || c.BCrc? || c.RandBit? || c.OrigPtr? || c.EndHdr? || c.CCrc? || c.End?
  }

  predicate InMiddle(c: Ctl) {
    c.Mapping1? || c.Mapping2? || c.Selector1? || c.Selector2? || c.Selector3? || InTables(c)
  }

  predicate InSymbols(c: Ctl) {
    c.Mtf1? || c.Mtf2? || c.Output?
  }

  /** `t` are the bits taken since the last block ended. */
  ghost predicate Seen(x: Conf, t: Bits, level: nat) {
    && (InHead(x.ctl) ==> HeadSeen(x.ctl, t)) && (InMiddle(x.ctl) ==> TableSeen(x.ctl, t)) && (InSymbols(x.ctl) ==> ColumnSeen(x, t))
    && (InMiddle(x.ctl) || InSymbols(x.ctl) ==> HeadFits(x.ctl.h, level))
    && (x.ctl.Failed? ==> RejectedText(t, level))
  }

  lemma FailedSeen(x: Conf, t: Bits, level: nat)
    requires x.ctl.Failed? && RejectedText(t, level)
    ensures Seen(x, t, level)
  {
    hide HeadSeen, TableSeen, ColumnSeen;
  }

  lemma FailedInBlock(x: Conf, t: Bits, h: Head, level: nat)
    requires x.ctl.Failed? && HeadFits(h, level) && RejectedBlock(t, h)
    ensures Seen(x, t, level)
  {
    hide HeadSeen, TableSeen, ColumnSeen, RejectedBlock;
    assert RejectedText(t, level);
  }

  lemma HeadIsSeen(x: Conf, t: Bits, level: nat)
    requires InHead(x.ctl) && HeadSeen(x.ctl, t)
    ensures Seen(x, t, level)
  {
    hide HeadSeen, TableSeen, ColumnSeen;
  }

  /** Between the head of a block and its symbols. */
  lemma TableIsSeen(x: Conf, t: Bits, level: nat)
    requires InMiddle(x.ctl) && TableSeen(x.ctl, t) && HeadFits(x.ctl.h, level)
    ensures Seen(x, t, level)
  {
    hide HeadSeen, TableSeen, ColumnSeen;
  }

  lemma ColumnIsSeen(x: Conf, t: Bits, level: nat)
    requires InSymbols(x.ctl) && ColumnSeen(x, t) && HeadFits(x.ctl.h, level)
    ensures Seen(x, t, level)
  {
    hide HeadSeen, TableSeen, ColumnSeen;
  }

  function LevelOf(c: Ctl): nat {
    match c
    case BlkHdr(level, _) => level
    case BCrc(level, _) => level
    case RandBit(level, _) => level
    case OrigPtr(level, _, _) => level
    case EndHdr(level, _) => level
    case CCrc(level, _) => level
    case Mapping1(h, _) => h.level
    case Mapping2(h, _, _) => h.level
    case Selector1(h, _) => h.level
    case Selector2(h, _, _) => h.level
    case Selector3(h, _, _, _, _, _) => h.level
    case Coding1(h, _, _, _, _) => h.level
    case Coding2(h, _, _, _, _, _, _) => h.level
    case Coding3(h, _, _, _, _, _, _) => h.level
    case Mtf1(h, _, _, _) => h.level
    case Mtf2(h, _, _, _, _) => h.level
    case Output(h, _) => h.level
    case _ => 0
  }

  // ----- The head of a block, and the trailer.

  lemma MagicParts()
    ensures BlockMagicPart(5) + ByteBits(0x59) == BlockMagic() && EndMagicPart(5) + ByteBits(0x90) == EndMagic()
  {
    hide ToBits;
    assert BlockMagicPart(1) == ByteBits(0x31);
    assert BlockMagicPart(2) == ByteBits(0x31) + ByteBits(0x41);
    assert BlockMagicPart(3) == ByteBits(0x31) + ByteBits(0x41) + ByteBits(0x59);
    assert EndMagicPart(1) == ByteBits(0x17);
    assert EndMagicPart(2) == ByteBits(0x17) + ByteBits(0x72);
    assert EndMagicPart(3) == ByteBits(0x17) + ByteBits(0x72) + ByteBits(0x45);
  }

  lemma ByteSeen(bs: Bits)
    requires |bs| == 8
    ensures Val(bs) < 256 && ByteBits(Val(bs)) == bs
  {
    ValBound(bs);
    Powers();
    ToBitsVal(bs);
  }

  lemma BlockByteSeen(k: nat, bs: Bits)
    requires k < 6 && |bs| == 8 && Val(bs) == BlockByte(k)
    ensures BlockMagicPart(k) + bs == (if k < 5 then BlockMagicPart(k + 1) else BlockMagic())
  {
    hide ToBits, Val, BlockMagic;
    ByteSeen(bs);
    MagicParts();
  }

  lemma EndByteSeen(k: nat, bs: Bits)
    requires k < 6 && |bs| == 8 && Val(bs) == EndByte(k)
    ensures EndMagicPart(k) + bs == (if k < 5 then EndMagicPart(k + 1) else EndMagic())
  {
    hide ToBits, Val, EndMagic;
    ByteSeen(bs);
    MagicParts();
  }

  lemma WrongByteSeen(k: nat, bs: Bits, inTrailer: bool)
    requires k < 6 && |bs| == 8 && if inTrailer then 1 <= k && Val(bs) != EndByte(k)
             else Val(bs) != BlockByte(k) && !(k == 0 && Val(bs) == EndByte(0))
    ensures BadByte((if inTrailer then EndMagicPart(k) else BlockMagicPart(k)) + bs)
  {
    hide Val, BlockMagicPart, EndMagicPart, BlockByte, EndByte;
    ByteSeen(bs);
  }

  lemma HeaderSeenNext(x: Conf, t: Bits, bs: Bits, level: nat)
    requires Ok(x) && (x.ctl.BlkHdr? || x.ctl.EndHdr?) && |bs| == 8 && HeadSeen(x.ctl, t)
    ensures Seen(Handle(x, bs), t + bs, level)
  {
    hide Val, BlockMagic, EndMagic, BlockMagicPart, EndMagicPart, Seen, BadByte;
    assert BlockMagic() + [] == BlockMagic() && EndMagic() + [] == EndMagic();
    var y := Handle(x, bs);
    if y.ctl.Failed? {
      WrongByteSeen(x.ctl.k, bs, x.ctl.EndHdr?);
      FailedSeen(y, t + bs, level);
    } else {
      if y.ctl.EndHdr? || y.ctl.CCrc? {
        NoParts();
        EndByteSeen(if x.ctl.EndHdr? then x.ctl.k else 0, bs);
      } else {
        BlockByteSeen(x.ctl.k, bs);
      }
      HeadIsSeen(y, t + bs, level);
    }
  }

  lemma NoParts()
    ensures BlockMagicPart(0) == [] == EndMagicPart(0)
  {
  }

  lemma WordSeenNext(x: Conf, t: Bits, bs: Bits, level: nat)
    requires Ok(x) && (x.ctl.BCrc? || x.ctl.CCrc? || x.ctl.RandBit?) && |bs| == Need(x.ctl) && HeadSeen(x.ctl, t)
    ensures Seen(Handle(x, bs), t + bs, level)
  {
    hide ToBits, Val, BlockMagic, EndMagic, Seen;
    var y := Handle(x, bs);
    match x.ctl
    case BCrc(_, acc) =>
      Assoc(BlockMagic(), acc, bs);
      HeadIsSeen(y, t + bs, level);
    case CCrc(_, acc) =>
      Assoc(EndMagic(), acc, bs);
      HeadIsSeen(y, t + bs, level);
    case RandBit(_, crc) =>
      assert bs == [bs[0]];
      assert BlockMagic() + crc + bs + [] == BlockMagic() + crc + bs;
      if bs[0] {
        RandomisedSeen(y, t + bs, level);
      } else {
        HeadIsSeen(y, t + bs, level);
      }
  }

  lemma RandomisedSeen(x: Conf, t: Bits, level: nat)
    requires x.ctl.Randomised?
    ensures Seen(x, t, level)
  {
    hide HeadSeen, TableSeen, ColumnSeen;
  }

  lemma OrigSeenNext(x: Conf, t: Bits, bs: Bits, level: nat)
    requires Ok(x) && x.ctl.OrigPtr? && |bs| == 8 && HeadSeen(x.ctl, t) && LevelOf(x.ctl) == level
    ensures Seen(Handle(x, bs), t + bs, level)
  {
    hide ToBits, Val, BlockMagic, Seen;
    var crc, v := x.ctl.crc, x.ctl.acc + bs;
    var y, a := Handle(x, bs), BlockMagic() + crc + [false];
    Assoc(a, x.ctl.acc, bs);
    if |v| < 24 {
      HeadIsSeen(y, t + bs, level);
    } else {
      ToBitsVal(v);
      ValBound(v);
      Powers();
      if Val(v) > 10 + 100_000 * level {
        assert BadOrig(t + bs, level);
        FailedSeen(y, t + bs, level);
      } else {
        assert a + v + [] == a + v;
        TableIsSeen(y, t + bs, level);
      }
    }
  }

  // ----- The map.

  lemma RowsPush(rows: seq<bool>, used: seq<bool>, b: bool)
    requires |rows| == 16 && |used| < 256
    ensures RowsOf(rows, used + [b]) == RowsOf(rows, used) + if rows[|used| / 16] then [b] else []
  {
    assert (used + [b])[..|used|] == used;
  }

  /** A row that is not marked. */
  lemma {:induction false} RowSkipped(rows: seq<bool>, used: seq<bool>, k: nat)
    requires |rows| == 16 && |used| < 256 && |used| % 16 == 0 && !rows[|used| / 16] && k <= 16
    ensures RowsOf(rows, used + Zeros(k)) == RowsOf(rows, used)
    decreases k
  {
    if k == 0 {
      assert used + Zeros(0) == used;
    } else {
      hide RowsOf;
      RowSkipped(rows, used, k - 1);
      assert |used + Zeros(k - 1)| / 16 == |used| / 16;
      RowsPush(rows, used + Zeros(k - 1), false);
      assert used + Zeros(k - 1) + [false] == used + Zeros(k);
    }
  }

  lemma {:induction false} MappingSeen(h: Head, rows: seq<bool>, used: seq<bool>, t: Bits, dec: Decoder, level: nat)
    requires MapSeen(t, h, rows, used) && (|used| % 16 == 0 || rows[|used| / 16]) && HeadFits(h, level)
    ensures Seen(Conf(MappingNext(h, rows, used), dec), t, level)
    decreases 256 - |used|
  {
    hide HeadText, RowsOf, Used, Seen, RejectedBlock, MapSeen;
    MapInRows(h, rows, used, t);
    var x := Conf(MappingNext(h, rows, used), dec);
    if |used| == 256 {
      if Used(used, 256) != 0 {
        WholeMapSeen(h, rows, used, t);
        TableIsSeen(x, t, level);
      } else {
        NoneInUse(t, h, rows, used);
        FailedInBlock(x, t, h, level);
      }
    } else if |used| % 16 == 0 && !rows[|used| / 16] {
      SkippedSeen(h, rows, used, t);
      MappingSeen(h, rows, used + Zeros(16), t, dec, level);
    } else {
      TableIsSeen(x, t, level);
    }
  }

  lemma MapInRows(h: Head, rows: seq<bool>, used: seq<bool>, t: Bits)
    requires MapSeen(t, h, rows, used)
    ensures |rows| == 16 && |used| <= 256
  {
  }

  lemma WholeMapSeen(h: Head, rows: seq<bool>, used: seq<bool>, t: Bits)
    requires MapSeen(t, h, rows, used) && UsedOk(used)
    ensures UpToMap(t, h, used)
  {
    hide HeadText, RowsOf, Used;
    assert MapText(rows + RowsOf(rows, used), used);
    Assoc(HeadText(h), rows, RowsOf(rows, used));
  }

  lemma SkippedSeen(h: Head, rows: seq<bool>, used: seq<bool>, t: Bits)
    requires MapSeen(t, h, rows, used) && |used| < 256 && |used| % 16 == 0 && !rows[|used| / 16]
    ensures MapSeen(t, h, rows, used + Zeros(16))
  {
    hide HeadText, RowsOf;
    RowSkipped(rows, used, 16);
  }

  lemma NoneInUse(t: Bits, h: Head, rows: seq<bool>, used: seq<bool>)
    requires MapSeen(t, h, rows, used) && |used| == 256 && Used(used, 256) == 0
    ensures RejectedBlock(t, h)
  {
    hide MapSeen, Used;
    assert BadMap(t, h);
  }

  lemma MapSeenStart(h: Head, rows: seq<bool>)
    requires |rows| == 16
    ensures MapSeen(HeadText(h) + rows, h, rows, [])
  {
    hide HeadText;
    assert HeadText(h) + rows + [] == HeadText(h) + rows;
  }

  lemma MapSeenPush(t: Bits, h: Head, rows: seq<bool>, used: seq<bool>, b: bool)
    requires MapSeen(t, h, rows, used) && |used| < 256 && rows[|used| / 16]
    ensures MapSeen(t + [b], h, rows, used + [b])
  {
    hide HeadText;
    RowsPush(rows, used, b);
    Regroup(HeadText(h), rows, RowsOf(rows, used), [b]);
  }

  lemma MapSeenNext(x: Conf, t: Bits, bs: Bits, level: nat)
    requires Ok(x) && (x.ctl.Mapping1? || x.ctl.Mapping2?) && |bs| == 1 && TableSeen(x.ctl, t) && HeadFits(x.ctl.h, level)
    ensures Seen(Handle(x, bs), t + bs, level)
  {
    hide HeadText, MappingNext, Used, RowsOf, MapSeen, Seen;
    assert bs == [bs[0]];
    match x.ctl
    case Mapping1(h, used16) =>
      assert HeadText(h) + used16 + bs == HeadText(h) + (used16 + bs);
      if |used16| == 15 {
        MapSeenStart(h, used16 + bs);
        MappingSeen(h, used16 + bs, [], t + bs, x.dec, level);
      } else {
        TableIsSeen(Handle(x, bs), t + bs, level);
      }
    case Mapping2(h, rows, used) =>
      MapSeenPush(t, h, rows, used, bs[0]);
      MappingSeen(h, rows, used + bs, t + bs, x.dec, level);
  }

  // ----- The selectors.

  lemma {:induction false} UnaryPrefix(vals: seq<nat>, j: nat, k: nat)
    requires k <= |vals|
    ensures UnaryAll(vals + [j], k) == UnaryAll(vals, k)
  {
    if k > 0 {
      UnaryPrefix(vals, j, k - 1);
    }
  }

  lemma UnaryPush(vals: seq<nat>, j: nat)
    ensures UnaryAll(vals + [j], |vals| + 1) == UnaryAll(vals, |vals|) + Ones(j) + [false]
  {
    UnaryPrefix(vals, j, |vals|);
    assert UnaryAll(vals, |vals|) + (Ones(j) + [false]) == UnaryAll(vals, |vals|) + Ones(j) + [false];
  }

  lemma CountsSeenNext(x: Conf, t: Bits, bs: Bits, level: nat)
    requires Ok(x) && (x.ctl.Selector1? || x.ctl.Selector2?) && |bs| == Need(x.ctl) && TableSeen(x.ctl, t) && HeadFits(x.ctl.h, level)
    ensures Seen(Handle(x, bs), t + bs, level)
  {
    hide ToBits, Val, UpToMap, Seen, BadMap, BadSelector, BadLength, BadSymbol, BadCode, OutOfSelectors;
    ToBitsVal(bs);
    ValBound(bs);
    match x.ctl
    case Selector1(h, used) =>
      if Val(bs) < 2 || Val(bs) > 6 {
        assert Pow2(3) == 8;
        assert BadCounts(t + bs, h);
        FailedInBlock(Handle(x, bs), t + bs, h, level);
      } else {
        TableIsSeen(Handle(x, bs), t + bs, level);
      }
    case Selector2(h, used, n) =>
      if Val(bs) < 1 {
        assert BadCounts(t + bs, h);
        FailedInBlock(Handle(x, bs), t + bs, h, level);
      } else {
        var a :| UpToMap(a, h, used) && t == a + ToBits(3, n);
        Powers();
        assert UnaryAll([], 0) == [] && Ones(0) == [];
        assert t + bs == a + ToBits(3, n) + ToBits(15, Val(bs)) + [] + [];
        TableIsSeen(Handle(x, bs), t + bs, level);
      }
  }

  lemma SelectorSeenNext(x: Conf, t: Bits, bs: Bits, level: nat)
    requires Ok(x) && x.ctl.Selector3? && |bs| == 1 && TableSeen(x.ctl, t) && HeadFits(x.ctl.h, level)
    ensures Seen(Handle(x, bs), t + bs, level)
  {
    hide ToBits, UpToMap, Used, SelDecode, Seen, SelectorsSeen, RejectedBlock;
    var Selector3(h, used, n, nSel, mtf, j) := x.ctl;
    assert bs == [bs[0]];
    if bs[0] {
      OneMoreSeen(t, h, used, n, nSel, mtf, j);
      if j + 1 >= n {
        BeyondTables(t + bs, h, used, n, nSel, mtf);
        FailedInBlock(Handle(x, bs), t + bs, h, level);
      } else {
        TableIsSeen(Handle(x, bs), t + bs, level);
      }
    } else {
      var all := mtf + [j];
      var a := ValueSeen(t, h, used, n, nSel, mtf, j);
      if |all| < nSel {
        assert SelectorsSeen(t + bs, h, used, n, nSel, all, 0);
      } else {
        SelectorsEnd(h, used, n, all, a, t + bs);
      }
      TableIsSeen(Handle(x, bs), t + bs, level);
    }
  }

  lemma BeyondTables(t: Bits, h: Head, used: seq<bool>, n: nat, nSel: nat, vals: seq<nat>)
    requires SelectorsSeen(t, h, used, n, nSel, vals, n) && 2 <= n <= 6 && |vals| < nSel && MtfOk(vals, n)
    ensures RejectedBlock(t, h)
  {
    hide SelectorsSeen;
    assert BadSelector(t, h);
  }

  lemma OneMoreSeen(t: Bits, h: Head, used: seq<bool>, n: nat, nSel: nat, vals: seq<nat>, j: nat)
    requires SelectorsSeen(t, h, used, n, nSel, vals, j)
    ensures SelectorsSeen(t + [true], h, used, n, nSel, vals, j + 1)
  {
    hide ToBits, UpToMap, UnaryAll;
    var a :| UpToMap(a, h, used) && t == a + ToBits(3, n) + ToBits(15, nSel) + UnaryAll(vals, |vals|) + Ones(j);
    assert Ones(j) + [true] == Ones(j + 1);
    Assoc(a + ToBits(3, n) + ToBits(15, nSel) + UnaryAll(vals, |vals|), Ones(j), [true]);
  }

  lemma ValueSeen(t: Bits, h: Head, used: seq<bool>, n: nat, nSel: nat, vals: seq<nat>, j: nat) returns (a: Bits)
    requires SelectorsSeen(t, h, used, n, nSel, vals, j)
    ensures UpToMap(a, h, used) && t + [false] == a + ToBits(3, n) + ToBits(15, nSel) + UnaryAll(vals + [j], |vals| + 1)
    ensures nSel < 32_768 && SelectorsSeen(t + [false], h, used, n, nSel, vals + [j], 0)
  {
    hide ToBits, UpToMap, UnaryAll;
    a :| UpToMap(a, h, used) && t == a + ToBits(3, n) + ToBits(15, nSel) + UnaryAll(vals, |vals|) + Ones(j);
    UnaryPush(vals, j);
    var c := a + ToBits(3, n) + ToBits(15, nSel);
    Regroup(c, UnaryAll(vals, |vals|), Ones(j), [false]);
    assert c + UnaryAll(vals + [j], |vals| + 1) + Ones(0) == c + UnaryAll(vals + [j], |vals| + 1);
  }

  lemma SelectorsEnd(h: Head, used: seq<bool>, n: nat, vals: seq<nat>, a: Bits, t: Bits)
    requires UsedOk(used) && 2 <= n <= 6 && SelectorValues(vals, n) && UpToMap(a, h, used)
    requires t == a + ToBits(3, n) + ToBits(15, |vals|) + UnaryAll(vals, |vals|)
    ensures TablesSeen(t, h, used, n, SelDecode(Groups(n), Usable(vals)), [])
  {
    hide ToBits, UpToMap, SelDecode, UnaryAll, Used, Groups, SelectorsText;
    SelectorsAre(vals, n);
    Regroup(a, ToBits(3, n), ToBits(15, |vals|), UnaryAll(vals, |vals|));
    assert t == a + SelectorBits(vals, n);
    NoTables(t, h, used, n, SelDecode(Groups(n), Usable(vals)));
  }

  lemma Regroup(a: Bits, b: Bits, c: Bits, d: Bits)
    ensures a + b + c + d == a + (b + c + d) && a + b + c == a + (b + c)
  {
  }

  lemma SelectorsAre(vals: seq<nat>, n: nat)
    requires 2 <= n <= 6 && SelectorValues(vals, n)
    ensures SelectorsText(SelectorBits(vals, n), n, SelDecode(Groups(n), Usable(vals)))
  {
  }

  lemma NoTables(t: Bits, h: Head, used: seq<bool>, n: nat, sel: seq<nat>)
    requires UsedOk(used) && UpToSelectors(t, h, used, n, sel)
    ensures TablesSeen(t, h, used, n, sel, [])
  {
    hide UpToSelectors, Used;
    assert TablesText([], [], Alpha(used));
    assert t + [] == t;
  }

  // ----- The code lengths.

  lemma {:induction false} StepsPush(s: Bits, from: nat, to: nat, down: bool)
    requires Steps(s, from, to) && 1 <= to <= 20
    ensures Steps(s + [true, down], from, if down then to - 1 else to + 1)
    decreases |s|
  {
    if s == [] {
      assert [true, down][2..] == [];
    } else {
      StepsPush(s[2..], if s[1] then from - 1 else from + 1, to, down);
      assert (s + [true, down])[2..] == s[2..] + [true, down];
    }
  }

  lemma LengthsPush(b: Bits, start: nat, len: seq<nat>, s: Bits, l: nat)
    requires LengthsText(b, start, len) && Steps(s, LastOf(start, len), l) && 1 <= l <= 20
    ensures LengthsText(b + (s + [false]), start, len + [l])
  {
    assert (len + [l])[..|len|] == len;
    assert LengthText(s + [false], LastOf(start, len), l);
  }

  lemma TablesPush(l: Bits, lens: seq<seq<nat>>, alpha: nat, b: Bits, len: seq<nat>)
    requires TablesText(l, lens, alpha) && TableText(b, len) && |len| == alpha
    ensures TablesText(l + b, lens + [len], alpha)
  {
    assert (lens + [len])[..|lens|] == lens;
  }

  /** A table that is complete. */
  lemma TableSeenWhole(t: Bits, h: Head, used: seq<bool>, n: nat, sel: seq<nat>, lens: seq<seq<nat>>, a: Bits, start: nat, b: Bits, len: seq<nat>)
    requires TablesSeen(a, h, used, n, sel, lens) && start < 32 && LengthsText(b, start, len) && |len| == Alpha(used)
    requires t == a + ToBits(5, start) + b
    ensures TablesSeen(t, h, used, n, sel, lens + [len])
  {
    hide ToBits, UpToSelectors, LengthsText, TablesText, Used;
    var a', l :| UpToSelectors(a', h, used, n, sel) && TablesText(l, lens, Alpha(used)) && a == a' + l;
    assert TableText(ToBits(5, start) + b, len);
    TablesPush(l, lens, Alpha(used), ToBits(5, start) + b, len);
    assert t == a' + (l + (ToBits(5, start) + b));
  }

  lemma UpToTables(t: Bits, h: Head, tb: Tables)
    requires TablesSeen(t, h, tb.used, |tb.lens|, tb.sel, tb.lens)
    ensures FrontText(t, h, tb)
  {
    hide HeadText, MapText, SelectorsText, TablesText, Used;
    var a, l :| UpToSelectors(a, h, tb.used, |tb.lens|, tb.sel) && TablesText(l, tb.lens, Alpha(tb.used)) && t == a + l;
    var b, s :| UpToMap(b, h, tb.used) && SelectorsText(s, |tb.lens|, tb.sel) && a == b + s;
    var m :| MapText(m, tb.used) && b == HeadText(h) + m;
    assert t == HeadText(h) + m + s + l;
  }

  /** Where no symbol has been read. */
  lemma NoSymbolsSeen(t: Bits, h: Head, tb: Tables, level: nat)
    requires FrontText(t, h, tb) && UsedOk(tb.used) && |tb.sel| > 0 && HeadFits(h, level)
    ensures Seen(Started(GetMtf(h, tb, -1, 0)), t, level)
  {
    hide FrontText, Used, SeqToUnseq, Seen;
    assert SymbolsText([], tb, []) && t == t + [];
    assert SymbolsSeen(t, h, tb, 0, 49, StartDecoder(), []);
    ColumnIsSeen(Started(GetMtf(h, tb, -1, 0)), t, level);
  }

  /** The first length of a table, or after a step. */
  lemma StepSeen(h: Head, used: seq<bool>, n: nat, sel: seq<nat>, lens: seq<seq<nat>>, len: seq<nat>, curr: nat, t: Bits, level: nat)
    requires CodingOk(h, used, n, sel, lens) && |len| < Alpha(used) && LengthSeen(t, h, used, n, sel, lens, len, curr) && HeadFits(h, level)
    ensures Seen(Started(CodingNext(h, used, n, sel, lens, len, curr)), t, level)
  {
    hide LengthSeen, Used, Seen, RejectedBlock;
    var x := Started(CodingNext(h, used, n, sel, lens, len, curr));
    if 1 <= curr <= 20 {
      TableIsSeen(x, t, level);
    } else {
      LengthOutOfRange(t, h, used, n, sel, lens, len, curr);
      FailedInBlock(x, t, h, level);
    }
  }

  lemma LengthOutOfRange(t: Bits, h: Head, used: seq<bool>, n: nat, sel: seq<nat>, lens: seq<seq<nat>>, len: seq<nat>, curr: nat)
    requires LengthSeen(t, h, used, n, sel, lens, len, curr) && CodingOk(h, used, n, sel, lens) && |len| < Alpha(used) && !(1 <= curr <= 20)
    ensures RejectedBlock(t, h)
  {
    hide LengthSeen, CodingOk, Used;
    assert BadLength(t, h);
  }

  lemma LengthDone(h: Head, used: seq<bool>, n: nat, sel: seq<nat>, lens: seq<seq<nat>>, len: seq<nat>, curr: nat, t: Bits, level: nat)
    requires CodingOk(h, used, n, sel, lens) && |len| < Alpha(used) && LengthSeen(t, h, used, n, sel, lens, len, curr) && 1 <= curr <= 20
    requires HeadFits(h, level)
    ensures Seen(Started(CodingNext(h, used, n, sel, lens, len + [curr], curr)), t + [false], level)
  {
    hide ToBits, Steps, TablesSeen, LengthsText, Used, FrontText, Seen;
    var a, start, b, s :| TablesSeen(a, h, used, n, sel, lens) && LengthsText(b, start, len) && Steps(s, LastOf(start, len), curr)
      && start < 32 && t == a + ToBits(5, start) + b + s;
    LengthsPush(b, start, len, s, curr);
    var b', len' := b + (s + [false]), len + [curr];
    assert t + [false] == a + ToBits(5, start) + b';
    if |len'| < Alpha(used) {
      NoSteps(curr);
      assert LastOf(start, len') == curr;
      assert t + [false] == a + ToBits(5, start) + b' + [];
      StepSeen(h, used, n, sel, lens, len', curr, t + [false], level);
    } else {
      TableSeenWhole(t + [false], h, used, n, sel, lens, a, start, b', len');
      if |lens| + 1 == n {
        var tb := Tables(used, sel, lens + [len']);
        UpToTables(t + [false], h, tb);
        NoSymbolsSeen(t + [false], h, tb, level);
      } else {
        TableIsSeen(Started(CodingNext(h, used, n, sel, lens, len', curr)), t + [false], level);
      }
    }
  }

  lemma NoSteps(l: nat)
    ensures Steps([], l, l)
  {
  }

  lemma CodingSeenNext(x: Conf, t: Bits, bs: Bits, level: nat)
    requires Ok(x) && InTables(x.ctl) && |bs| == Need(x.ctl) && TableSeen(x.ctl, t) && HeadFits(x.ctl.h, level)
    ensures Seen(Handle(x, bs), t + bs, level)
  {
    hide ToBits, Val, TablesSeen, LengthsText, Steps, Used, CodingNext, Seen;
    match x.ctl
    case Coding1(h, used, n, sel, lens) =>
      FirstSeen(h, used, n, sel, lens, t, bs);
      StepSeen(h, used, n, sel, lens, [], Val(bs), t + bs, level);
    case Coding2(h, used, n, sel, lens, len, curr) =>
      assert bs == [bs[0]];
      if bs[0] {
        assert (t + bs)[..|t|] == t;
        TableIsSeen(Handle(x, bs), t + bs, level);
      } else {
        LengthDone(h, used, n, sel, lens, len, curr, t, level);
      }
    case Coding3(h, used, n, sel, lens, len, curr) =>
      var curr' := if bs[0] then curr - 1 else curr + 1;
      OneStepSeen(h, used, n, sel, lens, len, curr, t, bs[0]);
      assert bs == [bs[0]];
      StepSeen(h, used, n, sel, lens, len, curr', t + bs, level);
  }

  lemma FirstSeen(h: Head, used: seq<bool>, n: nat, sel: seq<nat>, lens: seq<seq<nat>>, t: Bits, bs: Bits)
    requires TablesSeen(t, h, used, n, sel, lens) && |bs| == 5
    ensures LengthSeen(t + bs, h, used, n, sel, lens, [], Val(bs))
  {
    hide ToBits, TablesSeen;
    ToBitsVal(bs);
    ValBound(bs);
    assert Pow2(5) == 32;
    NoSteps(Val(bs));
    assert LengthsText([], Val(bs), []) && LastOf(Val(bs), []) == Val(bs);
    assert t + bs == t + ToBits(5, Val(bs)) + [] + [];
  }

  lemma OneStepSeen(h: Head, used: seq<bool>, n: nat, sel: seq<nat>, lens: seq<seq<nat>>, len: seq<nat>, curr: nat, t: Bits, down: bool)
    requires |t| > 0 && t[|t| - 1] && LengthSeen(t[..|t| - 1], h, used, n, sel, lens, len, curr) && 1 <= curr <= 20
    ensures LengthSeen(t + [down], h, used, n, sel, lens, len, if down then curr - 1 else curr + 1)
  {
    hide ToBits, TablesSeen, LengthsText, Steps;
    var a, start, b, s :| TablesSeen(a, h, used, n, sel, lens) && LengthsText(b, start, len) && Steps(s, LastOf(start, len), curr)
      && start < 32 && t[..|t| - 1] == a + ToBits(5, start) + b + s;
    StepsPush(s, LastOf(start, len), curr, down);
    assert t == t[..|t| - 1] + [true];
    assert t + [down] == a + ToBits(5, start) + b + (s + [true, down]);
  }

  // ----- The symbols.

  lemma ShortRead(len: seq<nat>, z: Bits)
    requires LenOk(len, |len|) && |z| <= MinLen(len)
    ensures NoneBefore(len, z)
  {
    forall n | 0 <= n < |z|
      ensures !WithinCodes(len, z[..n])
    {
      NoneShorter(len, MinLen(len), n);
      CountNone(len, n);
    }
  }

  lemma ReadMore(len: seq<nat>, z: Bits, b: bool)
    requires NoneBefore(len, z) && !WithinCodes(len, z)
    ensures NoneBefore(len, z + [b])
  {
    forall n | 0 <= n < |z| + 1
      ensures !WithinCodes(len, (z + [b])[..n])
    {
      if n < |z| {
        assert (z + [b])[..n] == z[..n];
      } else {
        assert (z + [b])[..n] == z;
      }
    }
  }

  lemma SymbolsPush(c: Bits, tb: Tables, syms: seq<Symbol>, z: Bits, sym: Symbol)
    requires SymbolsText(c, tb, syms) && |syms| / 50 < |tb.sel| && tb.sel[|syms| / 50] < |tb.lens|
    requires CodeText(z, tb.lens[tb.sel[|syms| / 50]], sym)
    ensures SymbolsText(c + z, tb, syms + [sym])
  {
    assert (syms + [sym])[..|syms|] == syms;
  }

  /** The next symbol has been read. */
  lemma SymbolSeen(t: Bits, h: Head, tb: Tables, groupNo: nat, groupPos: nat, z: Bits, dec: Decoder, sym: nat, syms: seq<Symbol>, level: nat)
    requires HeadOk(h) && TablesOk(tb) && groupNo < |tb.sel| && CodeText(z, tb.lens[tb.sel[groupNo]], sym) && |dec.yy| == 256
    requires SymbolsSeen(t, h, tb, groupNo, groupPos, dec, syms) && HeadFits(h, level)
    ensures Ok(OnSymbol(h, tb, groupNo, groupPos, sym, dec)) && Seen(OnSymbol(h, tb, groupNo, groupPos, sym, dec), t + z, level)
  {
    hide CodeText, FrontText, SymbolsText, SeqToUnseq, Fed, FedOk, DecoderStep, StepOk, Seen, Used, LensOk, LenOk, Flushed, RejectedBlock;
    TableInRange(tb, groupNo);
    CodeTextBelow(z, tb.lens[tb.sel[groupNo]], sym);
    OnSymbolOk(h, tb, groupNo, groupPos, sym, dec);
    var f, c :| FrontText(f, h, tb) && SymbolsText(c, tb, syms) && t == f + c;
    var y := OnSymbol(h, tb, groupNo, groupPos, sym, dec);
    if Unfit(h, tb, syms, sym) {
      UnfitFails(h, tb, groupNo, groupPos, sym, dec, syms);
      assert BadSymbol(t + z, h);
      UnfitRejected(t + z, h);
      FailedInBlock(y, t + z, h, level);
    } else {
      SymbolsPush(c, tb, syms, z, sym);
      Assoc(f, c, z);
      if sym == Alpha(tb.used) - 1 {
        LastSeen(t + z, f, c + z, h, tb, groupNo, groupPos, sym, dec, syms, level);
      } else {
        InnerSeen(t + z, f, c + z, h, tb, groupNo, groupPos, dec, sym, syms, level);
      }
    }
  }

  lemma UnfitRejected(t: Bits, h: Head)
    requires BadSymbol(t, h)
    ensures RejectedBlock(t, h)
  {
    hide BadSymbol;
  }

  lemma FlushedLength(m: seq<Byte>, d: Decoder)
    requires |m| == |d.yy| == 256
    ensures |Flushed(m, d).out| == |d.out| + d.run
  {
  }

  /** The tests on a symbol fail exactly if it is unfit. */
  lemma UnfitFails(h: Head, tb: Tables, groupNo: nat, groupPos: nat, sym: nat, dec: Decoder, syms: seq<Symbol>)
    requires TablesOk(tb) && dec == Fed(SeqToUnseq(tb.used), StartDecoder(), syms) && |dec.yy| == 256 && sym < Alpha(tb.used)
    ensures Unfit(h, tb, syms, sym) ==> OnSymbol(h, tb, groupNo, groupPos, sym, dec).ctl == Failed(BadData)
    ensures !Unfit(h, tb, syms, sym) ==>
              OnSymbol(h, tb, groupNo, groupPos, sym, dec)
              == if sym == Alpha(tb.used) - 1 then
                   var d := Flushed(SeqToUnseq(tb.used), dec); Conf(Output(h, d.out), d)
                 else Conf(GetMtf(h, tb, groupNo, groupPos), DecoderStep(SeqToUnseq(tb.used), dec, sym))
  {
    hide SeqToUnseq, Fed, DecoderStep, StepOk, Used, Flushed, GetMtf;
    FlushedLength(SeqToUnseq(tb.used), dec);
  }

  lemma LastSeen(t: Bits, f: Bits, c: Bits, h: Head, tb: Tables, groupNo: nat, groupPos: nat, sym: Symbol, dec: Decoder, syms: seq<Symbol>,
                 level: nat)
    requires HeadOk(h) && TablesOk(tb) && SymbolsUpTo(syms, Used(tb.used, 256)) && sym == Alpha(tb.used) - 1 && HeadFits(h, level)
    requires dec == Fed(SeqToUnseq(tb.used), StartDecoder(), syms) && |dec.yy| == 256 && !Unfit(h, tb, syms, sym)
    requires FrontText(f, h, tb) && SymbolsText(c, tb, syms + [sym]) && t == f + c
    ensures Seen(OnSymbol(h, tb, groupNo, groupPos, sym, dec), t, level)
  {
    hide FrontText, SymbolsText, SeqToUnseq, Fed, StepOk, Seen, Used, LensOk, SymbolsFor, Flushed;
    UnfitFails(h, tb, groupNo, groupPos, sym, dec, syms);
    FlushedLength(SeqToUnseq(tb.used), dec);
    ColumnSymbols(tb.used, syms);
    assert BlockText(t, h, tb, Flushed(SeqToUnseq(tb.used), dec).out);
    ColumnIsSeen(OnSymbol(h, tb, groupNo, groupPos, sym, dec), t, level);
  }

  lemma CodeTextBelow(z: Bits, len: seq<nat>, sym: nat)
    requires CodeText(z, len, sym)
    ensures sym < |len|
  {
  }

  lemma InnerSeen(t: Bits, f: Bits, c: Bits, h: Head, tb: Tables, groupNo: nat, groupPos: nat, dec: Decoder, sym: Symbol, syms: seq<Symbol>,
                  level: nat)
    requires TablesOk(tb) && Taken(h, tb, syms) && sym < Alpha(tb.used) - 1 && HeadFits(h, level) && groupNo < |tb.sel|
    requires dec == Fed(SeqToUnseq(tb.used), StartDecoder(), syms) && !Unfit(h, tb, syms, sym)
    requires groupNo == |syms| / 50 && groupPos == 49 - |syms| % 50
    requires FrontText(f, h, tb) && SymbolsText(c, tb, syms + [sym]) && t == f + c
    ensures Seen(OnSymbol(h, tb, groupNo, groupPos, sym, dec), t, level)
  {
    hide FrontText, SymbolsText, SeqToUnseq, DecoderStep, StepOk, Used, Fed, FedOk, SelOk, LensOk, Seen, Unfit, OnSymbol, RejectedBlock;
    var k := |syms| + 1;
    TakenPush(h, tb, syms, sym);
    NextInGroup(k);
    UnfitFails(h, tb, groupNo, groupPos, sym, dec, syms);
    var x := OnSymbol(h, tb, groupNo, groupPos, sym, dec);
    if x.ctl.Failed? {
      assert k == 50 * |tb.sel|;
      assert OutOfSelectors(t, h);
      NoSelectorLeft(t, h);
      FailedInBlock(x, t, h, level);
    } else {
      assert SymbolsSeen(t, h, tb, k / 50, 49 - k % 50, x.dec, syms + [sym]);
      ColumnIsSeen(x, t, level);
    }
  }

  lemma NoSelectorLeft(t: Bits, h: Head)
    requires OutOfSelectors(t, h)
    ensures RejectedBlock(t, h)
  {
    hide OutOfSelectors;
  }

  lemma TakenPush(h: Head, tb: Tables, syms: seq<Symbol>, sym: Symbol)
    requires Taken(h, tb, syms) && sym < Alpha(tb.used) - 1 && !Unfit(h, tb, syms, sym)
    ensures Taken(h, tb, syms + [sym])
    ensures var m := SeqToUnseq(tb.used);
            Fed(m, StartDecoder(), syms + [sym]) == DecoderStep(m, Fed(m, StartDecoder(), syms), sym)
  {
    hide Used, SeqToUnseq, DecoderStep, StepOk;
    assert (syms + [sym])[..|syms|] == syms;
  }

  lemma CheckSeen(t: Bits, h: Head, tb: Tables, groupNo: nat, groupPos: nat, z: Bits, dec: Decoder, syms: seq<Symbol>, level: nat)
    requires HeadOk(h) && TablesOk(tb) && groupNo < |tb.sel| && NoneBefore(tb.lens[tb.sel[groupNo]], z) && |dec.yy| == 256
    requires MinLen(tb.lens[tb.sel[groupNo]]) <= |z| <= 21 && SymbolsSeen(t, h, tb, groupNo, groupPos, dec, syms) && HeadFits(h, level)
    ensures Seen(CheckCode(h, tb, groupNo, groupPos, z, dec), t + z, level)
  {
    hide SymbolsSeen, NoneBefore, WithinCodes, OnSymbol, CodeText, LookUp, Seen, RejectedBlock;
    var len := tb.lens[tb.sel[groupNo]];
    TableInRange(tb, groupNo);
    match LookUp(len, z)
    case Found(sym) =>
      NotTooLong(len, z);
      LookUpExact(len, z, sym);
      SymbolSeen(t, h, tb, groupNo, groupPos, z, dec, sym, syms, level);
    case More =>
      NotTooLong(len, z);
      LookUpExact(len, z, 0);
      ColumnIsSeen(CheckCode(h, tb, groupNo, groupPos, z, dec), t + z, level);
    case Bad =>
      OnlyTooLong(len, z);
      NoCode(t, h, tb, groupNo, groupPos, z, dec, syms);
      FailedInBlock(CheckCode(h, tb, groupNo, groupPos, z, dec), t + z, h, level);
  }

  lemma NotTooLong(len: seq<nat>, z: Bits)
    requires LenOk(len, |len|) && 0 < |len| <= MAX_ALPHA_SIZE && LookUp(len, z) != Bad
    ensures |z| <= LONGEST_CODE
  {
  }

  lemma NoCode(t: Bits, h: Head, tb: Tables, groupNo: nat, groupPos: nat, z: Bits, dec: Decoder, syms: seq<Symbol>)
    requires TablesOk(tb) && groupNo < |tb.sel| && NoneBefore(tb.lens[tb.sel[groupNo]], z) && |z| == 21
    requires SymbolsSeen(t, h, tb, groupNo, groupPos, dec, syms)
    ensures RejectedBlock(t + z, h)
  {
    hide FrontText, SymbolsText, Taken, NoneBefore, TablesOk, BadMap, BadCounts, BadSelector, BadLength, BadSymbol, OutOfSelectors;
    var f, c :| FrontText(f, h, tb) && SymbolsText(c, tb, syms) && t == f + c;
    assert BadCode(t + z, h);
  }

  lemma FirstCodeBits(t: Bits, h: Head, tb: Tables, groupNo: nat, groupPos: nat, z: Bits, dec: Decoder, syms: seq<Symbol>, level: nat)
    requires HeadOk(h) && TablesOk(tb) && groupNo < |tb.sel| && |dec.yy| == 256 && |z| == MinLen(tb.lens[tb.sel[groupNo]])
    requires SymbolsSeen(t, h, tb, groupNo, groupPos, dec, syms) && HeadFits(h, level)
    ensures Seen(CheckCode(h, tb, groupNo, groupPos, z, dec), t + z, level)
  {
    hide SymbolsSeen, CheckCode, NoneBefore, Seen, MinLen;
    TableInRange(tb, groupNo);
    MinLenInRange(tb, groupNo);
    ShortRead(tb.lens[tb.sel[groupNo]], z);
    CheckSeen(t, h, tb, groupNo, groupPos, z, dec, syms, level);
  }

  lemma OneCodeBit(t: Bits, h: Head, tb: Tables, groupNo: nat, groupPos: nat, z: Bits, b: bool, dec: Decoder, level: nat)
    requires HeadOk(h) && CodeSeen(t, h, tb, groupNo, groupPos, z, dec) && |dec.yy| == 256 && HeadFits(h, level)
    ensures Seen(CheckCode(h, tb, groupNo, groupPos, z + [b], dec), t + [b], level)
  {
    hide SymbolsSeen, CheckCode, NoneBefore, WithinCodes, Seen, MinLen;
    var a, syms :| SymbolsSeen(a, h, tb, groupNo, groupPos, dec, syms) && t == a + z;
    ReadMore(tb.lens[tb.sel[groupNo]], z, b);
    CheckSeen(a, h, tb, groupNo, groupPos, z + [b], dec, syms, level);
    Assoc(a, z, [b]);
  }

  lemma CodeSeenNext(x: Conf, t: Bits, bs: Bits, level: nat)
    requires Ok(x) && (x.ctl.Mtf1? || x.ctl.Mtf2?) && |bs| == Need(x.ctl) && ColumnSeen(x, t) && HeadFits(x.ctl.h, level)
    ensures Seen(Handle(x, bs), t + bs, level)
  {
    hide SymbolsSeen, CheckCode, CodeSeen, Seen, MinLen, HandleCtl, TablesOk;
    match x.ctl
    case Mtf1(h, tb, groupNo, groupPos) =>
      var syms :| SymbolsSeen(t, h, tb, groupNo, groupPos, x.dec, syms);
      FirstCodeBits(t, h, tb, groupNo, groupPos, bs, x.dec, syms, level);
    case Mtf2(h, tb, groupNo, groupPos, z) =>
      assert bs == [bs[0]];
      OneCodeBit(t, h, tb, groupNo, groupPos, z, bs[0], x.dec, level);
  }

  // ----- All places.

  /** Whatever bits come, what has been taken stays the beginning of a text, until no text begins so. */
  lemma SeenNext(x: Conf, t: Bits, bs: Bits, level: nat)
    requires Ok(x) && !Stopped(x.ctl) && !x.ctl.Magic? && |bs| == Need(x.ctl) && Seen(x, t, level) && LevelOf(x.ctl) == level
    ensures Seen(Handle(x, bs), t + bs, level)
  {
    hide HeadSeen, TableSeen, ColumnSeen, Handle, HeadFits;
    if x.ctl.BlkHdr? || x.ctl.EndHdr? {
      HeaderSeenNext(x, t, bs, level);
    } else if x.ctl.BCrc? || x.ctl.CCrc? || x.ctl.RandBit? {
      WordSeenNext(x, t, bs, level);
    } else if x.ctl.OrigPtr? {
      OrigSeenNext(x, t, bs, level);
    } else if x.ctl.Mapping1? || x.ctl.Mapping2? {
      MapSeenNext(x, t, bs, level);
    } else if x.ctl.Selector1? || x.ctl.Selector2? {
      CountsSeenNext(x, t, bs, level);
    } else if x.ctl.Selector3? {
      SelectorSeenNext(x, t, bs, level);
    } else if InTables(x.ctl) {
      CodingSeenNext(x, t, bs, level);
    } else {
      CodeSeenNext(x, t, bs, level);
    }
  }

  /** The block size of the header is that of all blocks. */
  lemma LevelKept(x: Conf, bs: Bits)
    requires Ok(x) && !Stopped(x.ctl) && !x.ctl.Magic? && |bs| == Need(x.ctl)
    ensures var c := Handle(x, bs).ctl; c.End? || c.Randomised? || c.Failed? || LevelOf(c) == LevelOf(x.ctl)
  {
    hide LookUp, DecoderStep, StepOk, SeqToUnseq, Val, Used, SelDecode;
    if x.ctl.Mapping2? {
      MappingLevel(x.ctl.h, x.ctl.used16, x.ctl.used + bs);
    } else if x.ctl.Mapping1? && |x.ctl.used16| == 15 {
      MappingLevel(x.ctl.h, x.ctl.used16 + bs, []);
    }
  }

  lemma {:induction false} MappingLevel(h: Head, rows: seq<bool>, used: seq<bool>)
    requires |rows| == 16 && |used| <= 256
    ensures var c := MappingNext(h, rows, used); c.Failed? || (!c.End? && !c.Randomised? && LevelOf(c) == h.level)
    decreases 256 - |used|
  {
    if |used| < 256 && |used| % 16 == 0 && !rows[|used| / 16] {
      MappingLevel(h, rows, used + Zeros(16));
    }
  }
}
