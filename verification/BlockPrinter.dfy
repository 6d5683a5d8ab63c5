/** The bits that the compressor writes for a block, section by section. */
module BlockPrinter {
  import opened Bits
  import opened BlockParser
  import opened Crc
  import opened HuffmanCodes
  import opened MoveToFront
  import opened MtfEncoder
  import opened Rotations

  // ----- Fixed bytes and words.

  function MagicBits(level: nat): (r: Bits)
    requires 1 <= level <= 9
    ensures |r| == 32
  {
    ByteBits(0x42) + ByteBits(0x5a) + ByteBits(0x68) + ByteBits(0x30 + level)
  }

  function BlockMagic(): (r: Bits)
    ensures |r| == 48
  {
    ByteBits(0x31) + ByteBits(0x41) + ByteBits(0x59) + ByteBits(0x26) + ByteBits(0x53) + ByteBits(0x59)
  }

  function EndMagic(): (r: Bits)
    ensures |r| == 48
  {
    ByteBits(0x17) + ByteBits(0x72) + ByteBits(0x45) + ByteBits(0x38) + ByteBits(0x50) + ByteBits(0x90)
  }

  lemma ByteVal(x: nat)
    requires x < 256
    ensures |ByteBits(x)| == 8 && Val(ByteBits(x)) == x
  {
    Powers();
    ValToBits(8, x);
  }

  lemma BitsLead(x: Conf, bs: Bits, y: Conf)
    requires Ok(x) && !Stopped(x.ctl) && Need(x.ctl) == |bs| && Handle(x, bs) == y
    ensures Leads(x, bs, y) && Ok(y)
  {
    LeadsOne(x, bs);
  }

  /** ... after what led to `x`. */
  lemma ThenBits(w: Conf, a: Bits, x: Conf, bs: Bits, y: Conf)
    requires Leads(w, a, x) && Ok(x) && !Stopped(x.ctl) && Need(x.ctl) == |bs| && Handle(x, bs) == y
    ensures Leads(w, a + bs, y) && Ok(y)
  {
    LeadsOne(x, bs);
    LeadsThen(w, a, x, bs, y);
  }

  lemma Stays(x: Conf)
    requires Ok(x)
    ensures Leads(x, [], x)
  {
  }

  function MagicPart(k: nat): Bits
    requires k <= 3
  {
    if k == 0 then [] else MagicPart(k - 1) + ByteBits(MagicByte(k - 1))
  }

  lemma {:induction false} MagicPartLeads(k: nat, dec: Decoder)
    requires |dec.yy| == 256 && k <= 3
    ensures Leads(Conf(Magic(0), dec), MagicPart(k), Conf(Magic(k), dec))
    decreases k
  {
    hide ToBits, Val, Scale;
    if k > 0 {
      MagicPartLeads(k - 1, dec);
      ByteVal(MagicByte(k - 1));
      ThenBits(Conf(Magic(0), dec), MagicPart(k - 1), Conf(Magic(k - 1), dec), ByteBits(MagicByte(k - 1)), Conf(Magic(k), dec));
    }
  }

  lemma MagicLeads(level: nat, dec: Decoder)
    requires 1 <= level <= 9 && |dec.yy| == 256
    ensures Leads(Conf(Magic(0), dec), MagicBits(level), Conf(BlkHdr(level, 0), dec))
  {
    hide ToBits, Val, Scale;
    var x, y, z := Conf(Magic(0), dec), Conf(Magic(3), dec), Conf(BlkHdr(level, 0), dec);
    MagicPartLeads(3, dec);
    ByteVal(0x30 + level);
    ThenBits(x, MagicPart(3), y, ByteBits(0x30 + level), z);
    assert MagicPart(1) == ByteBits(0x42);
  }

  /** The first `k` bytes of the block magic. */
  function BlockMagicPart(k: nat): Bits
    requires k <= 6
  {
    if k == 0 then [] else BlockMagicPart(k - 1) + ByteBits(BlockByte(k - 1))
  }

  lemma {:induction false} BlockMagicPartLeads(level: nat, k: nat, dec: Decoder)
    requires 1 <= level <= 9 && |dec.yy| == 256 && k < 6
    ensures Leads(Conf(BlkHdr(level, 0), dec), BlockMagicPart(k), Conf(BlkHdr(level, k), dec))
    decreases k
  {
    hide ToBits, Val, Scale;
    var x := Conf(BlkHdr(level, 0), dec);
    if k > 0 {
      BlockMagicPartLeads(level, k - 1, dec);
      ByteVal(BlockByte(k - 1));
      ThenBits(x, BlockMagicPart(k - 1), Conf(BlkHdr(level, k - 1), dec), ByteBits(BlockByte(k - 1)), Conf(BlkHdr(level, k), dec));
    }
  }

  lemma BlockMagicLeads(level: nat, dec: Decoder)
    requires 1 <= level <= 9 && |dec.yy| == 256
    ensures Leads(Conf(BlkHdr(level, 0), dec), BlockMagic(), Conf(BCrc(level, []), dec))
  {
    hide ToBits, Val, Scale;
    var x, y, z := Conf(BlkHdr(level, 0), dec), Conf(BlkHdr(level, 5), dec), Conf(BCrc(level, []), dec);
    BlockMagicPartLeads(level, 5, dec);
    ByteVal(BlockByte(5));
    ThenBits(x, BlockMagicPart(5), y, ByteBits(BlockByte(5)), z);
    var a := BlockMagicPart(1);
    assert a == ByteBits(0x31);
    assert BlockMagicPart(2) == a + ByteBits(0x41);
    assert BlockMagicPart(3) == a + ByteBits(0x41) + ByteBits(0x59);
  }

  function EndMagicPart(k: nat): Bits
    requires k <= 6
  {
    if k == 0 then [] else EndMagicPart(k - 1) + ByteBits(EndByte(k - 1))
  }

  lemma {:induction false} EndMagicPartLeads(level: nat, k: nat, dec: Decoder)
    requires 1 <= level <= 9 && |dec.yy| == 256 && 1 <= k < 6
    ensures Leads(Conf(BlkHdr(level, 0), dec), EndMagicPart(k), Conf(EndHdr(level, k), dec))
    decreases k
  {
    hide ToBits, Val, Scale, Leads, CtlOk, ByteBits;
    var x := Conf(BlkHdr(level, 0), dec);
    if k == 1 {
      ByteVal(EndByte(0));
      BitsLead(x, ByteBits(EndByte(0)), Conf(EndHdr(level, 1), dec));
      assert EndMagicPart(1) == ByteBits(EndByte(0));
    } else {
      EndMagicPartLeads(level, k - 1, dec);
      ByteVal(EndByte(k - 1));
      ThenBits(x, EndMagicPart(k - 1), Conf(EndHdr(level, k - 1), dec), ByteBits(EndByte(k - 1)), Conf(EndHdr(level, k), dec));
    }
  }

  lemma EndMagicLeads(level: nat, dec: Decoder)
    requires 1 <= level <= 9 && |dec.yy| == 256
    ensures Leads(Conf(BlkHdr(level, 0), dec), EndMagic(), Conf(CCrc(level, []), dec))
  {
    hide ToBits, Val, Scale;
    var x, y, z := Conf(BlkHdr(level, 0), dec), Conf(EndHdr(level, 5), dec), Conf(CCrc(level, []), dec);
    EndMagicPartLeads(level, 5, dec);
    ByteVal(EndByte(5));
    ThenBits(x, EndMagicPart(5), y, ByteBits(EndByte(5)), z);
    var a := EndMagicPart(1);
    assert a == ByteBits(0x17);
    assert EndMagicPart(2) == a + ByteBits(0x72);
    assert EndMagicPart(3) == a + ByteBits(0x72) + ByteBits(0x45);
  }

  lemma WordBytes(w: Word)
    ensures w == w[..8] + w[8..16] + w[16..24] + w[24..]
    ensures w[..8] + w[8..16] == w[..16] && w[..16] + w[16..24] == w[..24] && w[..24] + w[24..] == w
  {
  }

  lemma BlockCrcLeads(level: nat, crc: Word, dec: Decoder)
    requires 1 <= level <= 9 && |dec.yy| == 256
    ensures Leads(Conf(BCrc(level, []), dec), crc, Conf(RandBit(level, crc), dec))
  {
    hide ToBits, Val, Scale;
    WordBytes(crc);
    assert [] + crc[..8] == crc[..8];
    var x0, x1, x2, x3 := Conf(BCrc(level, []), dec), Conf(BCrc(level, crc[..8]), dec), Conf(BCrc(level, crc[..16]), dec), Conf(BCrc(level, crc[..24]), dec);
    var x4 := Conf(RandBit(level, crc), dec);
    BitsLead(x0, crc[..8], x1);
    ThenBits(x0, crc[..8], x1, crc[8..16], x2);
    ThenBits(x0, crc[..8] + crc[8..16], x2, crc[16..24], x3);
    ThenBits(x0, crc[..8] + crc[8..16] + crc[16..24], x3, crc[24..], x4);
  }

  lemma CombinedCrcLeads(level: nat, crc: Word, dec: Decoder)
    requires 1 <= level <= 9 && |dec.yy| == 256
    ensures Leads(Conf(CCrc(level, []), dec), crc, Conf(End(crc), dec))
  {
    hide ToBits, Val, Scale;
    WordBytes(crc);
    assert [] + crc[..8] == crc[..8];
    var x0, x1, x2, x3 := Conf(CCrc(level, []), dec), Conf(CCrc(level, crc[..8]), dec), Conf(CCrc(level, crc[..16]), dec), Conf(CCrc(level, crc[..24]), dec);
    var x4 := Conf(End(crc), dec);
    BitsLead(x0, crc[..8], x1);
    ThenBits(x0, crc[..8], x1, crc[8..16], x2);
    ThenBits(x0, crc[..8] + crc[8..16], x2, crc[16..24], x3);
    ThenBits(x0, crc[..8] + crc[8..16] + crc[16..24], x3, crc[24..], x4);
  }

  lemma OrigPtrLeads(level: nat, crc: Word, v: nat, dec: Decoder)
    requires 1 <= level <= 9 && |dec.yy| == 256 && v < 0x100_0000
    ensures Val(ToBits(24, v)) == v
    ensures Leads(Conf(OrigPtr(level, crc, []), dec), ToBits(24, v), Conf(HandleOrigPtr(level, crc, ToBits(24, v)), dec))
  {
    var b := ToBits(24, v);
    assert Val(b) == v by {
      Powers();
      ValToBits(24, v);
    }
    hide ToBits, Val;
    assert [] + b[..8] == b[..8] && b[..8] + b[8..16] == b[..16] && b[..16] + b[16..] == b;
    var x0, x1, x2 := Conf(OrigPtr(level, crc, []), dec), Conf(OrigPtr(level, crc, b[..8]), dec), Conf(OrigPtr(level, crc, b[..16]), dec);
    var x3 := Conf(HandleOrigPtr(level, crc, b), dec);
    BitsLead(x0, b[..8], x1);
    ThenBits(x0, b[..8], x1, b[8..16], x2);
    ThenBits(x0, b[..8] + b[8..16], x2, b[16..], x3);
  }

  // ----- The mapping table.

  /** Whether any of the sixteen bytes of group `i` is in use. */
  function GroupUsed(used: seq<bool>, i: nat): bool
    requires |used| == 256 && i < 16
  {
    true in used[16 * i..16 * i + 16]
  }

  function Map16(used: seq<bool>): (r: seq<bool>)
    requires |used| == 256
    ensures |r| == 16
  {
    seq(16, i requires 0 <= i < 16 => GroupUsed(used, i))
  }

  /** The rows of the first `k` groups; groups not in use have none. */
  function MapRows(used: seq<bool>, k: nat): Bits
    requires |used| == 256 && k <= 16
  {
    if k == 0 then [] else MapRows(used, k - 1) + if GroupUsed(used, k - 1) then used[16 * (k - 1)..16 * k] else []
  }

  function PrintMap(used: seq<bool>): Bits
    requires |used| == 256
  {
    Map16(used) + MapRows(used, 16)
  }

  // ----- The selectors.

  function Unary(v: nat): Bits {
    Ones(v) + [false]
  }

  function UnaryAll(vals: seq<nat>, k: nat): Bits
    requires k <= |vals|
  {
    if k == 0 then [] else UnaryAll(vals, k - 1) + Unary(vals[k - 1])
  }

  /** Selectors as positions in a list of the tables, which are moved to the front. */
  function SelEncode(order: seq<nat>, sel: seq<nat>): (r: seq<nat>)
    requires forall i :: 0 <= i < |sel| ==> sel[i] in order
    ensures |r| == |sel| && forall i :: 0 <= i < |r| ==> r[i] < |order|
    decreases |sel|
  {
    if sel == [] then []
    else
      var j := Pos(order, sel[0]);
      SelStillIn(order, j, sel[1..]);
      [j] + SelEncode(MoveFront(order, j), sel[1..])
  }

  lemma SelStillIn(order: seq<nat>, j: nat, sel: seq<nat>)
    requires j < |order| && forall i :: 0 <= i < |sel| ==> sel[i] in order
    ensures forall i :: 0 <= i < |sel| ==> sel[i] in MoveFront(order, j)
  {
    forall i | 0 <= i < |sel|
      ensures sel[i] in MoveFront(order, j)
    {
      MoveFrontMember(order, j, sel[i]);
    }
  }

  /** Undoing the positions. */
  lemma {:induction false} SelInversion(order: seq<nat>, sel: seq<nat>)
    requires forall i :: 0 <= i < |sel| ==> sel[i] in order
    ensures SelDecode(order, SelEncode(order, sel)) == sel
    decreases |sel|
  {
    if sel != [] {
      var j := Pos(order, sel[0]);
      SelStillIn(order, j, sel[1..]);
      SelInversion(MoveFront(order, j), sel[1..]);
      assert SelEncode(order, sel)[1..] == SelEncode(MoveFront(order, j), sel[1..]);
    }
  }

  lemma SelInGroups(sel: seq<nat>, nGroups: nat)
    requires forall i :: 0 <= i < |sel| ==> sel[i] < nGroups
    ensures forall i :: 0 <= i < |sel| ==> sel[i] in Groups(nGroups)
  {
    forall i | 0 <= i < |sel|
      ensures sel[i] in Groups(nGroups)
    {
      assert Groups(nGroups)[sel[i]] == sel[i];
    }
  }

  function PrintSelectors(nGroups: nat, sel: seq<nat>): Bits
    requires forall i :: 0 <= i < |sel| ==> sel[i] < nGroups
  {
    SelInGroups(sel, nGroups);
    ToBits(3, nGroups) + ToBits(15, |sel|) + UnaryAll(SelEncode(Groups(nGroups), sel), |sel|)
  }

  // ----- The coding tables.

  /** From one length to the next in steps of one: 10 up, 11 down, 0 done. */
  function Delta(curr: nat, l: nat): Bits
    decreases if curr < l then l - curr else curr - l
  {
    if curr < l then [true, false] + Delta(curr + 1, l)
    else if curr > l then [true, true] + Delta(curr - 1, l)
    else [false]
  }

  /** The first length, and the steps to the first `k` lengths. */
  function TablePart(len: seq<nat>, k: nat): Bits
    requires 0 < |len| && k <= |len|
  {
    if k == 0 then ToBits(5, len[0]) else TablePart(len, k - 1) + Delta(if k == 1 then len[0] else len[k - 2], len[k - 1])
  }

  function PrintTables(lens: seq<seq<nat>>, k: nat): Bits
    requires k <= |lens| && forall t :: 0 <= t < |lens| ==> 0 < |lens[t]|
  {
    if k == 0 then [] else PrintTables(lens, k - 1) + TablePart(lens[k - 1], |lens[k - 1]|)
  }

  // ----- The symbols.

  ghost predicate CodesComplete(tb: Tables) {
    forall t :: 0 <= t < |tb.lens| ==> Decodable(tb.lens[t])
  }

  /** The code lengths that symbol number `k` of the block is coded with. */
  function LensAt(tb: Tables, k: nat): seq<nat>
    requires k / G_SIZE < |tb.sel| && forall i :: 0 <= i < |tb.sel| ==> tb.sel[i] < |tb.lens|
  {
    tb.lens[tb.sel[k / G_SIZE]]
  }

  /** There is a selector for every fifty symbols, and every symbol has a code. */
  ghost predicate Coverable(tb: Tables, syms: seq<Symbol>) {
    && TablesOk(tb) && (|syms| + G_SIZE - 1) / G_SIZE <= |tb.sel|
    && forall k :: 0 <= k < |syms| ==> syms[k] < Alpha(tb.used)
  }

  lemma GroupOf(tb: Tables, syms: seq<Symbol>, k: nat)
    requires Coverable(tb, syms) && k < |syms|
    ensures k / G_SIZE < |tb.sel| && LenOk(LensAt(tb, k), Alpha(tb.used))
  {
  }

  /** The codes of the first `k` symbols. */
  ghost function PrintSymbols(tb: Tables, syms: seq<Symbol>, k: nat): Bits
    requires Coverable(tb, syms) && k <= |syms|
  {
    if k == 0 then []
    else
      GroupOf(tb, syms, k - 1);
      PrintSymbols(tb, syms, k - 1) + CodeBits(LensAt(tb, k - 1), syms[k - 1])
  }

  lemma NextInGroup(k: nat)
    requires k > 0
    ensures (k - 1) % G_SIZE == G_SIZE - 1 ==> k / G_SIZE == (k - 1) / G_SIZE + 1 && k % G_SIZE == 0
    ensures (k - 1) % G_SIZE != G_SIZE - 1 ==> k / G_SIZE == (k - 1) / G_SIZE && k % G_SIZE == (k - 1) % G_SIZE + 1
  {
  }

  // ----- A whole block.

  /** The symbols of the column `column`. */
  ghost function SymbolsFor(used: seq<bool>, column: seq<Byte>): (syms: seq<Symbol>)
    requires AllUsed(used, column)
    ensures 1 <= |syms| <= |column| + 1
  {
    SeqsArePositions(used, column);
    MtfSymbols(Used(used, 256), Seqs(used, column))
  }

  ghost predicate BlockOk(h: Head, tb: Tables, column: seq<Byte>) {
    && HeadOk(h) && TablesOk(tb) && CodesComplete(tb) && AllUsed(tb.used, column)
    && h.orig < |column| <= 100_000 * h.level
    && Coverable(tb, SymbolsFor(tb.used, column))
  }

  /** Decoding the symbols gives back the column. */
  lemma SymbolsDecode(used: seq<bool>, column: seq<Byte>, max: nat)
    requires AllUsed(used, column) && 0 < Used(used, 256) && |column| <= max <= 900_000
    ensures var syms, m := SymbolsFor(used, column), SeqToUnseq(used);
            var k := |syms| - 1;
            && syms[k] == Alpha(used) - 1 && (forall i :: 0 <= i < k ==> syms[i] < Alpha(used) - 1)
            && FedOk(m, StartDecoder(), syms[..k], max)
            && Flushed(m, Fed(m, StartDecoder(), syms[..k])).out == column
  {
    var n, ll, syms, m := Used(used, 256), Seqs(used, column), SymbolsFor(used, column), SeqToUnseq(used);
    SeqsArePositions(used, column);
    MtfInversion(m, n, ll, max);
    BytesOfSeqs(used, m, column);
    EndComesLast(n, ll);
    var k := |syms| - 1;
    forall i | 0 <= i < k
      ensures syms[i] < Alpha(used) - 1
    {
      assert syms[i] == syms[..k][i];
    }
  }

  /** A block: everything from its magic number to its last symbol. */
  ghost function PrintBlock(h: Head, tb: Tables, column: seq<Byte>): Bits
    requires BlockOk(h, tb, column)
  {
    assert forall t :: 0 <= t < |tb.lens| ==> LenOk(tb.lens[t], Alpha(tb.used));
    var syms := SymbolsFor(tb.used, column);
    BlockMagic() + h.crc + [false] + ToBits(24, h.orig) + PrintMap(tb.used) + PrintSelectors(|tb.lens|, tb.sel)
    + PrintTables(tb.lens, |tb.lens|) + PrintSymbols(tb, syms, |syms|)
  }

}
