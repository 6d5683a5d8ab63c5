/** Compressed streams as a whole: a header, blocks, and a trailer with the combined checksum.  The machine takes
    every such stream to its end, having written the data of all blocks.
 */
module Stream {
  import opened Bits
  import opened BlockParser
  import opened BlockPrinter
  import opened Crc
  import opened Format
  import opened FormatLeads
  import opened FormatPrinted
  import opened InverseBwt
  import opened MoveToFront
  import opened OutputStage
  import opened Rotations
  import opened RunLength
  import opened StreamMachine

  /** All choices made for one block. */
  datatype Block = Block(h: Head, tb: Tables, column: seq<Byte>)

  /** The block before sorting. */
  ghost function Unsort(s: Block): (b: seq<Byte>)
    requires s.h.orig < |s.column|
  {
    Unsorted(s.column, s.h.orig)
  }

  /** The input bytes the block stands for. */
  ghost function DataOf(s: Block): seq<Byte>
    requires s.h.orig < |s.column|
  {
    UnRle(Unsort(s)).out
  }

  ghost predicate BlockFits(s: Block, level: nat) {
    && BlockPrinter.BlockOk(s.h, s.tb, s.column) && s.h.level == level
    && Complete(Unsort(s)) && s.h.crc == OfBytes(DataOf(s))
  }

  ghost function BitsOf(s: Block, level: nat): Bits
    requires BlockFits(s, level)
  {
    PrintBlock(s.h, s.tb, s.column)
  }

  ghost predicate BlocksFit(blocks: seq<Block>, level: nat) {
    forall i :: 0 <= i < |blocks| ==> BlockFits(blocks[i], level)
  }

  ghost function AllData(blocks: seq<Block>, level: nat): seq<Byte>
    requires BlocksFit(blocks, level)
  {
    if blocks == [] then [] else AllData(blocks[..|blocks| - 1], level) + DataOf(blocks[|blocks| - 1])
  }

  ghost function AllBits(blocks: seq<Block>, level: nat): Bits
    requires BlocksFit(blocks, level)
  {
    if blocks == [] then []
    else
      AllBits(blocks[..|blocks| - 1], level) + BitsOf(blocks[|blocks| - 1], level)
  }

  ghost function CombOf(blocks: seq<Block>): Word {
    if blocks == [] then Zeros(32) else Combine(CombOf(blocks[..|blocks| - 1]), blocks[|blocks| - 1].h.crc)
  }

  ghost function StreamBits(blocks: seq<Block>, level: nat): Bits
    requires 1 <= level <= 9 && BlocksFit(blocks, level)
  {
    MagicBits(level) + AllBits(blocks, level) + EndMagic() + CombOf(blocks)
  }

  // ----- Decoding.

  /** Between blocks. */
  ghost predicate Between(m: Machine, level: nat, comb: Word, out: seq<Byte>) {
    MachineOk(m) && m.x.ctl == BlkHdr(level, 0) && m.comb == comb && m.out == out
  }

  /** Any text of an intact block. */
  lemma TextGoes(m: Machine, t: Bits, h: Head, tb: Tables, column: seq<Byte>, rest: Bits) returns (k: nat, m': Machine)
    requires BlockText(t, h, tb, column) && MachineOk(m) && m.x.ctl == BlkHdr(h.level, 0)
    requires Complete(Unsorted(column, h.orig)) && h.crc == OfBytes(UnRle(Unsorted(column, h.orig)).out)
    ensures Goes(State(m, t + rest), k, State(m', rest))
    ensures Between(m', h.level, Combine(m.comb, h.crc), m.out + UnRle(Unsorted(column, h.orig)).out)
  {
    hide Goes, BlockText, Combine, OfBytes, UnRle, Unsorted, Complete, Parse;
    var dec := BlockLeads(t, h, tb, column, m.x.dec);
    var y := Conf(Output(h, column), dec);
    assert m.x == Conf(BlkHdr(h.level, 0), m.x.dec);
    var k1 := ParserGoes(m, t, y, rest);
    var n := Parsed(m, y);
    GoesOk(State(m, t + rest), k1, State(n, rest));
    var k2, n2 := OutputGoes(n, h, column, rest);
    GoesThen(State(m, t + rest), k1, State(n, rest), k2, State(n2, rest));
    k, m' := k1 + k2, n2;
  }

  lemma OneBlockGoes(m: Machine, s: Block, level: nat, rest: Bits) returns (k: nat, m': Machine)
    requires BlockFits(s, level) && MachineOk(m) && m.x.ctl == BlkHdr(level, 0)
    ensures Goes(State(m, BitsOf(s, level) + rest), k, State(m', rest))
    ensures Between(m', level, Combine(m.comb, s.h.crc), m.out + DataOf(s))
  {
    hide Goes, PrintBlock, BlockText, Combine, OfBytes, UnRle, Unsorted, Complete;
    PrintedBlock(s.h, s.tb, s.column);
    k, m' := TextGoes(m, PrintBlock(s.h, s.tb, s.column), s.h, s.tb, s.column, rest);
  }

  lemma {:induction false} BlocksGo(m: Machine, blocks: seq<Block>, level: nat, rest: Bits) returns (k: nat, m': Machine)
    requires BlocksFit(blocks, level) && Between(m, level, Zeros(32), [])
    ensures Goes(State(m, AllBits(blocks, level) + rest), k, State(m', rest))
    ensures Between(m', level, CombOf(blocks), AllData(blocks, level))
    decreases |blocks|
  {
    hide Goes, BitsOf, Combine, DataOf, BlockFits, MachineOk;
    if blocks == [] {
      k, m' := 0, m;
      assert [] + rest == rest;
      GoesNowhere(State(m, rest));
    } else {
      var j := |blocks| - 1;
      var s := blocks[j];
      var bs := BitsOf(s, level);
      var k1, n := BlocksGo(m, blocks[..j], level, bs + rest);
      var k2, n2 := OneBlockGoes(n, s, level, rest);
      var a := AllBits(blocks[..j], level);
      assert a + (bs + rest) == a + bs + rest;
      GoesThen(State(m, a + bs + rest), k1, State(n, bs + rest), k2, State(n2, rest));
      k, m' := k1 + k2, n2;
    }
  }

  /** The end of a stream: all data written, and the stored combined checksum is the computed one. */
  ghost predicate Finished(m: Machine, data: seq<Byte>) {
    MachineOk(m) && m.x.ctl.End? && m.x.ctl.stored == m.comb && m.out == data
  }

  lemma HeaderGoes(level: nat, rest: Bits) returns (k: nat, m: Machine)
    requires 1 <= level <= 9
    ensures MachineOk(StartMachine()) && Goes(State(StartMachine(), MagicBits(level) + rest), k, State(m, rest))
    ensures Between(m, level, Zeros(32), [])
  {
    hide Goes, Parse, MagicBits;
    var s := StartMachine();
    MagicLeads(level, s.x.dec);
    var y := Conf(BlkHdr(level, 0), s.x.dec);
    k := ParserGoes(s, MagicBits(level), y, rest);
    m := Parsed(s, y);
  }

  lemma TrailerGoes(m: Machine, level: nat, comb: Word, data: seq<Byte>, rest: Bits) returns (k: nat, m': Machine)
    requires 1 <= level <= 9 && Between(m, level, comb, data)
    ensures Goes(State(m, EndMagic() + comb + rest), k, State(m', rest)) && Finished(m', data) && m'.comb == comb
  {
    hide Goes, Parse, EndMagic;
    EndMagicLeads(level, m.x.dec);
    CombinedCrcLeads(level, comb, m.x.dec);
    var x, y, z := Conf(BlkHdr(level, 0), m.x.dec), Conf(CCrc(level, []), m.x.dec), Conf(End(comb), m.x.dec);
    assert m.x == x;
    LeadsThen(x, EndMagic(), y, comb, z);
    k := ParserGoes(m, EndMagic() + comb, z, rest);
    m' := Parsed(m, z);
  }

  lemma Nested(a: Bits, b: Bits, c: Bits, d: Bits, e: Bits)
    ensures a + b + c + d + e == a + (b + (c + d + e))
  {
  }

  /** Whatever blocks a stream consists of, the machine comes to its end with exactly their data. */
  lemma StreamGoes(blocks: seq<Block>, level: nat, pad: Bits) returns (k: nat, m: Machine)
    requires 1 <= level <= 9 && BlocksFit(blocks, level)
    ensures MachineOk(StartMachine()) && Goes(State(StartMachine(), StreamBits(blocks, level) + pad), k, State(m, pad))
    ensures Finished(m, AllData(blocks, level))
  {
    hide Goes, MagicBits, EndMagic, AllBits, AllData, CombOf, Between;
    var a, b, c, d := MagicBits(level), AllBits(blocks, level), EndMagic(), CombOf(blocks);
    Nested(a, b, c, d, pad);
    var k1, m1 := HeaderGoes(level, b + (c + d + pad));
    var k2, m2 := BlocksGo(m1, blocks, level, c + d + pad);
    var k3, m3 := TrailerGoes(m2, level, d, AllData(blocks, level), pad);
    BetweenOk(m1, level);
    BetweenOk(m2, level);
    GoesThen(State(m1, b + (c + d + pad)), k2, State(m2, c + d + pad), k3, State(m3, pad));
    GoesThen(State(StartMachine(), a + (b + (c + d + pad))), k1, State(m1, b + (c + d + pad)), k2 + k3, State(m3, pad));
    k, m := k1 + (k2 + k3), m3;
  }

  lemma BetweenOk(m: Machine, level: nat)
    ensures forall comb, out :: Between(m, level, comb, out) ==> MachineOk(m)
  {
  }
}
