/** How long compressed data can become: a block takes at least one byte of input, and no more bits than its tables and
    symbols can fill.
 */
module Expansion {
  import opened Bits
  import opened BlockParser
  import opened BlockPrinter
  import opened Crc
  import opened InverseBwt
  import opened MoveToFront
  import opened Rotations
  import opened RunLength
  import opened SendMtf
  import opened Stream

  /** The block takes no more bits than the room that is made for it. */
  ghost predicate IsShort(s: Block, level: nat) {
    BlockFits(s, level) && |BitsOf(s, level)| <= 105 + TablesAndSymbolsBound(|s.column| + 1)
  }

  ghost predicate AllShort(blocks: seq<Block>, level: nat) {
    forall i :: 0 <= i < |blocks| ==> IsShort(blocks[i], level)
  }

  /** Run-length coding adds at most a quarter: a count byte comes after four bytes that were written as they are. */
  lemma {:induction false} RunLengthAdds(b: seq<Byte>)
    ensures UnRle(b).cnt <= 4 && 4 * |b| + UnRle(b).cnt <= 5 * |UnRle(b).out|
  {
    if b != [] {
      RunLengthAdds(b[..|b| - 1]);
    }
  }

  /** Bits of a block that stands for `n` bytes. */
  function BlockBits(n: nat): nat {
    54_629 + 22 * n
  }

  lemma BlockAdds(s: Block, level: nat)
    requires IsShort(s, level)
    ensures 1 <= |DataOf(s)| && |BitsOf(s, level)| <= BlockBits(|DataOf(s)|)
  {
    hide BitsOf, UnRle;
    RunLengthAdds(Unsort(s));
    assert |Unsort(s)| == |s.column| > 0;
    FewBits(|s.column|, |DataOf(s)|);
  }

  lemma FewBits(c: nat, d: nat)
    requires 4 * c <= 5 * d
    ensures 105 + TablesAndSymbolsBound(c + 1) <= BlockBits(d)
  {
  }

  lemma {:induction false} BlocksAdd(blocks: seq<Block>, level: nat)
    requires BlocksFit(blocks, level) && AllShort(blocks, level)
    ensures |blocks| <= |AllData(blocks, level)|
    ensures |AllBits(blocks, level)| <= 54_629 * |blocks| + 22 * |AllData(blocks, level)|
  {
    hide IsShort, BitsOf, DataOf;
    if blocks != [] {
      var k := |blocks| - 1;
      BlocksAdd(blocks[..k], level);
      assert IsShort(blocks[k], level);
      BlockAdds(blocks[k], level);
    }
  }

  /** The most bits, header, trailer and filling included, that `n` bytes of input can lead to. */
  function MostBits(n: nat): nat {
    119 + 54_651 * n
  }

  lemma MostBitsMono(m: nat, n: nat)
    requires m <= n
    ensures 119 <= MostBits(m) <= MostBits(n)
  {
  }

  lemma StreamAdds(blocks: seq<Block>, level: nat)
    requires 1 <= level <= 9 && BlocksFit(blocks, level) && AllShort(blocks, level)
    ensures |StreamBits(blocks, level)| + 7 <= MostBits(|AllData(blocks, level)|)
    ensures |MagicBits(level) + AllBits(blocks, level)| + 87 <= MostBits(|AllData(blocks, level)|)
  {
    hide AllShort, AllData, AllBits;
    BlocksAdd(blocks, level);
  }
}
