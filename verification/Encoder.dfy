/** The compressor as an object: BZ2_bzCompress with its modes, input and output limits.

    Whatever the schedule of calls, what has been written is a stream of blocks whose data, followed by what the current
    block holds, is the input taken so far.
 */
module Encoder {
  import opened BitIO
  import opened Bits
  import opened BlockParser
  import opened BlockPrinter
  import opened Compressor
  import opened Crc
  import opened Expansion
  import opened FallbackQSort
  import opened InverseBwt
  import opened MtfEncoder
  import opened Rotations
  import opened RunLength
  import opened SendMtf
  import opened Stream
  import opened Streaming

  datatype Mode = Idle | Running | Flushing | Finishing
  datatype Action = RUN | FLUSH | FINISH
  datatype Code = InitOk | RunOk | FlushOk | FinishOk | StreamEnd | SequenceError | ParamError

  /** The bits written so far, once the header is out. */
  ghost function SoFar(blocks: seq<Block>, level: nat, started: bool): Bits
    requires 1 <= level <= 9 && BlocksFit(blocks, level)
  {
    if started then MagicBits(level) + AllBits(blocks, level) else []
  }

  lemma OneMoreBlock(blocks: seq<Block>, s: Block, level: nat, started: bool)
    requires started && 1 <= level <= 9 && BlocksFit(blocks, level) && AllShort(blocks, level) && IsShort(s, level)
    ensures BlocksFit(blocks + [s], level) && AllShort(blocks + [s], level)
    ensures SoFar(blocks + [s], level, started) == SoFar(blocks, level, started) + BitsOf(s, level)
    ensures AllData(blocks + [s], level) == AllData(blocks, level) + DataOf(s)
    ensures CombOf(blocks + [s]) == Combine(CombOf(blocks), s.h.crc)
  {
    hide MagicBits, BitsOf, DataOf, BlockFits, Combine;
    assert (blocks + [s])[..|blocks|] == blocks;
    Assoc(MagicBits(level), AllBits(blocks, level), BitsOf(s, level));
  }

  /** A block of `n` bytes has been added to those before, or nothing if there were none. */
  ghost predicate OneAdded(before: seq<Block>, after: seq<Block>, n: nat) {
    if n == 0 then after == before else |after| == |before| + 1 && before <= after && |after[|before|].column| == n
  }

  /** New blocks are full, at least 19 bytes short of the block size; only where all input to a flush or to the end has been
      taken may the last one be shorter. */
  ghost predicate CutOnlyFull(before: seq<Block>, after: seq<Block>, level: nat, drained: bool) {
    && before <= after
    && forall i :: |before| <= i < |after| ==> |after[i].column| >= 100_000 * level - 19 || (drained && i == |after| - 1)
  }

  lemma CutOne(before: seq<Block>, after: seq<Block>, level: nat, n: nat, drained: bool)
    requires OneAdded(before, after, n) && (n >= 100_000 * level - 19 || drained)
    ensures CutOnlyFull(before, after, level, drained)
  {
  }

  lemma NoneCut(blocks: seq<Block>, level: nat)
    ensures CutOnlyFull(blocks, blocks, level, false)
  {
  }

  lemma CutMore(a: seq<Block>, b: seq<Block>, c: seq<Block>, level: nat, drained: bool)
    requires CutOnlyFull(a, b, level, false) && CutOnlyFull(b, c, level, drained)
    ensures CutOnlyFull(a, c, level, drained)
  {
    forall i | |a| <= i < |b|
      ensures c[i] == b[i]
    {
    }
  }

  lemma CutWeaker(a: seq<Block>, b: seq<Block>, level: nat, drained: bool, drained': bool)
    requires CutOnlyFull(a, b, level, drained) && (drained ==> drained')
    ensures CutOnlyFull(a, b, level, drained')
  {
  }

  class EState {
    const level: nat
    const workFactor: nat
    const strm: BzStream
    const bb: BlockBuilder
    const bw: BitWriter
    const ws: Workspace
    var mode: Mode
    /** BZ_S_OUTPUT rather than BZ_S_INPUT */
    var outputting: bool
    var availInExpect: nat
    var blockNo: nat
    var combinedCRC: Word
    var stateOutPos: nat

    /** All input taken so far. */
    ghost var taken: seq<Byte>
    /** All blocks written so far. */
    ghost var blocks: seq<Block>
    /** All compressed bytes before those in the output buffer. */
    ghost var prior: seq<Byte>
    ghost var started: bool
    /** The trailer has been written. */
    ghost var closed: bool

    /** Everything but the stream record. */
    ghost function Own(): set<object> {
      {this as object, bb as object, bb.block as object, bb.inUse as object, bw as object, bw.zbits as object} + ws.Arrays()
    }

    ghost function Repr(): set<object> {
      Own() + {strm}
    }

    ghost predicate Fixed() {
      && 1 <= level <= 9 && Apart(bb, bw, ws) && ws.Fits(100_000 * level)
      && bb.nblockMAX == 100_000 * level - 19 && bw.zbits.Length == ArrayBytes(level)
    }

    /** The blocks and checksums. */
    ghost predicate BlocksOk()
      reads this`blocks, this`combinedCRC, this`started
    {
      1 <= level <= 9 && BlocksFit(blocks, level) && AllShort(blocks, level) && combinedCRC == CombOf(blocks) && (!started ==> blocks == [])
    }

    /** The input that the blocks stand for. */
    ghost function Data(): seq<Byte>
      requires BlocksOk()
      reads this`blocks, this`combinedCRC, this`started
    {
      AllData(blocks, level)
    }

    /** The compressed bytes in the buffer that have not been handed out yet come after what was sent. */
    ghost predicate BufferOk()
      requires BlocksOk()
      reads this`blocks, this`combinedCRC, this`started, this`closed, this`prior, this`stateOutPos, bw, bw.zbits
    {
      && bw.numZ <= bw.room <= bw.zbits.Length && stateOutPos <= bw.numZ
      && if closed then
           exists pad :: pad < 8 && BytesToBits(prior + bw.zbits[..bw.numZ]) == StreamBits(blocks, level) + Zeros(pad)
         else
           bw.Valid() && BytesToBits(prior) + bw.Emitted() == SoFar(blocks, level, started)
    }

    /** How many bits there are in the buffer. */
    ghost function Written(): nat
      reads bw, bw.zbits
    {
      if bw.Sound() then |bw.Emitted()| else 0
    }

    /** Between calls, and between the turns of the main loop. */
    ghost predicate Valid()
      reads this, bb, bb.block, bb.inUse, bw, bw.zbits
    {
      && Fixed() && BlocksOk() && BufferOk()
      && bb.BlockOk() && bb.nblock <= 100_000 * level - 10
      && (if outputting then
            && started && 1 <= blockNo && (bb.Valid() || bb.Flushed())
            && taken == Data() + bb.Pending()
          else
            && !closed && bb.Valid() && bb.nblock < bb.nblockMAX && bw.numZ == 0 && stateOutPos == 0
            && 1 <= blockNo && (started <==> blockNo > 1)
            && taken == Data() + bb.Taken())
      && (closed ==> outputting && bb.Flushed() && availInExpect == 0 && (mode == Finishing || mode == Idle))
      && (mode == Idle ==> closed && stateOutPos == bw.numZ)
      && (outputting && !closed && mode != Flushing ==> !bb.IsEmptyRL())
    }

    /** All compressed bytes handed out so far. */
    ghost function Sent(): seq<Byte>
      requires stateOutPos <= bw.numZ <= bw.zbits.Length
      reads this`prior, this`stateOutPos, bw, bw.zbits
    {
      prior + bw.zbits[..stateOutPos]
    }

    /** What BZ2_bzCompressInit sets up. */
    constructor (level: nat, workFactor: nat, strm: BzStream)
      requires 1 <= level <= 9
      ensures IsNew() && this.level == level && this.strm == strm && fresh(Own())
    {
      this.level := level;
      this.workFactor := if workFactor == 0 then 30 else workFactor;
      this.strm := strm;
      var bb0, bw0, ws0 := NewParts(level);
      bb, bw, ws := bb0, bw0, ws0;
      mode, outputting, availInExpect, blockNo, stateOutPos := Running, false, 0, 1, 0;
      combinedCRC := Zeros(32);
      taken, blocks, prior, started, closed := [], [], [], false, false;
    }

    static method NewParts(level: nat) returns (bb: BlockBuilder, bw: BitWriter, ws: Workspace)
      requires 1 <= level <= 9
      ensures Apart(bb, bw, ws) && ws.Fits(100_000 * level) && bb.nblockMAX == 100_000 * level - 19 && bw.zbits.Length == ArrayBytes(level)
      ensures bb.Valid() && bb.nblock == 0 && bb.Taken() == [] && bw.Valid() && bw.numZ == 0 && bw.live == []
      ensures fresh({bb as object, bb.block, bb.inUse, bw, bw.zbits} + ws.Arrays())
    {
      hide UnRle, IsRunning, Scale, Val;
      bb := new BlockBuilder(level);
      bw := new BitWriter(ArrayBytes(level));
      ws := new Workspace(level);
    }

    ghost predicate IsNew()
      reads this, bb, bb.block, bb.inUse, bw, bw.zbits
    {
      && Fixed() && bb.Valid() && bb.nblock == 0 && bb.Taken() == [] && bw.Valid() && bw.numZ == 0 && bw.live == []
      && mode == Running && !outputting && blockNo == 1 && stateOutPos == 0 && combinedCRC == Zeros(32)
      && taken == [] && blocks == [] && prior == [] && !started && !closed
    }

    lemma Initially()
      requires IsNew()
      ensures Valid() && stateOutPos <= bw.numZ <= bw.zbits.Length && Sent() == []
      ensures mode == Running && taken == []
    {
      hide Scale, Val, MagicBits, StreamBits, UnRle, IsRunning, Combine;
      assert bw.Emitted() == [];
    }

    // ----- Writing a block.

    /** The block is full or all of the input is in it, and the output buffer is empty. */
    ghost predicate Ready()
      reads this, bb, bb.block, bb.inUse, bw, bw.zbits
    {
      && Fixed() && BlocksOk() && BufferOk() && !outputting && !closed && bw.numZ == 0 && stateOutPos == 0
      && 1 <= blockNo && (started <==> blockNo > 1)
      && bb.BlockOk() && bb.nblock <= 100_000 * level - 10 && (bb.Valid() || bb.Flushed())
      && taken == Data() + bb.Taken()
    }

    /** The stream header, in front of the first block. */
    method PutHeader()
      requires Fixed() && BlocksOk() && BufferOk() && !closed && !started && blockNo == 1 && bw.numZ == 0 &&
               blocks == [] && stateOutPos == 0
      requires Written() + 32 <= 8 * bw.room
      modifies this`started, bw`bsBuff, bw`bsLive, bw`numZ, bw`live, bw.zbits
      ensures BlocksOk() && BufferOk() && started && Written() <= old(Written()) + 32 && Data() == old(Data())
    {
      hide MagicBits, AllShort, BlocksFit, CombOf, AllData, StreamBits, Scale, Val, Fixed;
      assert bw.Emitted() == [] && bw.live == [];
      bw.InitWrite();
      PutMagic(bw, level);
      started := true;
      assert BytesToBits(prior) == [] && MagicBits(level) + [] == MagicBits(level);
    }

    /** The block's own bits. */
    method PutBlock(origPtr: nat, crc: Word, ghost p: seq<int>) returns (ghost s: Block)
      requires Fixed() && BlocksOk() && bw.Valid() && bb.BlockOk() && 0 < bb.nblock <= 100_000 * level
      requires p == ws.ss.ptr[..bb.nblock] && WeaklySorted(bb.bytes, p) && origPtr < bb.nblock && p[origPtr] == 0
      requires crc == OfBytes(UnRle(bb.bytes).out)
      requires |bw.Emitted()| + 105 + TablesAndSymbolsBound(bb.nblock + 1) <= 8 * bw.room
      modifies ws.mem, ws.unseqToSeq, ws.mtfFreq, bw`bsBuff, bw`bsLive, bw`numZ, bw`live, bw.zbits
      ensures BlockFits(s, level) && IsShort(s, level) && DataOf(s) == UnRle(bb.bytes).out && s.h.crc == crc
      ensures |s.column| == bb.nblock
      ensures bw.Valid() && bw.Emitted() == old(bw.Emitted()) + BitsOf(s, level)
      ensures |bw.Emitted()| <= |old(bw.Emitted())| + 105 + TablesAndSymbolsBound(bb.nblock + 1)
    {
      hide ToBits, BlockMagic, OfBytes, UnRle, WeaklySorted, BlockBuilder.BlockOk, BlocksOk, BitsOf, BlockFits, DataOf;
      ghost var e := bw.Emitted();
      ghost var front := BlockMagic() + crc + [false] + ToBits(24, origPtr);
      PutFront(bw, crc, origPtr);
      s := PutRest(origPtr, crc, p, e, front);
    }

    method PutRest(origPtr: nat, ghost crc: Word, ghost p: seq<int>, ghost e: Bits, ghost front: Bits) returns (ghost s: Block)
      requires Fixed() && bw.Valid() && bb.BlockOk() && 0 < bb.nblock <= 100_000 * level
      requires p == ws.ss.ptr[..bb.nblock] && WeaklySorted(bb.bytes, p) && origPtr < bb.nblock && p[origPtr] == 0
      requires crc == OfBytes(UnRle(bb.bytes).out)
      requires front == BlockMagic() + crc + [false] + ToBits(24, origPtr) && bw.Emitted() == e + front
      requires |bw.Emitted()| + TablesAndSymbolsBound(bb.nblock + 1) <= 8 * bw.room
      modifies ws.mem, ws.unseqToSeq, ws.mtfFreq, bw`bsBuff, bw`bsLive, bw`numZ, bw`live, bw.zbits
      ensures BlockFits(s, level) && DataOf(s) == UnRle(bb.bytes).out && s.h.crc == crc && |s.column| == bb.nblock
      ensures bw.Valid() && bw.Emitted() == e + BitsOf(s, level)
      ensures |bw.Emitted()| <= |old(bw.Emitted())| + TablesAndSymbolsBound(bb.nblock + 1)
    {
      hide ToBits, PrintMap, PrintSelectors, PrintTables, PrintSymbols, BlockMagic, OfBytes, UnRle, Leq, IsRunning,
           CodesComplete, Coverable, BlockFits, DataOf, Scale, Val, BytesToBits, BitWriter.Sound, WellChosen;
      ghost var tb := WriteSections(bb, bw, ws, p);
      s := Block(Head(level, crc, origPtr), tb, LastColumn(bb.bytes, p));
      assert AllUsed(tb.used, bb.bytes);
      DescribedFits(s, bb.bytes, p, origPtr, crc, level, tb);
      ghost var syms := SymbolsFor(tb.used, s.column);
      Joined(e, front, PrintMap(tb.used), PrintSelectors(|tb.lens|, tb.sel), PrintTables(tb.lens, |tb.lens|), PrintSymbols(tb, syms, |syms|));
    }

    /** The block, when it is not empty, with its checksum taken into that of the stream. */
    method AddBlock(origPtr: nat, ghost p: seq<int>)
      requires Fixed() && BlocksOk() && BufferOk() && started && !closed && stateOutPos == 0 && bb.BlockOk() &&
               0 < bb.nblock <= 100_000 * level
      requires p == ws.ss.ptr[..bb.nblock] && WeaklySorted(bb.bytes, p) && origPtr < bb.nblock && p[origPtr] == 0
      requires Written() + 105 + TablesAndSymbolsBound(bb.nblock + 1) <= 8 * bw.room
      modifies this`blocks, this`combinedCRC
      modifies ws.mem, ws.unseqToSeq, ws.mtfFreq, bw`bsBuff, bw`bsLive, bw`numZ, bw`live, bw.zbits
      ensures BlocksOk() && BufferOk() && Written() <= old(Written()) + 105 + TablesAndSymbolsBound(bb.nblock + 1)
      ensures Data() == old(Data()) + UnRle(bb.bytes).out && OneAdded(old(blocks), blocks, bb.nblock)
    {
      hide SoFar, BitsOf, BlockFits, IsShort, AllShort, BlocksFit, DataOf, Combine, UnRle, AllData, CombOf,
           WeaklySorted, Update, Register, BytesToBits, Scale, Val, StreamBits;
      var crc := Final(bb.blockCRC);
      ghost var e := bw.Emitted();
      ghost var s := PutBlock(origPtr, crc, p);
      OneMoreBlock(blocks, s, level, started);
      Assoc(BytesToBits(prior), e, BitsOf(s, level));
      combinedCRC := Combine(combinedCRC, crc);
      blocks := blocks + [s];
      assert BlocksOk();
      assert BufferOk();
    }

    /** The stream trailer, and the rest of the bits. */
    method PutTrailer()
      requires Fixed() && BlocksOk() && BufferOk() && started && !closed && stateOutPos == 0 && Written() + 87 <= 8 * bw.room
      modifies this`closed, bw`bsBuff, bw`bsLive, bw`numZ, bw`live, bw.zbits
      ensures closed && BufferOk() && bw.numZ > 0
    {
      hide MagicBits, AllBits, AllShort, BlocksFit, EndMagic, ToBits, Scale, Val, BytesToBits;
      ghost var e, before := bw.Emitted(), BytesToBits(prior);
      PutEndMagic(bw);
      PutWord(bw, combinedCRC);
      ghost var pad := bw.FinishWrite();
      ghost var z := bw.zbits[..bw.numZ];
      BytesToBitsConcat(prior, z);
      FourParts(before, e, EndMagic(), combinedCRC, Zeros(pad));
      assert before + e + EndMagic() + combinedCRC + Zeros(pad) == StreamBits(blocks, level) + Zeros(pad);
      closed := true;
    }

    /** The output buffer is empty anyway. */
    method EmptyBuffer()
      requires BlocksOk() && BufferOk() && bw.numZ == 0
      modifies bw`numZ
      ensures BufferOk() && bw.numZ == 0
    {
      hide Scale, Val, SoFar, BlocksOk, StreamBits;
      bw.numZ := 0;
    }

    method SortBytes() returns (origPtr: nat)
      requires Fixed() && bb.BlockOk() && 0 < bb.nblock <= 100_000 * level - 10
      modifies ws.ss.Arrays(), bb.block
      ensures bb.BlockOk() && WeaklySorted(bb.bytes, ws.ss.ptr[..bb.nblock]) && origPtr < bb.nblock && ws.ss.ptr[origPtr] == 0
    {
      hide UnRle, IsRunning, Leq, WeaklySorted;
      origPtr := ws.ss.Sort(bb.block, bb.nblock, workFactor, bb.bytes);
    }

    /** Sorts the block; with an empty block there is nothing to sort. */
    method SortBlock() returns (origPtr: nat)
      requires Ready()
      modifies ws.ss.Arrays(), bb.block, bw`numZ
      ensures Ready() && (old(bb.Flushed()) ==> bb.Flushed())
      ensures bb.nblock > 0 ==> WeaklySorted(bb.bytes, ws.ss.ptr[..bb.nblock]) && origPtr < bb.nblock && ws.ss.ptr[origPtr] == 0
    {
      hide UnRle, IsRunning, AllData, BlocksOk, BufferOk, WeaklySorted, BlockBuilder.BlockOk;
      origPtr := 0;
      if bb.nblock > 0 {
        if blockNo > 1 {
          EmptyBuffer();
        }
        origPtr := SortBytes();
      }
    }

    /** The output area is set up and the stream header is out. */
    ghost predicate Begun()
      reads this, bb, bb.block, bb.inUse, bw, bw.zbits
    {
      && Fixed() && BlocksOk() && BufferOk() && started && !closed && stateOutPos == 0 && 1 <= blockNo
      && Written() <= 64 && bw.room == bw.zbits.Length - bb.nblock
      && bb.BlockOk() && bb.nblock <= 100_000 * level - 10 && (bb.Valid() || bb.Flushed())
      && taken == Data() + bb.Taken()
    }

    /** The output area begins behind the block. */
    method PlaceOutput()
      requires Fixed() && BlocksOk() && BufferOk() && !closed && bw.numZ == 0 && bb.nblock <= 100_000 * level - 10
      modifies bw`room
      ensures BufferOk() && Written() == old(Written()) <= 32 && Written() + 32 <= 8 * bw.room && bw.room == bw.zbits.Length - bb.nblock
    {
      hide StreamBits, SoFar, BlocksOk, Scale, Val, BytesToBits;
      BlockHasRoom(level, bb.nblock, bb.nblock + 1);
      ghost var e := bw.Emitted();
      bw.room := bw.zbits.Length - bb.nblock;
      assert bw.zbits[..0] == [];
      assert bw.Emitted() == e;
    }

    /** The first output begins with the stream header. */
    method StartOutput()
      requires Ready()
      modifies this`started, bw`room, bw`bsBuff, bw`bsLive, bw`numZ, bw`live, bw.zbits
      ensures Begun() && stateOutPos == 0 && (bb.nblock > 0 ==> ws.ss.ptr[..bb.nblock] == old(ws.ss.ptr[..bb.nblock]))
    {
      hide UnRle, BlocksOk, BufferOk, BlockBuilder.BlockOk, Written;
      PlaceOutput();
      if blockNo == 1 {
        NoBlocksYet();
        PutHeader();
      }
    }

    lemma NoBlocksYet()
      requires BlocksOk() && !started
      ensures blocks == []
    {
      hide AllShort, CombOf, BlocksFit;
    }

    lemma Compressed()
      requires Fixed() && BlocksOk() && BufferOk() && outputting && started && 1 <= blockNo && mode != Idle
      requires bb.BlockOk() && bb.nblock <= 100_000 * level - 10 && (bb.Valid() || bb.Flushed())
      requires taken == Data() + bb.Pending()
      requires closed ==> bb.Flushed() && availInExpect == 0 && mode == Finishing
      requires closed || mode == Flushing || !bb.IsEmptyRL()
      ensures Valid()
    {
      hide UnRle, IsRunning, AllData, AllBits, CombOf, BlockFits, StreamBits, MagicBits;
    }

    lemma NoBytes()
      requires bb.BlockOk()
      ensures bb.nblock == 0 ==> UnRle(bb.bytes).out == []
    {
      hide IsRunning;
      EmptyBlock(bb.bytes);
    }

    /** The block and the trailer, once the output has been started. */
    method PutAll(isLast: bool, origPtr: nat)
      requires Begun() && mode != Idle
      requires bb.nblock > 0 ==> WeaklySorted(bb.bytes, ws.ss.ptr[..bb.nblock]) && origPtr < bb.nblock && ws.ss.ptr[origPtr] == 0
      requires isLast ==> bb.Flushed() && availInExpect == 0 && mode == Finishing
      requires isLast || mode == Flushing || !bb.IsEmptyRL()
      modifies this`blocks, this`combinedCRC, this`closed, this`outputting
      modifies ws.mem, ws.unseqToSeq, ws.mtfFreq, bw`bsBuff, bw`bsLive, bw`numZ, bw`live, bw.zbits
      ensures Valid() && outputting && closed == isLast && (closed ==> bw.numZ > 0) && OneAdded(old(blocks), blocks, bb.nblock)
    {
      hide UnRle, BlocksOk, BufferOk, BlockBuilder.BlockOk, Data, Valid, Fixed, Written, OneAdded;
      PutBytes(origPtr);
      if isLast {
        PutTrailer();
      }
      outputting := true;
      Compressed();
    }

    method PutBytes(origPtr: nat)
      requires Begun()
      requires bb.nblock > 0 ==> WeaklySorted(bb.bytes, ws.ss.ptr[..bb.nblock]) && origPtr < bb.nblock && ws.ss.ptr[origPtr] == 0
      modifies this`blocks, this`combinedCRC, ws.mem, ws.unseqToSeq, ws.mtfFreq, bw`bsBuff, bw`bsLive, bw`numZ, bw`live, bw.zbits
      ensures BlocksOk() && BufferOk() && taken == Data() + bb.Pending() && Written() + 87 <= 8 * bw.room
      ensures bb.BlockOk() && OneAdded(old(blocks), blocks, bb.nblock)
    {
      hide UnRle, BlocksOk, BufferOk, BlockBuilder.BlockOk, WeaklySorted, Data;
      Regroup3(Data(), UnRle(bb.bytes).out, bb.Pending());
      NoBytes();
      BlockHasRoom(level, bb.nblock, bb.nblock + 1);
      if bb.nblock > 0 {
        AddBlock(origPtr, ws.ss.ptr[..bb.nblock]);
      }
    }

    /** BZ2_compressBlock, and the change to the output state that follows it. */
    method CompressBlock(isLast: bool)
      requires Ready() && (isLast ==> bb.Flushed() && availInExpect == 0 && mode == Finishing) && mode != Idle
      requires isLast || mode == Flushing || !bb.IsEmptyRL()
      modifies this, bb, bb.block, bb.inUse, bw, bw.zbits, ws.Arrays()
      ensures Valid() && outputting && closed == isLast && stateOutPos == 0 && (closed ==> bw.numZ > 0)
      ensures taken == old(taken) && prior == old(prior) && mode == old(mode) && availInExpect == old(availInExpect)
      ensures bb.stateInCh == old(bb.stateInCh) && bb.stateInLen == old(bb.stateInLen) && OneAdded(old(blocks), blocks, old(bb.nblock))
    {
      hide OneAdded, Valid, Ready, Begun, WeaklySorted, BlockBuilder.Valid, BlockBuilder.BlockOk;
      var origPtr := SortBlock();
      StartOutput();
      PutAll(isLast, origPtr);
    }

    // ----- Input and output.

    ghost function Now(): Mark
      requires stateOutPos <= bw.numZ <= bw.zbits.Length
      reads this, bw, bw.zbits, strm
    {
      Mark(taken, strm.nextIn, Sent(), strm.out, strm.availOut)
    }

    /** Nothing is lost or made up: input taken and input left are what was there, and what was handed out is what was
        written. */
    ghost predicate Since(k: Mark)
      reads this`taken, this`prior, this`stateOutPos, strm, bw, bw.zbits
    {
      && stateOutPos <= bw.numZ <= bw.zbits.Length
      && k.taken <= taken && taken + strm.nextIn == k.taken + k.next
      && k.out <= strm.out && Sent() == k.sent + strm.out[|k.out|..]
      && strm.availOut + |strm.out| == k.avail + |k.out|
    }

    /** The input state. */
    ghost predicate Filling()
      reads this`outputting, this`blocks, this`combinedCRC, this`started, this`closed, this`prior, this`stateOutPos, this`blockNo, this`taken
      reads bb, bb.block, bb.inUse, bw, bw.zbits
    {
      && Fixed() && BlocksOk() && BufferOk() && !outputting && !closed && bw.numZ == 0 && stateOutPos == 0
      && 1 <= blockNo && (started <==> blockNo > 1)
      && bb.Valid() && bb.nblock < bb.nblockMAX + 5
      && taken == Data() + bb.Taken()
    }

    method TakeOne()
      requires Filling() && bb.nblock < bb.nblockMAX && strm.nextIn != []
      modifies this`taken, strm`nextIn, bb`nblock, bb`bytes, bb`blockCRC, bb`stateInCh, bb`stateInLen, bb.block, bb.inUse
      ensures Filling() && taken == old(taken) + [old(strm.nextIn[0])] && strm.nextIn == old(strm.nextIn)[1..]
    {
      hide UnRle, BlocksOk, BufferOk, Data, BlockBuilder.Pending, IsRunning;
      ghost var x := strm.nextIn[0];
      Regroup3(Data(), bb.Taken(), [x]);
      bb.AddCharToBlock(strm.nextIn[0]);
      strm.nextIn := strm.nextIn[1..];
      taken := taken + [x];
    }

    method TakeCounted(ghost k: Mark)
      requires Filling() && Since(k) && (mode != Running ==> availInExpect == |strm.nextIn|)
      requires bb.nblock < bb.nblockMAX && strm.nextIn != []
      modifies this`taken, this`availInExpect, strm`nextIn
      modifies bb`nblock, bb`bytes, bb`blockCRC, bb`stateInCh, bb`stateInLen, bb.block, bb.inUse
      ensures Filling() && Since(k) && (mode != Running ==> availInExpect == |strm.nextIn|)
      ensures |strm.nextIn| == |old(strm.nextIn)| - 1
    {
      hide Filling;
      TakenOn(taken, strm.nextIn);
      TakeOne();
      if mode != Running {
        availInExpect := availInExpect - 1;
      }
    }

    /** copy_input_until_stop */
    method CopyInputUntilStop(ghost k: Mark)
      returns (progressIn: bool)
      requires Filling() && Since(k) && (mode != Running ==> availInExpect == |strm.nextIn|)
      modifies this`taken, this`availInExpect, strm`nextIn
      modifies bb`nblock, bb`bytes, bb`blockCRC, bb`stateInCh, bb`stateInLen, bb.block, bb.inUse
      ensures Filling() && Since(k) && (mode != Running ==> availInExpect == |strm.nextIn|)
      ensures bb.nblock >= bb.nblockMAX || strm.nextIn == []
      ensures |strm.nextIn| <= |old(strm.nextIn)| && (progressIn <==> |strm.nextIn| < |old(strm.nextIn)|)
      ensures !progressIn ==> bb.nblock == old(bb.nblock)
    {
      hide Filling, Since;
      progressIn := false;
      while true
        invariant Filling() && Since(k) && (mode != Running ==> availInExpect == |strm.nextIn|)
        invariant |strm.nextIn| <= |old(strm.nextIn)| && (progressIn <==> |strm.nextIn| < |old(strm.nextIn)|)
        invariant !progressIn ==> bb.nblock == old(bb.nblock)
        decreases |strm.nextIn|
      {
        if bb.nblock >= bb.nblockMAX {
          break;
        }
        if |strm.nextIn| == 0 {
          break;
        }
        if mode != Running && availInExpect == 0 {
          break;
        }
        progressIn := true;
        TakeCounted(k);
      }
    }

    /** One byte of output. */
    method SendOne(ghost k: Mark)
      requires Valid() && mode != Idle && Since(k) && strm.availOut > 0 && stateOutPos < bw.numZ
      modifies this`stateOutPos, strm`out, strm`availOut
      ensures Valid() && Since(k) && outputting && stateOutPos == old(stateOutPos) + 1
      ensures |strm.out| == |old(strm.out)| + 1 && strm.availOut == old(strm.availOut) - 1
    {
      hide Data;
      hide UnRle, IsRunning, AllData, AllBits, StreamBits, Scale, Val, BytesToBits, BlocksOk, BlockBuilder.BlockOk,
           BlockBuilder.Valid, BlockBuilder.Flushed;
      SentOn(prior, bw.zbits[..], stateOutPos, k.sent, strm.out, k.out);
      strm.out := strm.out + [bw.zbits[stateOutPos]];
      stateOutPos := stateOutPos + 1;
      strm.availOut := strm.availOut - 1;
    }

    /** copy_output_until_stop */
    method CopyOutputUntilStop(ghost k: Mark) returns (progressOut: bool)
      requires Valid() && mode != Idle && Since(k)
      modifies this`stateOutPos, strm`out, strm`availOut
      ensures Valid() && Since(k)
      ensures strm.availOut == 0 || stateOutPos == bw.numZ
      ensures |strm.out| >= |old(strm.out)| && (progressOut <==> |strm.out| > |old(strm.out)|)
      ensures !progressOut ==> stateOutPos == old(stateOutPos)
      ensures !outputting ==> stateOutPos == old(stateOutPos)
    {
      hide Valid, Since;
      progressOut := false;
      while true
        invariant Valid() && Since(k)
        invariant |strm.out| >= |old(strm.out)| && (progressOut <==> |strm.out| > |old(strm.out)|)
        invariant !progressOut ==> stateOutPos == old(stateOutPos)
        invariant !outputting ==> stateOutPos == old(stateOutPos)
        decreases strm.availOut
      {
        if strm.availOut == 0 {
          break;
        }
        if stateOutPos >= bw.numZ {
          break;
        }
        progressOut := true;
        SendOne(k);
      }
      Facts();
    }

    lemma Facts()
      requires Valid()
      ensures stateOutPos <= bw.numZ && (!outputting ==> bw.numZ == 0 && !closed)
      ensures closed ==> availInExpect == 0 && bb.IsEmptyRL() && (mode == Finishing || mode == Idle)
      ensures outputting && mode == Finishing && bb.IsEmptyRL() ==> closed
    {
      hide BlocksOk, StreamBits, SoFar, BlockBuilder.BlockOk;
    }

    // ----- The main loop.

    /** prepare_new_block */
    method PrepareNewBlock(ghost k: Mark)
      requires Valid() && outputting && !closed && stateOutPos == bw.numZ && mode != Idle && Since(k)
      modifies this`outputting, this`stateOutPos, this`blockNo, this`prior
      modifies bb`nblock, bb`bytes, bb`blockCRC, bb.inUse, bw`numZ
      ensures Valid() && !outputting && Since(k) && bb.IsEmptyRL() == old(bb.IsEmptyRL())
    {
      hide BlocksOk, BufferOk, BlockBuilder.BlockOk, Data, Filling;
      NewBuffer();
      BeginBlock();
      hide Valid;
      StillFilling();
    }

    /** The block is empty but for the pending run. */
    method BeginBlock()
      requires Fixed() && BlocksOk() && BufferOk() && !closed && bw.numZ == 0 && stateOutPos == 0 && started && 1 <= blockNo
      requires (bb.Valid() || bb.Flushed()) && taken == Data() + bb.Pending()
      modifies this`outputting, this`blockNo, bb`nblock, bb`bytes, bb`blockCRC, bb.inUse
      ensures Filling() && bb.nblock < bb.nblockMAX && !outputting && bb.IsEmptyRL() == old(bb.IsEmptyRL())
    {
      hide UnRle, BlocksOk, BufferOk, BlockBuilder.BlockOk, Data;
      Regroup3(Data(), [], bb.Pending());
      bb.PrepareNewBlock();
      EmptyBlock([]);
      blockNo := blockNo + 1;
      outputting := false;
    }

    /** The output buffer is empty again. */
    method NewBuffer()
      requires Fixed() && BlocksOk() && BufferOk() && !closed && stateOutPos == bw.numZ
      modifies this`stateOutPos, this`prior, bw`numZ
      ensures BufferOk() && bw.numZ == 0 && stateOutPos == 0 && Sent() == old(Sent())
    {
      hide Scale, Val, SoFar, AllShort, BlocksFit, CombOf, StreamBits;
      ghost var z := bw.zbits[..bw.numZ];
      BytesToBitsConcat(prior, z);
      Assoc(BytesToBits(prior), BytesToBits(z), bw.live);
      prior := prior + z;
      bw.numZ := 0;
      stateOutPos := 0;
      assert bw.zbits[..0] == [];
      assert bw.Emitted() == bw.live;
      assert prior + [] == prior;
    }

    /** All input is taken and no run is pending. */
    predicate Drained()
      reads this, bb
    {
      mode != Running && availInExpect == 0 && bb.IsEmptyRL()
    }

    /** All input is taken: the pending run goes into the block, and the block out. */
    method WriteRest()
      requires Filling() && mode != Idle && mode != Running && availInExpect == 0
      modifies Repr() - {strm}
      ensures Valid() && outputting && closed == (mode == Finishing) && stateOutPos == 0 && (closed ==> bw.numZ > 0)
      ensures taken == old(taken) && prior == old(prior) && mode == old(mode) && availInExpect == 0 && bb.IsEmptyRL()
      ensures exists n :: OneAdded(old(blocks), blocks, n)
    {
      hide UnRle, IsRunning, AllData, BlocksOk, BufferOk, BlockBuilder.BlockOk, Valid, OneAdded;
      RoomInBlock();
      bb.FlushRL();
      assert bb.Pending() == [];
      CompressBlock(mode == Finishing);
    }

    /** The block is full. */
    method WriteFull()
      requires Filling() && mode != Idle && bb.nblock >= bb.nblockMAX
      modifies Repr() - {strm}
      ensures Valid() && outputting && !closed && stateOutPos == 0
      ensures taken == old(taken) && prior == old(prior) && mode == old(mode) && availInExpect == old(availInExpect)
      ensures OneAdded(old(blocks), blocks, old(bb.nblock))
    {
      hide UnRle, IsRunning, AllData, BlocksOk, BufferOk, BlockBuilder.BlockOk, Valid, OneAdded;
      PendingInFull();
      CompressBlock(false);
    }

    lemma BlockSize()
      requires Valid()
      ensures bb.nblockMAX == 100_000 * level - 19
    {
      hide UnRle, IsRunning, AllData, BlocksOk, BufferOk;
    }

    lemma PendingInFull()
      requires Filling() && bb.nblock >= bb.nblockMAX
      ensures !bb.IsEmptyRL()
    {
      hide UnRle, IsRunning, AllData, BlocksOk, BufferOk;
    }

    lemma RoomInBlock()
      requires Filling()
      ensures bb.nblock + 5 <= bb.block.Length
    {
      hide UnRle, IsRunning, AllData, BlocksOk, BufferOk;
    }

    lemma NoneSent()
      requires Filling() || (Valid() && stateOutPos == 0)
      ensures stateOutPos <= bw.numZ <= bw.zbits.Length && Sent() == prior
    {
      hide StreamBits, SoFar, BlocksOk, BlockBuilder.BlockOk;
      assert bw.zbits[..0] == [];
    }

    /** One turn in the input state: takes input, and writes the block if it is full or the last one. */
    method InputTurn(ghost k: Mark)
      returns (progressIn: bool, waits: bool)
      requires Valid() && !outputting && mode != Idle && Since(k)
      requires mode != Running ==> availInExpect == |strm.nextIn|
      modifies Repr()
      ensures Valid() && Since(k) && mode == old(mode) && (mode != Running ==> availInExpect == |strm.nextIn|)
      ensures |strm.nextIn| <= |old(strm.nextIn)| && (progressIn <==> |strm.nextIn| < |old(strm.nextIn)|)
      ensures strm.out == old(strm.out) && strm.availOut == old(strm.availOut)
      ensures waits ==> !outputting && strm.nextIn == [] && mode == Running && blocks == old(blocks)
      ensures !waits ==> outputting && (progressIn || Drained())
      ensures !waits && mode == Finishing && availInExpect == 0 ==> closed
      ensures closed ==> stateOutPos < bw.numZ
      ensures CutOnlyFull(old(blocks), blocks, level, !waits && Drained())
    {
      hide UnRle, AllData, BlocksOk, BufferOk, BlockBuilder.BlockOk, BlockBuilder.PendingOk, Fixed, CutOnlyFull, OneAdded;
      BlockSize();
      progressIn := CopyInputUntilStop(k);
      hide Valid, Filling;
      NoneSent();
      waits := false;
      if mode != Running && availInExpect == 0 {
        WriteRest();
        NoneSent();
        ghost var n :| OneAdded(old(blocks), blocks, n);
        CutOne(old(blocks), blocks, level, n, true);
      } else if bb.nblock >= bb.nblockMAX {
        ghost var n := bb.nblock;
        WriteFull();
        NoneSent();
        CutOne(old(blocks), blocks, level, n, Drained());
      } else {
        NoneCut(blocks, level);
        assert |strm.nextIn| == 0;
        StillFilling();
        waits := true;
      }
    }

    lemma StillFilling()
      requires Filling() && bb.nblock < bb.nblockMAX && mode != Idle
      ensures Valid()
    {
      hide UnRle, AllData, BlocksOk, SoFar, StreamBits, Scale, Val, BytesToBits;
    }

    /** The output state: hands out bytes, and begins a new block when all are gone and there is something to put in it. */
    method OutputTurn(ghost k: Mark)
      returns (progressOut: bool, waits: bool)
      requires Valid() && outputting && mode != Idle && Since(k)
      modifies this`outputting, this`stateOutPos, this`blockNo, this`prior, strm`out, strm`availOut
      modifies bb`nblock, bb`bytes, bb`blockCRC, bb.inUse, bw`numZ
      ensures Valid() && Since(k)
      ensures |strm.out| >= |old(strm.out)| && (progressOut <==> |strm.out| > |old(strm.out)|)
      ensures bb.IsEmptyRL() == old(bb.IsEmptyRL())
      ensures waits ==> Satisfied()
      ensures closed && !progressOut ==> stateOutPos == old(stateOutPos) && bw.numZ == old(bw.numZ)
      ensures !waits ==> !outputting && !Drained()
    {
      hide Valid, Since, Filling, BufferOk, BlocksOk;
      progressOut := CopyOutputUntilStop(k);
      Facts();
      waits := true;
      if stateOutPos < bw.numZ {
        return;
      }
      if mode == Finishing && availInExpect == 0 && bb.IsEmptyRL() {
        return;
      }
      PrepareNewBlock(k);
      Facts();
      if mode == Flushing && availInExpect == 0 && bb.IsEmptyRL() {
        return;
      }
      waits := false;
    }

    /** The stream is complete and has been handed out. */
    ghost predicate AllSent()
      reads this, bw
    {
      closed && stateOutPos == bw.numZ
    }

    /** Why the main loop stops: no room for output, no input, or all done. */
    ghost predicate Satisfied()
      reads this, Repr()
    {
      || (outputting && stateOutPos < bw.numZ && strm.availOut == 0)
      || (mode == Running && !outputting && strm.nextIn == [])
      || (mode == Flushing && !outputting && Drained() && bw.numZ == 0)
      || (mode == Finishing && closed && Drained() && stateOutPos == bw.numZ)
    }

    lemma Rests(d: bool)
      requires d ==> Drained()
      ensures d ==> mode != Running && availInExpect == 0
    {
    }

    lemma Settled()
      requires Satisfied()
      ensures mode == Finishing ==> strm.availOut == 0 || AllSent()
    {
    }

    /** One turn of the main loop.  It waits when there is nothing to be done; otherwise it has taken input or handed out a block's
        last byte, or it has closed the stream. */
    method Turn(ghost k: Mark) returns (progressIn: bool, progressOut: bool, waits: bool, ghost d: bool)
      requires Valid() && mode != Idle && (mode != Running ==> availInExpect == |strm.nextIn|) && Since(k)
      modifies Repr()
      ensures Valid() && mode == old(mode) && (mode != Running ==> availInExpect == |strm.nextIn|) && Since(k)
      ensures |strm.nextIn| <= |old(strm.nextIn)| && |strm.out| >= |old(strm.out)|
      ensures (progressIn <==> |strm.nextIn| < |old(strm.nextIn)|) && (progressOut <==> |strm.out| > |old(strm.out)|)
      ensures AllSent() && !progressOut ==> old(AllSent())
      ensures waits ==> Satisfied()
      ensures !waits ==> outputting && (old(outputting) ==> !old(Drained())) && (progressIn || Drained())
      ensures CutOnlyFull(old(blocks), blocks, level, d) && (d ==> outputting && Drained())
      ensures waits ==> blocks == old(blocks) && (mode != Running ==> availInExpect == old(availInExpect))
    {
      hide Valid, Since, CutOnlyFull;
      NoneCut(blocks, level);
      progressIn, progressOut, waits, d := false, false, false, false;
      if outputting {
        progressOut, waits := OutputTurn(k);
      }
      if !waits {
        progressIn, waits := InputTurn(k);
        d := !waits && Drained();
      }
    }

    /** The main loop, from the state noted in `k` on. */
    method Turns(ghost k: Mark, ghost before: seq<Block>) returns (progressIn: bool, progressOut: bool)
      requires Valid() && mode != Idle && (mode != Running ==> availInExpect == |strm.nextIn|) && Since(k)
      requires k.next == strm.nextIn && k.out == strm.out && before == blocks
      modifies Repr()
      ensures Valid() && mode == old(mode) && (mode != Running ==> availInExpect == |strm.nextIn|) && Satisfied() && Since(k)
      ensures |strm.nextIn| <= |k.next| && |strm.out| >= |k.out|
      ensures (progressIn <==> |strm.nextIn| < |k.next|) && (progressOut <==> |strm.out| > |k.out|)
      ensures AllSent() && !progressOut ==> old(AllSent())
      ensures CutOnlyFull(before, blocks, level, mode != Running && availInExpect == 0)
    {
      hide Valid, Since, CutOnlyFull, Satisfied, Drained, AllSent;
      NoneCut(blocks, level);
      ghost var d := false;
      var waits := false;
      progressIn, progressOut := false, false;
      while !waits
        invariant Valid() && mode == old(mode) && (mode != Running ==> availInExpect == |strm.nextIn|)
        invariant Since(k) && (waits ==> Satisfied())
        invariant |strm.nextIn| <= |k.next| && |strm.out| >= |k.out|
        invariant (progressIn <==> |strm.nextIn| < |k.next|) && (progressOut <==> |strm.out| > |k.out|)
        invariant AllSent() && !progressOut ==> old(AllSent())
        invariant CutOnlyFull(before, blocks, level, d)
        invariant d ==> mode != Running && availInExpect == 0 && (!waits ==> outputting && Drained())
        decreases |strm.nextIn|, if waits then 0 else if !outputting then 2 else if Drained() then 1 else 3
      {
        ghost var between := blocks;
        ghost var more;
        var pIn, pOut;
        pIn, pOut, waits, more := Turn(k);
        if !waits {
          CutMore(before, between, blocks, level, more);
          d := more;
          Rests(d);
        }
        progressIn, progressOut := progressIn || pIn, progressOut || pOut;
      }
      CutWeaker(before, blocks, level, d, mode != Running && availInExpect == 0);
    }

    /** handle_compress */
    method HandleCompress() returns (progress: bool)
      requires Valid() && mode != Idle && (mode != Running ==> availInExpect == |strm.nextIn|)
      modifies Repr()
      ensures Valid() && mode == old(mode) && (mode != Running ==> availInExpect == |strm.nextIn|) && Satisfied()
      ensures Since(old(Now()))
      ensures |strm.nextIn| <= |old(strm.nextIn)| && |strm.out| >= |old(strm.out)|
      ensures progress <==> |strm.nextIn| < |old(strm.nextIn)| || |strm.out| > |old(strm.out)|
      ensures mode == Finishing && !progress ==> old(strm.availOut) == 0 || old(AllSent())
      ensures CutOnlyFull(old(blocks), blocks, level, mode != Running && availInExpect == 0)
    {
      hide Valid, Since, CutOnlyFull, Satisfied;
      NothingYet();
      ghost var k := Now();
      var progressIn, progressOut := Turns(k, blocks);
      progress := progressIn || progressOut;
      Settled();
      SinceRoom(k);
    }

    lemma SinceRoom(k: Mark)
      requires Since(k)
      ensures strm.availOut + |strm.out| == k.avail + |k.out|
    {
    }

    // ----- The interface.

    /** Everything taken has been written, and everything written has been handed out. */
    ghost predicate AllOut()
      requires BlocksOk()
      reads this, bw
    {
      taken == Data() && stateOutPos == bw.numZ
    }

    /** All input to a flush is taken and handed out. */
    ghost predicate AllFlushed()
      reads this, bb, bw, strm
    {
      strm.nextIn == [] && bb.IsEmptyRL() && stateOutPos >= bw.numZ
    }

    /** A FINISH request is in order. */
    ghost predicate MayFinish()
      reads this, bw, strm
    {
      mode == Running || (mode == Finishing && availInExpect == |strm.nextIn| && !AllSent())
    }

    /** A FLUSH request is in order. */
    ghost predicate MayFlush()
      reads this, strm
    {
      mode == Running || (mode == Flushing && availInExpect == |strm.nextIn|)
    }

    /** What has been handed out is bounded by what has been taken. */
    lemma SentBound()
      requires Valid()
      ensures stateOutPos <= bw.numZ <= bw.zbits.Length && 8 * |Sent()| <= MostBits(|taken|)
    {
      hide AllShort, BlockFits, AllData, AllBits, MostBits, StreamBits, MagicBits, UnRle, CombOf,
           BlockBuilder.BlockOk, BlockBuilder.PendingOk;
      StreamAdds(blocks, level);
      MostBitsMono(|Data()|, |taken|);
    }

    lemma RunningOpen()
      requires Valid() && mode == Running
      ensures !AllSent()
    {
      hide BlockFits, BlocksOk, BufferOk;
    }

    lemma NothingYet()
      requires Valid()
      ensures stateOutPos <= bw.numZ <= bw.zbits.Length && Since(Now())
    {
      hide BlockFits, BlocksOk, StreamBits, SoFar, Scale, Val, BytesToBits;
      assert strm.out[|strm.out|..] == [] && Sent() + [] == Sent();
    }

    method Request(action: Action)
      requires Valid() && mode == Running && action != RUN
      modifies this`mode, this`availInExpect
      ensures Valid() && mode == (if action == FLUSH then Flushing else Finishing) && availInExpect == |strm.nextIn|
    {
      hide BlocksOk, BufferOk, Data, BlockBuilder.BlockOk, BlockBuilder.PendingOk;
      availInExpect := |strm.nextIn|;
      mode := if action == FLUSH then Flushing else Finishing;
    }

    /** The flush is complete. */
    method Resume()
      requires Valid() && mode == Flushing && Satisfied() && Drained() && stateOutPos >= bw.numZ
      modifies this`mode
      ensures Valid() && mode == Running && AllOut()
    {
      hide BlockFits, AllData, UnRle, BytesToBits, Scale, Val, IsRunning, SoFar, StreamBits;
      EmptyBlock(bb.bytes);
      assert bb.Valid() && bb.stateInCh == NO_BYTE && bb.Taken() == [];
      mode := Running;
    }

    /** The stream is complete. */
    method End()
      requires Valid() && mode == Finishing && Satisfied() && Drained() && stateOutPos >= bw.numZ
      modifies this`mode
      ensures Valid() && mode == Idle && closed && AllOut()
    {
      hide BlockFits, AllData, UnRle, BytesToBits, Scale, Val, IsRunning, SoFar, StreamBits;
      assert bb.Pending() == [];
      mode := Idle;
    }

    method GoOnFlushing() returns (code: Code)
      requires Valid() && mode == Flushing && availInExpect == |strm.nextIn|
      modifies Repr()
      ensures Valid() && Since(old(Now())) && (code == RunOk || code == FlushOk)
      ensures code == RunOk ==> mode == Running && strm.nextIn == [] && AllOut()
      ensures code == FlushOk ==> mode == Flushing && availInExpect == |strm.nextIn| && strm.availOut == 0 && !AllFlushed()
      ensures CutOnlyFull(old(blocks), blocks, level, strm.nextIn == [])
    {
      hide Valid, AllOut, CutOnlyFull;
      NothingYet();
      var progress := HandleCompress();
      CutWeaker(old(blocks), blocks, level, availInExpect == 0, strm.nextIn == []);
      if availInExpect > 0 || !bb.IsEmptyRL() || stateOutPos < bw.numZ {
        return FlushOk;
      }
      Resume();
      return RunOk;
    }

    method GoOnFinishing() returns (code: Code)
      requires Valid() && mode == Finishing && availInExpect == |strm.nextIn|
      modifies Repr()
      ensures Valid() && Since(old(Now())) && (code == StreamEnd || code == FinishOk || code == SequenceError)
      ensures code == StreamEnd ==> mode == Idle && strm.nextIn == [] && closed && AllOut()
      ensures code == FinishOk ==> mode == Finishing && availInExpect == |strm.nextIn| && strm.availOut == 0 && !AllSent()
      ensures old(strm.availOut > 0 && !AllSent()) ==> code != SequenceError
      ensures code == SequenceError <==> |strm.nextIn| == |old(strm.nextIn)| && |strm.out| == |old(strm.out)|
      ensures CutOnlyFull(old(blocks), blocks, level, strm.nextIn == [])
    {
      hide Valid, AllOut, CutOnlyFull;
      NothingYet();
      var progress := HandleCompress();
      CutWeaker(old(blocks), blocks, level, availInExpect == 0, strm.nextIn == []);
      if !progress {
        return SequenceError;
      }
      if availInExpect > 0 || !bb.IsEmptyRL() || stateOutPos < bw.numZ {
        return FinishOk;
      }
      End();
      return StreamEnd;
    }

    /** BZ2_bzCompress */
    method BzCompress(action: Action) returns (code: Code)
      requires Valid()
      modifies Repr()
      ensures Valid() && Since(old(Now()))
      ensures old(mode) == Idle ==> code == SequenceError && mode == Idle
      ensures old(mode) == Running && action == RUN ==> mode == Running
      ensures old(mode) == Running && action == RUN ==>
                code == if |strm.nextIn| < |old(strm.nextIn)| || |strm.out| > |old(strm.out)| then RunOk else ParamError
      ensures code == RunOk && action == RUN ==> strm.nextIn == [] || strm.availOut == 0
      ensures code == FlushOk || code == FinishOk ==> strm.availOut == 0 && mode != Running && mode != Idle
      ensures code == RunOk && action == FLUSH ==> mode == Running && strm.nextIn == [] && AllOut()
      ensures code == StreamEnd ==> mode == Idle && strm.nextIn == [] && closed && AllOut()
      ensures code == FinishOk ==> !AllSent()
      ensures code == FlushOk ==> mode == Flushing && availInExpect == |strm.nextIn|
      ensures code == FinishOk ==> mode == Finishing && availInExpect == |strm.nextIn|
      ensures action == FLUSH && old(MayFlush()) ==> code == RunOk || code == FlushOk
      ensures action == FINISH && old(strm.availOut > 0 && MayFinish()) ==> code == StreamEnd || code == FinishOk
      ensures code == FlushOk ==> !AllFlushed()
      ensures old(mode == Flushing && (action != FLUSH || availInExpect != |strm.nextIn|)) ==>
                code == SequenceError && strm.nextIn == old(strm.nextIn) && strm.out == old(strm.out) && mode == old(mode)
      ensures old(mode == Finishing && (action != FINISH || availInExpect != |strm.nextIn|)) ==>
                code == SequenceError && strm.nextIn == old(strm.nextIn) && strm.out == old(strm.out) && mode == old(mode)
      ensures action == FINISH && old(mode == Running || (mode == Finishing && availInExpect == |strm.nextIn|)) ==>
                (code == StreamEnd || code == FinishOk || code == SequenceError)
                && (code == SequenceError <==> |strm.nextIn| == |old(strm.nextIn)| && |strm.out| == |old(strm.out)|)
      ensures CutOnlyFull(old(blocks), blocks, level, action != RUN && strm.nextIn == [])
    {
      hide Valid, AllOut, Since, CutOnlyFull;
      NoneCut(blocks, level);
      CutWeaker(blocks, blocks, level, false, action != RUN && strm.nextIn == []);
      NothingYet();
      if mode == Idle {
        return SequenceError;
      }
      if mode == Running {
        RunningOpen();
        if action == RUN {
          var progress := HandleCompress();
          CutWeaker(old(blocks), blocks, level, mode != Running && availInExpect == 0, false);
          return if progress then RunOk else ParamError;
        }
        Request(action);
      }
      if mode == Flushing {
        if action != FLUSH || availInExpect != |strm.nextIn| {
          return SequenceError;
        }
        code := GoOnFlushing();
        return;
      }
      if action != FINISH || availInExpect != |strm.nextIn| {
        return SequenceError;
      }
      code := GoOnFinishing();
    }
  }

  /** BZ2_bzCompressInit with its parameter checks. */
  method BzCompressInit(strm: BzStream, blockSize100k: int, workFactor: int) returns (code: Code, es: EState?)
    ensures es != null <==> 1 <= blockSize100k <= 9 && 0 <= workFactor <= 250
    ensures es == null ==> code == ParamError
    ensures es != null ==>
              code == InitOk && es.Valid() && es.level == blockSize100k && es.strm == strm && es.mode == Running && es.taken == []
  {
    if blockSize100k < 1 || blockSize100k > 9 || workFactor < 0 || workFactor > 250 {
      return ParamError, null;
    }
    hide EState.Valid, EState.IsNew, EState.Sent;
    es := new EState(blockSize100k, workFactor, strm);
    es.Initially();
    code := InitOk;
  }

  lemma TakenOn(taken: seq<Byte>, next: seq<Byte>)
    requires next != []
    ensures taken + [next[0]] + next[1..] == taken + next
  {
  }

  lemma SentOn(prior: seq<Byte>, z: seq<Byte>, pos: nat, sent0: seq<Byte>, out: seq<Byte>, out0: seq<Byte>)
    requires pos < |z| && out0 <= out && prior + z[..pos] == sent0 + out[|out0|..]
    ensures out0 <= out + [z[pos]] && prior + z[..pos + 1] == sent0 + (out + [z[pos]])[|out0|..]
  {
    assert z[..pos + 1] == z[..pos] + [z[pos]];
    assert (out + [z[pos]])[|out0|..] == out[|out0|..] + [z[pos]];
    assert prior + (z[..pos] + [z[pos]]) == prior + z[..pos] + [z[pos]];
  }

  lemma Regroup3(a: seq<Byte>, b: seq<Byte>, c: seq<Byte>)
    ensures a + (b + c) == a + b + c && (b == [] ==> a + b == a)
  {
  }

  lemma EmptyBlock(b: seq<Byte>)
    ensures b == [] ==> UnRle(b).out == []
  {
  }

  /** What precedes the tables of a block. */
  method PutFront(bw: BitWriter, crc: Word, origPtr: nat)
    requires bw.Valid() && |bw.Emitted()| + 105 <= 8 * bw.room && origPtr < 900_000
    modifies bw`bsBuff, bw`bsLive, bw`numZ, bw`live, bw.zbits
    ensures bw.Valid() && bw.Emitted() == old(bw.Emitted()) + (BlockMagic() + crc + [false] + ToBits(24, origPtr))
  {
    hide ToBits, BlockMagic, Pow2;
    ghost var e := bw.Emitted();
    PutBlockMagic(bw);
    PutWord(bw, crc);
    PutBit(bw, false);
    SmallOrigin(origPtr);
    bw.BsW(24, origPtr);
    FourParts(e, BlockMagic(), crc, [false], ToBits(24, origPtr));
  }

  lemma FourParts(e: Bits, a: Bits, b: Bits, c: Bits, d: Bits)
    ensures e + a + b + c + d == e + (a + b + c + d)
  {
  }

  lemma SmallOrigin(origPtr: nat)
    requires origPtr < 900_000
    ensures origPtr < Pow2(24)
  {
    Powers();
  }

  lemma Joined(e: Bits, a: Bits, b: Bits, c: Bits, d: Bits, f: Bits)
    ensures e + a + b + c + d + f == e + (a + b + c + d + f)
  {
  }
}
