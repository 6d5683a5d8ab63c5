/** Blocks and their parts as bits: room for a block, the fixed fields, and the sections of a sorted block. */
module Compressor {
  import opened BitIO
  import opened Bits
  import opened BlockParser
  import opened BlockPrinter
  import opened BlockSort
  import opened Crc
  import opened FallbackQSort
  import opened InverseBwt
  import opened MoveToFront
  import opened MtfEncoder
  import opened Permutations
  import opened Rotations
  import opened RunLength
  import opened SendMtf
  import opened SmallDecoder
  import opened Stream
  import opened TableChoice

  // ----- Room for a block.

  /** Bytes of the second large array: a block, and behind it the compressed data. */
  function ArrayBytes(level: nat): nat {
    4 * (100_000 * level + 34)
  }

  /** Bits of a block besides its tables and symbols, with stream header and trailer and what was left in the buffer. */
  const FRAME_BITS := 32 + 32 + 105 + 80 + 7

  /** A block's compressed bits fit behind the block. */
  lemma BlockHasRoom(level: nat, nblock: nat, nMTF: nat)
    requires 1 <= level <= 9 && nblock <= 100_000 * level - 10 && nMTF <= nblock + 1
    ensures FRAME_BITS + TablesAndSymbolsBound(nMTF) <= 8 * (ArrayBytes(level) - nblock)
  {
  }

  // ----- One block.

  method PutWord(bw: BitWriter, w: Word)
    requires bw.Valid() && |bw.Emitted()| + 32 <= 8 * bw.room
    modifies bw`bsBuff, bw`bsLive, bw`numZ, bw`live, bw.zbits
    ensures bw.Valid() && bw.Emitted() == old(bw.Emitted()) + w
  {
    hide ToBits, Val;
    ghost var e := bw.Emitted();
    PutWordByte(bw, w[..8]);
    PutWordByte(bw, w[8..16]);
    PutWordByte(bw, w[16..24]);
    PutWordByte(bw, w[24..]);
    assert e + w[..8] + w[8..16] + w[16..24] + w[24..] == e + w;
  }

  method PutWordByte(bw: BitWriter, b: Bits)
    requires bw.Valid() && |bw.Emitted()| + 8 <= 8 * bw.room && |b| == 8
    modifies bw`bsBuff, bw`bsLive, bw`numZ, bw`live, bw.zbits
    ensures bw.Valid() && bw.Emitted() == old(bw.Emitted()) + b
  {
    ToBitsVal(b);
    ValBound(b);
    bw.BsW(8, Val(b));
  }

  method PutMagic(bw: BitWriter, level: nat)
    requires bw.Valid() && |bw.Emitted()| + 32 <= 8 * bw.room && 1 <= level <= 9
    modifies bw`bsBuff, bw`bsLive, bw`numZ, bw`live, bw.zbits
    ensures bw.Valid() && bw.Emitted() == old(bw.Emitted()) + MagicBits(level)
  {
    hide ToBits;
    ghost var e := bw.Emitted();
    bw.PutByte(0x42);
    bw.PutByte(0x5a);
    bw.PutByte(0x68);
    bw.PutByte(0x30 + level);
    assert e + ByteBits(0x42) + ByteBits(0x5a) + ByteBits(0x68) + ByteBits(0x30 + level) == e + MagicBits(level);
  }

  lemma SixParts(e: Bits, a: Bits, b: Bits, c: Bits, d: Bits, f: Bits, g: Bits)
    ensures e + a + b + c + d + f + g == e + (a + b + c + d + f + g)
  {
  }

  method PutBlockMagic(bw: BitWriter)
    requires bw.Valid() && |bw.Emitted()| + 48 <= 8 * bw.room
    modifies bw`bsBuff, bw`bsLive, bw`numZ, bw`live, bw.zbits
    ensures bw.Valid() && bw.Emitted() == old(bw.Emitted()) + BlockMagic()
  {
    hide ToBits;
    ghost var e := bw.Emitted();
    bw.PutByte(0x31);
    bw.PutByte(0x41);
    bw.PutByte(0x59);
    bw.PutByte(0x26);
    bw.PutByte(0x53);
    bw.PutByte(0x59);
    SixParts(e, ByteBits(0x31), ByteBits(0x41), ByteBits(0x59), ByteBits(0x26), ByteBits(0x53), ByteBits(0x59));
  }

  method PutEndMagic(bw: BitWriter)
    requires bw.Valid() && |bw.Emitted()| + 48 <= 8 * bw.room
    modifies bw`bsBuff, bw`bsLive, bw`numZ, bw`live, bw.zbits
    ensures bw.Valid() && bw.Emitted() == old(bw.Emitted()) + EndMagic()
  {
    hide ToBits;
    ghost var e := bw.Emitted();
    bw.PutByte(0x17);
    bw.PutByte(0x72);
    bw.PutByte(0x45);
    bw.PutByte(0x38);
    bw.PutByte(0x50);
    bw.PutByte(0x90);
    SixParts(e, ByteBits(0x17), ByteBits(0x72), ByteBits(0x45), ByteBits(0x38), ByteBits(0x50), ByteBits(0x90));
  }

  /** The sorted order's words as 16-bit halves: the same memory, which the symbols then overwrite. */
  method ViewAsHalves(ptr: array<int>, mem: array<UInt16>, nblock: nat)
    requires nblock <= ptr.Length && 2 * nblock <= mem.Length && nblock <= MAX_BLOCK && InRange(ptr[..nblock], nblock)
    modifies mem
    ensures forall i :: 0 <= i < nblock ==> PtrAt(mem[..], i) == ptr[i]
  {
    var i := 0;
    while i < nblock
      invariant 0 <= i <= nblock
      invariant forall k :: 0 <= k < i ==> mem[2 * k] as int + 65536 * mem[2 * k + 1] as int == ptr[k]
    {
      assert ptr[i] == ptr[..nblock][i];
      mem[2 * i] := ptr[i] % 65536;
      mem[2 * i + 1] := ptr[i] / 65536;
      i := i + 1;
    }
  }

  /** The arrays in which a block is sorted and coded. */
  class Workspace {
    const ss: SortSpace
    /** arr1 as 16-bit halves. */
    const mem: array<UInt16>
    const unseqToSeq: array<Byte>
    const mtfFreq: array<nat>

    ghost predicate Fits(n: nat) {
      ss.Fits(n) && 2 * n <= mem.Length && unseqToSeq.Length == 256 && mtfFreq.Length == 258
    }

    ghost function Arrays(): set<object> {
      ss.Arrays() + {mem as object, unseqToSeq as object, mtfFreq as object}
    }

    constructor (level: nat)
      requires 1 <= level <= 9
      ensures Fits(100_000 * level) && fresh(this) && fresh(Arrays())
    {
      ss := new SortSpace(level);
      mem := new UInt16[2 * 100_000 * level];
      unseqToSeq := new Byte[256];
      mtfFreq := new nat[258];
    }
  }

  /** Nothing is shared between the block, the bit buffer and the workspace. */
  ghost predicate Apart(bb: BlockBuilder, bw: BitWriter, ws: Workspace) {
    && bb.block !in {ws.ss.ptr, ws.ss.eclass, ws.ss.ftab, ws.ss.quadrant} && bb.inUse != ws.ss.bhtab && bw.zbits != ws.unseqToSeq
  }

  /** The choices that make up a block's printed form. */
  ghost predicate Describes(s: Block, bytes: seq<Byte>, p: seq<int>, orig: nat, crc: Word, level: nat, tb: Tables) {
    && WeaklySorted(bytes, p) && s == Block(Head(level, crc, orig), tb, LastColumn(bytes, p))
  }

  lemma DescribedFits(s: Block, bytes: seq<Byte>, p: seq<int>, orig: nat, crc: Word, level: nat, tb: Tables)
    requires Describes(s, bytes, p, orig, crc, level, tb) && 1 <= level <= 9 && |bytes| <= 100_000 * level
    requires orig < |bytes| && p[orig] == 0 && Complete(bytes) && crc == OfBytes(UnRle(bytes).out)
    requires AllUsed(tb.used, bytes) && TablesOk(tb) && CodesComplete(tb)
    requires AllUsed(tb.used, s.column) ==> Coverable(tb, SymbolsFor(tb.used, s.column))
    ensures BlockFits(s, level) && DataOf(s) == UnRle(bytes).out
  {
    hide OfBytes, UnRle, Unsorted, LastColumn, Complete, Coverable, SymbolsFor, CodesComplete, TablesOk, Leq, AllUsed;
    InverseTransform(bytes, p, orig);
    ColumnInUse(tb.used, bytes, p);
  }

  /** Codes the sorted block and writes its sections. */
  method WriteSections(bb: BlockBuilder, bw: BitWriter, ws: Workspace, ghost p: seq<int>) returns (ghost tb: Tables)
    requires Apart(bb, bw, ws) && bb.BlockOk() && ws.Fits(bb.nblock) && 0 < bb.nblock <= MAX_BLOCK && bw.Valid()
    requires p == ws.ss.ptr[..bb.nblock] && WeaklySorted(bb.bytes, p)
    requires |bw.Emitted()| + TablesAndSymbolsBound(bb.nblock + 1) <= 8 * bw.room
    modifies ws.mem, ws.unseqToSeq, ws.mtfFreq, bw`bsBuff, bw`bsLive, bw`numZ, bw`live, bw.zbits
    ensures tb.used == bb.inUse[..] && AllUsed(tb.used, LastColumn(bb.bytes, p)) && CodesComplete(tb) && TablesOk(tb)
    ensures Coverable(tb, SymbolsFor(tb.used, LastColumn(bb.bytes, p)))
    ensures WellChosen(tb, SymbolsFor(tb.used, LastColumn(bb.bytes, p)))
    ensures forall t :: 0 <= t < |tb.lens| ==> 0 < |tb.lens[t]|
    ensures bw.Valid() && |bw.Emitted()| <= |old(bw.Emitted())| + TablesAndSymbolsBound(bb.nblock + 1)
    ensures var syms := SymbolsFor(tb.used, LastColumn(bb.bytes, p));
            bw.Emitted() == old(bw.Emitted()) + PrintMap(tb.used) + PrintSelectors(|tb.lens|, tb.sel)
                            + PrintTables(tb.lens, |tb.lens|) + PrintSymbols(tb, syms, |syms|)
  {
    hide PrintMap, PrintSelectors, PrintTables, PrintSymbols, WellChosen, UnRle, IsRunning, Leq, Used, Coded, CodesComplete,
         BitWriter.Emitted, BitWriter.Valid;
    ViewAsHalves(ws.ss.ptr, ws.mem, bb.nblock);
    assert AllUsed(bb.inUse[..], bb.bytes);
    ColumnInUse(bb.inUse[..], bb.bytes, p);
    var nMTF, nInUse := GenerateMtfValues(ws.mem, bb.block, bb.nblock, bb.inUse, ws.unseqToSeq, ws.mtfFreq, bb.bytes, p);
    ghost var syms := SymbolsFor(bb.inUse[..], LastColumn(bb.bytes, p));
    SymbolsInAlphabet(nInUse, Seqs(bb.inUse[..], LastColumn(bb.bytes, p)));
    tb := SendMtfValues(bw, ws.mem, nMTF, bb.inUse, nInUse, ws.mtfFreq, syms);
  }

  lemma SymbolsInAlphabet(n: nat, ll: seq<Byte>)
    requires 1 <= n <= 256 && Positions(ll, n)
    ensures SymbolsUpTo(MtfSymbols(n, ll), n + 1)
  {
    var s := MtfSymbols(n, ll);
    EndComesLast(n, ll);
    forall i | 0 <= i < |s|
      ensures s[i] <= n + 1
    {
      if i < |s| - 1 {
        assert s[i] == s[..|s| - 1][i];
      }
    }
  }
}
