/** What the machine does with any bytes at all, a compressed stream or not: it has exactly one run, and the run ends.

    The one thing callers can see of how their calls cut the run up is a block that ends between the four bytes of a run
    and its count; which inputs lead to one is defined here, with the smallest of them.
 */
module AnyInput {
  import opened BitIO
  import opened Bits
  import opened BlockParser
  import opened BlockPrinter
  import opened Crc
  import opened Format
  import opened FormatLeads
  import opened FormatPrinted
  import opened HuffmanCodes
  import opened InverseBwt
  import opened MoveToFront
  import opened MtfEncoder
  import opened OutputStage
  import opened Rotations
  import opened RunLength
  import opened Stream
  import opened StreamMachine

  /** Given all of `z`, the machine gets to `s`. */
  ghost predicate Reaches(z: seq<Byte>, k: nat, s: State) {
    MachineOk(s.m) && MachineOk(StartMachine()) && Goes(State(StartMachine(), BytesToBits(z)), k, s)
  }

  /** `e` is where the machine ends. */
  ghost predicate EndsIn(z: seq<Byte>, e: State) {
    MachineOk(e.m) && Stuck(e) && exists k :: Reaches(z, k, e)
  }

  /** The machine comes to a block that ends between the four bytes of a run and its count. */
  ghost predicate ReachesIncomplete(z: seq<Byte>) {
    exists k, s :: Reaches(z, k, s) && AtIncomplete(s.m)
  }

  lemma Starts()
    ensures MachineOk(StartMachine()) && WellPlaced(StartMachine())
  {
    assert StartMachine().x.ctl == Magic(0);
  }

  /** Every input has an end. */
  lemma EveryInputEnds(z: seq<Byte>) returns (e: State)
    ensures EndsIn(z, e)
  {
    hide BytesToBits, Goes, Stuck, StartMachine, MachineOk;
    Starts();
    var k;
    k, e := EveryRunEnds(State(StartMachine(), BytesToBits(z)));
    assert Reaches(z, k, e);
  }

  /** Any place that is reached leads to the end, and has written no more than has been written there. */
  lemma BeforeEnd(z: seq<Byte>, k: nat, s: State, e: State) returns (j: nat)
    requires Reaches(z, k, s) && EndsIn(z, e)
    ensures Goes(s, j, e) && s.m.out <= e.m.out && (Stuck(s) ==> s == e) && WellPlaced(s.m)
  {
    hide BytesToBits, Goes, Stuck, StartMachine, WellPlaced;
    Starts();
    var all := State(StartMachine(), BytesToBits(z));
    var n: nat :| Reaches(z, n, e);
    StuckLast(all, k, s, n, e);
    j := n - k;
    OutputGrows(s, j, e);
    GoesPlaced(all, k, s);
  }

  /** From a place in an incomplete block the end is past that block: everything from `out0` on is what has been written of
      the block. */
  lemma IncompleteEnds(z: seq<Byte>, k: nat, s: State, e: State) returns (out0: seq<Byte>, done: seq<Byte>)
    requires Reaches(z, k, s) && EndsIn(z, e) && AtIncomplete(s.m)
    ensures Overrun(e.m) && e.m.x == s.m.x && e.m.comb == s.m.comb && AtIncomplete(e.m)
    ensures e.m.out == out0 + OverrunOutput(e.m.x.ctl.column, e.m.x.ctl.h.orig)
    ensures s.m.out == out0 + done && (AtBlockStart(s.m) ==> done == [])
    ensures if Overrun(s.m) then e.m == s.m else |s.m.out| < |e.m.out|
  {
    hide BytesToBits, Goes, Stuck, StartMachine, InBlock, Unsorted, Complete, OverrunOutput, AtBlockStart;
    var j := BeforeEnd(z, k, s, e);
    out0, done :| InBlock(s.m, out0, done);
    WrittenOut(s.m, out0, done);
    var i, n := IncompleteGoes(s.m, out0, done, s.bits);
    StuckLast(s, i, State(n, s.bits), j, e);
  }

  /** Whether an input leads to such a block can be seen where it ends. */
  lemma IncompleteAtEnd(z: seq<Byte>, e: State)
    requires EndsIn(z, e)
    ensures MachineOk(e.m) && (ReachesIncomplete(z) <==> Overrun(e.m))
  {
    hide BytesToBits, Goes, Stuck, StartMachine, OverrunOutput, WellPlaced, AtIncomplete, Overrun;
    if ReachesIncomplete(z) {
      var k: nat, s :| Reaches(z, k, s) && AtIncomplete(s.m);
      var out0, done := IncompleteEnds(z, k, s, e);
    }
    if Overrun(e.m) {
      var k: nat :| Reaches(z, k, e);
      var j := BeforeEnd(z, k, e, e);
      OverrunPlaced(e.m);
    }
  }

  /** With room for all the rest of an incomplete block there is room for everything. */
  lemma RoomToEnd(z: seq<Byte>, k: nat, s: State, e: State, room: nat)
    requires Reaches(z, k, s) && EndsIn(z, e) && OverrunsWithin(s.m, room)
    ensures |e.m.out| <= |s.m.out| + room
  {
    hide BytesToBits, Goes, StartMachine, OverrunOutput, WellPlaced;
    var j := BeforeEnd(z, k, s, e);
    var n :| Onward(s.m, n) && Overrun(n) && |n.out| <= |s.m.out| + room;
    var i: nat :| Goes(State(s.m, []), i, State(n, []));
    GoesMore(State(s.m, []), i, State(n, []), s.bits);
    assert [] + s.bits == s.bits && State(s.m, s.bits) == s;
    StuckLast(s, i, State(n, s.bits), j, e);
  }

  /** What is reported of an input, where `e` is its end, by a decoder that is first called with all of it and room for
      `room1` bytes, and then with room for everything.  The small representation reports all that is written; of a
      block that is run past, the fast one drops what its last call wrote. */
  ghost function Reported(e: Machine, small: bool, room1: nat): seq<Byte>
    requires MachineOk(e)
  {
    if Overrun(e) && !small && !(BlockStart(e) <= room1 < |e.out|) then e.out[..BlockStart(e)]
    else if Overrun(e) && !small then e.out[..room1]
    else e.out
  }

  /** How much had been written before the block that is run past. */
  ghost function BlockStart(e: Machine): (n: nat)
    requires MachineOk(e) && Overrun(e)
    ensures n <= |e.out|
  {
    var written := |OverrunOutput(e.x.ctl.column, e.x.ctl.h.orig)|;
    if written <= |e.out| then |e.out| - written else 0
  }

  /** Two calls of the fast decoder, which take it to `s1` and `s2`. */
  lemma FastReports(z: seq<Byte>, e: State, k1: nat, s1: State, avail1: nat, room1: nat, k2: nat, s2: State)
    requires EndsIn(z, e) && Reaches(z, k1, s1) && Reaches(z, k2, s2) && AtIncomplete(s2.m)
    requires s1.m.out <= s2.m.out && |s1.m.out| + avail1 == room1
    requires (AtBlockStart(s1.m) && OverrunsWithin(s1.m, avail1)) || (avail1 == 0 && !Overrun(s1.m))
    requires AtBlockStart(s2.m) || s2.m == s1.m
    ensures s2.m.out == Reported(e.m, false, room1)
  {
    hide Reaches, EndsIn, OverrunOutput, AtIncomplete, OverrunsWithin, AtBlockStart, MachineOk;
    var out0, done := IncompleteEnds(z, k2, s2, e);
    assert e.m.out[..|out0|] == out0;
    var j := BeforeEnd(z, k2, s2, e);
    if AtBlockStart(s1.m) && OverrunsWithin(s1.m, avail1) {
      RoomToEnd(z, k1, s1, e, avail1);
    }
  }

  /** At least the four bytes are dropped. */
  lemma SomethingWritten(z: seq<Byte>, e: State)
    requires EndsIn(z, e) && Overrun(e.m)
    ensures BlockStart(e.m) + 4 <= |e.m.out|
  {
    hide BytesToBits, Goes, Stuck, StartMachine, Unsorted, WellPlaced, UnRle, ReadAt;
    var k: nat :| Reaches(z, k, e);
    var j := BeforeEnd(z, k, e, e);
    OverrunPlaced(e.m);
    var out0, done := IncompleteEnds(z, k, e, e);
    CopiesOut(BlockOf(e.m));
  }

  /** What is reported depends on the representation, and in the fast one on how the room is divided, exactly for the
      inputs that lead to an incomplete block. */
  lemma PiecesMatter(z: seq<Byte>, e: State)
    requires EndsIn(z, e)
    ensures ReachesIncomplete(z) <==> !forall small, room1: nat :: Reported(e.m, small, room1) == e.m.out
    ensures ReachesIncomplete(z) <==> !forall room1: nat, room2: nat :: Reported(e.m, false, room1) == Reported(e.m, false, room2)
  {
    hide EndsIn, ReachesIncomplete, OverrunOutput, MachineOk;
    IncompleteAtEnd(z, e);
    if Overrun(e.m) {
      SomethingWritten(z, e);
      var n := |e.m.out|;
      assert |Reported(e.m, false, n - 1)| == n - 1;
      assert |Reported(e.m, false, n)| == BlockStart(e.m);
    }
  }

  // ----- Inputs that lead to such a block.

  /** Well-formed blocks followed by one that is not complete. */
  lemma IncompleteBlock(z: seq<Byte>, blocks: seq<Block>, level: nat, h: Head, tb: Tables, column: seq<Byte>, rest: Bits)
    returns (e: State)
    requires 1 <= level <= 9 && BlocksFit(blocks, level) && BlockPrinter.BlockOk(h, tb, column) && h.level == level
    requires !Complete(Unsorted(column, h.orig))
    requires BytesToBits(z) == MagicBits(level) + (AllBits(blocks, level) + (PrintBlock(h, tb, column) + rest))
    ensures ReachesIncomplete(z) && EndsIn(z, e) && e.m.x.ctl == Output(h, column)
    ensures e.m.out == AllData(blocks, level) + OverrunOutput(column, h.orig)
  {
    hide BytesToBits, Goes, Stuck, StartMachine, MagicBits, AllBits, AllData, PrintBlock, BlockText, Parse, Unsorted, Complete,
         OverrunOutput,
         CombOf;
    var a, b, c := MagicBits(level), AllBits(blocks, level), PrintBlock(h, tb, column);
    var k1, m1 := HeaderGoes(level, b + (c + rest));
    var k2, m2 := BlocksGo(m1, blocks, level, c + rest);
    PrintedBlock(h, tb, column);
    var dec := BlockLeads(c, h, tb, column, m2.x.dec);
    var y := Conf(Output(h, column), dec);
    assert m2.x == Conf(BlkHdr(level, 0), m2.x.dec);
    var k3 := ParserGoes(m2, c, y, rest);
    var m3 := Parsed(m2, y);
    GoesOk(State(m2, c + rest), k3, State(m3, rest));
    GoesThen(State(m1, b + (c + rest)), k2, State(m2, c + rest), k3, State(m3, rest));
    GoesThen(State(StartMachine(), a + (b + (c + rest))), k1, State(m1, b + (c + rest)), k2 + k3, State(m3, rest));
    assert Reaches(z, k1 + (k2 + k3), State(m3, rest));
    e := EveryInputEnds(z);
    var out0, done := IncompleteEnds(z, k1 + (k2 + k3), State(m3, rest), e);
  }

  lemma ByteOf(bs: Bits) returns (x: Byte)
    requires |bs| == 8
    ensures BytesToBits([x]) == bs
  {
    Powers();
    ValBound(bs);
    ToBitsVal(bs);
    x := Val(bs);
    BytesToBitsPush([], x);
    assert [] + [x] == [x];
  }

  /** Bits as bytes, filled up with zeros. */
  lemma {:induction false} Packed(bits: Bits) returns (z: seq<Byte>, pad: nat)
    ensures BytesToBits(z) == bits + Zeros(pad)
    decreases |bits|
  {
    hide BytesToBits;
    if |bits| <= 8 {
      pad := 8 - |bits|;
      var x := ByteOf(bits + Zeros(pad));
      z := [x];
    } else {
      var x := ByteOf(bits[..8]);
      z, pad := Packed(bits[8..]);
      BytesToBitsConcat([x], z);
      z := [x] + z;
      assert bits[..8] + (bits[8..] + Zeros(pad)) == bits + Zeros(pad);
    }
  }

  // ----- The smallest one: four equal bytes.

  /** Only `x` is in use. */
  function OnlyUsed(x: Byte): (r: seq<bool>) {
    seq(256, i => i == x)
  }

  lemma {:induction false} OneUsed(x: Byte, c: nat)
    requires c <= 256
    ensures Used(OnlyUsed(x), c) == if x < c then 1 else 0
    decreases c
  {
    if c > 0 {
      OneUsed(x, c - 1);
    }
  }

  /** Two tables of three codes of two bits, and one group of symbols. */
  function SmallTables(x: Byte): Tables {
    Tables(OnlyUsed(x), [0], [[2, 2, 2], [2, 2, 2]])
  }

  lemma SmallTablesOk(x: Byte)
    ensures var tb := SmallTables(x);
            TablesOk(tb) && CodesComplete(tb) && AllUsed(tb.used, Repeat(x, 4)) && Coverable(tb, SymbolsFor(tb.used, Repeat(x, 4)))
  {
    var tb, column := SmallTables(x), Repeat(x, 4);
    OneUsed(x, 256);
    assert KraftHolds([2, 2, 2], 2) by {
      assert Kraft([2], 2) == 1 && Kraft([2, 2], 2) == 2 by {
        assert [2, 2][..1] == [2] && [2][..0] == [];
      }
      assert [2, 2, 2][..2] == [2, 2];
      assert Pow2(2) == 4;
    }
    SymbolsDecode(tb.used, column, 900_000);
  }

  lemma FourWithoutCount(x: Byte)
    ensures !Complete(Repeat(x, 4)) && UnRle(Repeat(x, 4)).out == Repeat(x, 4) && Unsorted(Repeat(x, 4), 0) == Repeat(x, 4)
  {
    UnRleCopies([], x, 4);
    assert [] + Repeat(x, 4) == Repeat(x, 4);
  }

  /** Four equal bytes and no count, whatever the stored checksum: the byte read past the end is the same byte again, and
      as a count it makes the run that long.  The small representation reports all of the run; the fast one reports
      none of it, unless the call before stopped within it. */
  lemma FourEqualBytes(x: Byte, level: nat, crc: Word) returns (z: seq<Byte>, e: State)
    requires 1 <= level <= 9
    ensures ReachesIncomplete(z) && EndsIn(z, e) && e.m.x.ctl == Output(Head(level, crc, 0), Repeat(x, 4))
    ensures forall room1: nat :: Reported(e.m, true, room1) == Repeat(x, 4 + x)
    ensures forall room1: nat :: Reported(e.m, false, room1) == Repeat(x, if room1 < 4 + x then room1 else 0)
  {
    hide BytesToBits, MagicBits, PrintBlock, EndsIn, ReachesIncomplete, BlocksFit, AllBits, AllData, Complete, UnRle;
    var h, tb, column := Head(level, crc, 0), SmallTables(x), Repeat(x, 4);
    SmallTablesOk(x);
    FourWithoutCount(x);
    var pad;
    z, pad := Packed(MagicBits(level) + PrintBlock(h, tb, column));
    NoBlocks(level, MagicBits(level), PrintBlock(h, tb, column), Zeros(pad));
    e := IncompleteBlock(z, [], level, h, tb, column, Zeros(pad));
    IncompleteAtEnd(z, e);
    FourReported(x, e.m);
  }

  lemma NoBlocks(level: nat, a: Bits, b: Bits, c: Bits)
    ensures BlocksFit([], level) && AllData([], level) == []
    ensures a + b + c == a + (AllBits([], level) + (b + c))
  {
  }

  lemma FourReported(x: Byte, e: Machine)
    requires MachineOk(e) && Overrun(e) && e.x.ctl.column == Repeat(x, 4) && e.x.ctl.h.orig == 0
    requires e.out == [] + OverrunOutput(Repeat(x, 4), 0)
    ensures e.out == Repeat(x, 4 + x) && BlockStart(e) == 0
    ensures forall room1: nat :: Reported(e, true, room1) == Repeat(x, 4 + x)
    ensures forall room1: nat :: Reported(e, false, room1) == Repeat(x, if room1 < 4 + x then room1 else 0)
  {
    hide UnRle, Complete, ReadAt, Unsorted;
    FourWithoutCount(x);
    FifthByte(x);
    assert e.out == Repeat(x, 4) + Repeat(x, x) == Repeat(x, 4 + x);
  }

  lemma FifthByte(x: Byte)
    ensures ReadAt(Repeat(x, 4), 0, 4) == x
  {
  }
}
