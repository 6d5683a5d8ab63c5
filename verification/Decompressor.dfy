/** The decompressor as an object: BZ2_bzDecompress with its bit buffer, its block reader and its output stage.

    The object is at all times at a point of the one run of the abstract machine on the bits it has been fed, whatever
    the pieces in which it was fed them and in which its output was taken.
 */
module Decompressor {
  import opened BitIO
  import opened Bits
  import opened BlockParser
  import opened BlockReader
  import opened Crc
  import opened DecoderStore
  import opened InverseBwt
  import opened MoveToFront
  import opened OutputStage
  import opened Rotations
  import opened Stream
  import opened StreamMachine
  import opened Streaming
  import opened TableReader

  datatype Code = CallOk | StreamEnd | SequenceError | DataError | DataErrorMagic | Unsupported

  class DState {
    const strm: BzStream
    const br: Receiver

    var bsBuff: nat
    var bsLive: nat

    var k0: Byte
    var nblockUsed: nat
    var stateOutCh: Byte
    var stateOutLen: nat
    var calculatedBlockCRC: Word
    var calculatedCombinedCRC: Word

    /** The abstract machine, the bits in the buffer, and how it came here. */
    ghost var m: Machine
    ghost var live: Bits
    ghost var consumed: seq<Byte>
    ghost var steps: nat

    /** Everything but the stream record. */
    ghost function Own(): set<object> {
      {this as object} + br.Own()
    }

    ghost function Repr(): set<object> {
      Own() + {strm}
    }

    /** The low `bsLive` bits of the buffer are those not handled yet. */
    ghost predicate BitsOk()
      reads this
    {
      bsLive == |live| <= 27 && ToBits(bsLive, bsBuff) == live
    }

    /** The object is on the machine's run. */
    ghost predicate OnRun()
      reads this
    {
      && MachineOk(m) && MachineOk(StartMachine()) && calculatedCombinedCRC == m.comb
      && Goes(State(StartMachine(), BytesToBits(consumed)), steps, State(m, live))
    }

    /** The block reader is where the machine is. */
    ghost predicate Reading()
      reads this, br, br.rd
    {
      m.x == Conf(br.rd.ctl, br.dec)
    }

    /** The output stage is where the machine's is. */
    ghost predicate Writing()
      reads this, br.col
    {
      && br.col.orig < |br.col.s| && br.col.readCount == nblockUsed
      && m.o == OutState(nblockUsed, stateOutCh, stateOutLen) && calculatedBlockCRC == m.crc
      && (1 <= nblockUsed <= |br.col.s| ==> k0 == ReadAt(br.col.s, br.col.orig, nblockUsed - 1))
    }

    ghost predicate Valid()
      reads this, Own()
    {
      br.Valid() && Reading() && BitsOk() && OnRun() && (br.rd.ctl.Output? ==> Writing())
    }

    ghost function Now(): Mark
      reads this, strm
    {
      Mark(consumed, strm.nextIn, m.out, strm.out, strm.availOut)
    }

    lemma Separate()
      ensures this !in br.Own() && strm !in br.Own() && strm !in Own()
    {
    }

    /** Nothing is lost or made up. */
    ghost predicate Since(k: Mark)
      reads this, strm
    {
      && k.taken <= consumed && consumed + strm.nextIn == k.taken + k.next
      && k.out <= strm.out && m.out == k.sent + strm.out[|k.out|..]
      && strm.availOut + |strm.out| == k.avail + |k.out|
    }

    /** BZ2_bzDecompressInit */
    constructor (strm: BzStream, small: bool)
      ensures IsNew() && this.strm == strm && br.col.small == small && fresh(Own())
    {
      this.strm := strm;
      br := new Receiver(small);
      bsBuff, bsLive, live := 0, 0, [];
      k0, nblockUsed, stateOutCh, stateOutLen := 0, 0, 0, 0;
      calculatedBlockCRC, calculatedCombinedCRC := Initial(), Zeros(32);
      m, consumed, steps := StartMachine(), [], 0;
    }

    ghost predicate IsNew()
      reads this, Own()
    {
      && br.Valid() && br.rd.ctl == Magic(0) && br.dec == StartDecoder() && m == StartMachine()
      && bsLive == 0 && live == [] && consumed == [] && steps == 0 && calculatedCombinedCRC == Zeros(32)
    }

    lemma Initially()
      requires IsNew()
      ensures Valid() && m == StartMachine() && !br.rd.ctl.End?
    {
      hide Receiver.Valid;
    }

    // ----- Bits.

    /** One byte of input into the buffer. */
    method ReadByte(ghost k: Mark)
      requires Valid() && bsLive <= 19 && strm.nextIn != [] && Since(k)
      modifies this`bsBuff, this`bsLive, this`live, this`consumed, this`steps, strm`nextIn
      ensures Valid() && Since(k)
      ensures bsLive == old(bsLive) + 8 && |strm.nextIn| == |old(strm.nextIn)| - 1
    {
      hide ToBits, Goes, BytesToBits, MachineOk, StartMachine, ReadAt, Receiver.Valid, Receiver.Own;
      Separate();
      var x := strm.nextIn[0];
      ByteIn(bsBuff, live, x);
      GoesMore(State(StartMachine(), BytesToBits(consumed)), steps, State(m, live), ByteBits(x));
      BytesToBitsPush(consumed, x);
      assert consumed + [x] + strm.nextIn[1..] == consumed + strm.nextIn;
      bsBuff := bsBuff * 256 % 0x1_0000_0000 + x;
      bsLive := bsLive + 8;
      live := live + ByteBits(x);
      consumed := consumed + [x];
      strm.nextIn := strm.nextIn[1..];
    }

    /** The first part of GET_BITS: reads until there are `n` bits; suspends when there is no input. */
    method Fill(n: nat, ghost k: Mark)
      returns (ok: bool)
      requires Valid() && n <= LONGEST_CODE && Since(k)
      modifies this`bsBuff, this`bsLive, this`live, this`consumed, this`steps, strm`nextIn
      ensures Valid() && Since(k)
      ensures if ok then bsLive >= n else bsLive < n && strm.nextIn == []
      ensures 8 * |strm.nextIn| + bsLive == old(8 * |strm.nextIn| + bsLive)
    {
      hide Valid, Since;
      while true
        invariant Valid() && Since(k)
        invariant 8 * |strm.nextIn| + bsLive == old(8 * |strm.nextIn| + bsLive)
        decreases |strm.nextIn|
      {
        if bsLive >= n {
          return true;
        }
        if |strm.nextIn| == 0 {
          return false;
        }
        ReadByte(k);
      }
    }

    /** The second part of GET_BITS: takes `n` bits, as a number.  The machine has not handled them yet. */
    method TakeBits(n: nat) returns (v: nat, ghost bs: Bits)
      requires BitsOk() && n <= bsLive
      modifies this`bsLive, this`live
      ensures BitsOk() && |bs| == n && v == Val(bs) && bs == old(live)[..n] && live == old(live)[n..]
    {
      hide ToBits, Val;
      BitsOut(bsBuff, live, n);
      bs := live[..n];
      v := LowBits(n, Shr(bsBuff, bsLive - n));
      bsLive := bsLive - n;
      live := live[n..];
    }

    // ----- The parser.

    /** The machine's step for the bits `bs` it asked for. */
    lemma Stepped(m0: Machine, live0: Bits, bs: Bits, live1: Bits, steps0: nat)
      requires MachineOk(m0) && MachineOk(StartMachine()) && Goes(State(StartMachine(), BytesToBits(consumed)), steps0, State(m0, live0))
      requires !Stopped(m0.x.ctl) && |live0| >= Need(m0.x.ctl)
      requires bs == live0[..Need(m0.x.ctl)] && live1 == live0[Need(m0.x.ctl)..]
      ensures Ok(Handle(m0.x, bs)) && MachineOk(Parsed(m0, Handle(m0.x, bs)))
      ensures Goes(State(StartMachine(), BytesToBits(consumed)), steps0 + 1, State(Parsed(m0, Handle(m0.x, bs)), live1))
    {
      hide BytesToBits, StartMachine;
      HandleColumnOk(m0.x, bs);
      var s := State(m0, live0);
      assert Step(s) == State(Parsed(m0, Handle(m0.x, bs)), live1);
      GoesOne(s);
      GoesThen(State(StartMachine(), BytesToBits(consumed)), steps0, s, 1, Step(s));
    }

    /** Nothing more can be parsed. */
    predicate Halted()
      reads br.rd
    {
      br.rd.state == X_IDLE || br.rd.state == X_OUTPUT || br.rd.state > X_CCRC_4
    }

    /** The label says where the parser is. */
    lemma Labels()
      requires br.Valid()
      ensures Halted() <==> Stopped(br.rd.ctl)
      ensures br.rd.state == X_IDLE <==> br.rd.ctl.End?
      ensures br.rd.state == X_OUTPUT <==> br.rd.ctl.Output?
      ensures br.rd.state == X_BAD_DATA || br.rd.state == X_BAD_MAGIC <==> br.rd.ctl.Failed?
      ensures br.rd.state == X_BAD_DATA <==> br.rd.ctl == Failed(BadData)
      ensures br.rd.state == X_BAD_MAGIC <==> br.rd.ctl == Failed(BadMagic)
      ensures br.rd.state == X_RANDOMISED <==> br.rd.ctl.Randomised?
    {
      hide Reader.Shows;
      br.rd.Labels();
    }

    /** One request of the parser. */
    method ParseTurn(n: nat, ghost k: Mark)
      requires Valid() && !Stopped(br.rd.ctl) && n == Need(br.rd.ctl) <= bsLive && Since(k)
      modifies Own()
      ensures Valid() && Since(k) && bsLive < old(bsLive)
      ensures br.rd.ctl.Output? ==> AtBlockStart(m)
    {
      hide Goes, Step, Stuck, StartMachine, BytesToBits, ToBits, Handle, ReadAt, Val, Receiver.Valid, Need, Stopped,
           CtlOk, ColumnOk;
      Separate();
      ghost var m0, live0 := m, live;
      var v;
      ghost var bs;
      v, bs := TakeBits(n);
      Stepped(m0, live0, bs, live, steps);
      br.Turn(n, v, bs);
      m := Parsed(m0, Handle(m0.x, bs));
      steps := steps + 1;
      ParsedKeeps(m0, Handle(m0.x, bs));
      Labels();
      if br.rd.state == X_OUTPUT {
        StartWriting();
      }
    }

    /** The first byte of the block is read ahead. */
    method StartWriting()
      requires br.Valid() && br.rd.ctl.Output? && br.col.readCount == 0 && m.o == StartOutput() && m.crc == Initial()
      modifies this`k0, this`nblockUsed, this`stateOutCh, this`stateOutLen, this`calculatedBlockCRC, br.col`tPos, br.col`readCount
      ensures br.Valid() && Writing()
    {
      hide Receiver.Valid, ReadAt;
      Separate();
      stateOutLen, stateOutCh := 0, 0;
      calculatedBlockCRC := Initial();
      nblockUsed := 0;
      k0 := br.GetByte();
      nblockUsed := nblockUsed + 1;
    }

    /** BZ2_decompress: goes on until input is missing, a block is complete, or the stream ends or is found bad. */
    method Decompress(ghost k: Mark)
      requires Valid() && !br.rd.ctl.Output? && Since(k)
      modifies Repr()
      ensures Valid() && Since(k) && strm.out == old(strm.out) && strm.availOut == old(strm.availOut)
      ensures !Stopped(br.rd.ctl) ==> strm.nextIn == [] && bsLive < Need(br.rd.ctl)
      ensures br.rd.ctl.Output? ==> 8 * |strm.nextIn| + bsLive < old(8 * |strm.nextIn| + bsLive) && AtBlockStart(m)
    {
      hide Since, OnRun, BitsOk, Writing, Receiver.Valid, Receiver.Own, AtBlockStart;
      Separate();
      while true
        invariant strm !in Own()
        invariant Valid() && Since(k) && strm.out == old(strm.out) && strm.availOut == old(strm.availOut)
        invariant 8 * |strm.nextIn| + bsLive <= old(8 * |strm.nextIn| + bsLive)
        invariant br.rd.ctl.Output? ==> 8 * |strm.nextIn| + bsLive < old(8 * |strm.nextIn| + bsLive) && AtBlockStart(m)
        decreases 8 * |strm.nextIn| + bsLive
      {
        Labels();
        if Halted() {
          return;
        }
        var n := br.Asks();
        var ok := Fill(n, k);
        if !ok {
          return;
        }
        ParseTurn(n, k);
      }
    }

    // ----- The output stage.

    lemma OutStepped(m0: Machine)
      requires OnRun() && Onward(m0, m) && m.x.ctl.Output? && !Overrun(m)
      ensures MachineOk(OutStep(m)) && Goes(State(StartMachine(), BytesToBits(consumed)), steps + 1, State(OutStep(m), live))
      ensures Onward(m0, OutStep(m))
    {
      hide BytesToBits, StartMachine, Goes, OutStep, Onward;
      OutGoes(m, live);
      GoesThen(State(StartMachine(), BytesToBits(consumed)), steps, State(m, live), 1, State(OutStep(m), live));
      OnwardOne(m0, m);
    }

    /** One byte of the current run. */
    method EmitOne(ghost k: Mark, ghost m0: Machine)
      requires Valid() && br.rd.ctl.Output? && stateOutLen > 0 && strm.availOut > 0 && Since(k) && Onward(m0, m)
      modifies this`stateOutLen, this`calculatedBlockCRC, this`m, this`steps, strm`out, strm`availOut
      ensures Valid() && Since(k) && Onward(m0, m)
      ensures stateOutLen == old(stateOutLen) - 1 && strm.availOut == old(strm.availOut) - 1
    {
      hide BytesToBits, StartMachine, Goes, ToBits, Receiver.Valid, ReadAt, Update, Onward;
      Separate();
      OutStepped(m0);
      OneMoreOut(m.out, k.sent, strm.out, k.out, stateOutCh);
      strm.out := strm.out + [stateOutCh];
      calculatedBlockCRC := Update(calculatedBlockCRC, stateOutCh);
      m := OutStep(m);
      steps := steps + 1;
      stateOutLen := stateOutLen - 1;
      strm.availOut := strm.availOut - 1;
    }

    /** The next run: reads ahead up to the first different byte, or takes four equal bytes and a count. */
    method StartRun(ghost m0: Machine)
      requires Valid() && br.rd.ctl.Output? && stateOutLen == 0 && nblockUsed <= br.col.nblock && Onward(m0, m)
      modifies this`k0, this`nblockUsed, this`stateOutCh, this`stateOutLen, this`m, this`steps, br.col`tPos, br.col`readCount
      ensures Valid() && stateOutLen > 0 && m.out == old(m.out) && Onward(m0, m)
      ensures old(nblockUsed) < nblockUsed <= br.col.nblock + 4
    {
      hide BytesToBits, StartMachine, Goes, ToBits, ReadAt, Receiver.Valid, NextRun, Onward;
      Separate();
      br.Size();
      OutStepped(m0);
      OutRun(m);
      m := OutStep(m);
      steps := steps + 1;
      ReadRun();
    }

    lemma OutRun(m: Machine)
      requires MachineOk(m) && m.x.ctl.Output? && m.o.len == 0 && m.o.used <= |m.x.ctl.column|
      ensures OutStep(m) == m.(o := NextRun(m.x.ctl.column, m.x.ctl.h.orig, m.o))
      ensures OutStep(m).o.len > 0 && OutStep(m).o.used > m.o.used
    {
      hide ReadAt, NextRun;
    }

    method ReadRun()
      requires br.Valid() && br.rd.ctl.Output? && br.col.readCount == nblockUsed && 1 <= nblockUsed <= br.col.nblock == |br.col.s|
      requires br.col.orig < |br.col.s| && k0 == ReadAt(br.col.s, br.col.orig, nblockUsed - 1)
      modifies this`k0, this`nblockUsed, this`stateOutCh, this`stateOutLen, br.col`tPos, br.col`readCount
      ensures br.Valid() && br.col.readCount == nblockUsed
      ensures OutState(nblockUsed, stateOutCh, stateOutLen) ==
              NextRun(br.col.s, br.col.orig, OutState(old(nblockUsed), old(stateOutCh), old(stateOutLen)))
      ensures nblockUsed <= |br.col.s| ==> k0 == ReadAt(br.col.s, br.col.orig, nblockUsed - 1)
      ensures nblockUsed <= br.col.nblock + 4
    {
      hide ReadAt, EndsAt, NextRun, Receiver.Valid, Receiver.Own;
      Separate();
      NextRunCases(br.col.s, br.col.orig, OutState(nblockUsed, stateOutCh, stateOutLen), k0);
      stateOutLen := 1;
      stateOutCh := k0;
      var ends := ReadAhead();
      if ends {
        return;
      }
      stateOutLen := 2;
      ends := ReadAhead();
      if ends {
        return;
      }
      stateOutLen := 3;
      ends := ReadAhead();
      if ends {
        return;
      }
      var k1 := br.GetByte();
      nblockUsed := nblockUsed + 1;
      stateOutLen := k1 as int + 4;
      k0 := br.GetByte();
      nblockUsed := nblockUsed + 1;
    }

    /** Reads one byte and says whether the run ends there: with the block, or because the byte is a different one. */
    method ReadAhead() returns (ends: bool)
      requires br.Valid() && br.rd.ctl.Output? && br.col.readCount == nblockUsed && 1 <= nblockUsed <= br.col.nblock == |br.col.s|
      requires br.col.orig < |br.col.s|
      modifies this`k0, this`nblockUsed, br.col`tPos, br.col`readCount
      ensures br.Valid() && br.col.readCount == nblockUsed == old(nblockUsed) + 1
      ensures ends <==> EndsAt(br.col.s, br.col.orig, old(k0), old(nblockUsed))
      ensures ends && nblockUsed <= |br.col.s| ==> k0 == ReadAt(br.col.s, br.col.orig, old(nblockUsed))
      ensures !ends ==> k0 == old(k0) && nblockUsed <= br.col.nblock
    {
      hide ReadAt, Receiver.Valid;
      Separate();
      var k1 := br.GetByte();
      nblockUsed := nblockUsed + 1;
      if nblockUsed == br.col.nblock + 1 {
        return true;
      }
      ends := k1 != k0;
      if ends {
        k0 := k1;
      }
    }

    /** Why the output stage stops: no room, or the end of the block. */
    ghost predicate OutputStops()
      reads this, Repr()
    {
      strm.availOut == 0 || (stateOutLen == 0 && nblockUsed == br.col.nblock + 1)
    }

    /** The loop of unRLE_obuf_to_output_FAST: finishes the current run before anything else, and starts runs even
        without room. */
    method FastLoop(ghost k: Mark)
      returns (corrupt: bool)
      requires Valid() && br.rd.ctl.Output? && Since(k)
      modifies this`k0, this`nblockUsed, this`stateOutCh, this`stateOutLen, this`calculatedBlockCRC, this`m, this`steps
      modifies br.col`tPos, br.col`readCount, strm`out, strm`availOut
      ensures Valid() && Since(k) && br.rd.ctl.Output? && Onward(old(m), m)
      ensures if corrupt then Overrun(m) && AtIncomplete(m) else OutputStops() && !Overrun(m)
    {
      hide OnRun, BitsOk, Reading, ReadAt, Receiver.Valid, Onward;
      ghost var m0 := m;
      BeginOutput();
      while true
        invariant Valid() && br.rd.ctl.Output? && Since(k) && Onward(m0, m)
        decreases strm.availOut, if nblockUsed <= br.col.nblock + 5 then br.col.nblock + 5 - nblockUsed else 0
      {
        if stateOutLen > 0 {
          while true
            invariant Valid() && br.rd.ctl.Output? && stateOutLen > 0 && Since(k) && Onward(m0, m)
            decreases strm.availOut
          {
            if strm.availOut == 0 {
              return false;
            }
            if stateOutLen == 1 {
              break;
            }
            EmitOne(k, m0);
          }
          EmitOne(k, m0);
        }
        PastEnd();
        if nblockUsed > br.col.nblock + 1 {
          return true;
        }
        if nblockUsed == br.col.nblock + 1 {
          return false;
        }
        StartRun(m0);
      }
    }

    lemma BeginOutput()
      requires OnRun()
      ensures Onward(m, m)
    {
      hide Goes, MachineOk;
      NotYetOnward(m);
    }

    /** Past the end of the block is where the machine is past it; then the block is not complete. */
    lemma PastEnd()
      requires Valid() && br.rd.ctl.Output?
      ensures Overrun(m) <==> stateOutLen == 0 && nblockUsed > br.col.nblock + 1
      ensures Overrun(m) ==> AtIncomplete(m)
    {
      hide BytesToBits, Goes, ToBits, ReadAt, Receiver.Valid, InBlock, Unsorted;
      br.Size();
      GoesPlaced(State(StartMachine(), BytesToBits(consumed)), steps, State(m, live));
      if Overrun(m) {
        OverrunPlaced(m);
      }
    }

    /** Where the machine is, and how much it has written. */
    lemma Where(k: Mark)
      requires Valid() && Since(k)
      ensures MachineOk(m) && m.x == Conf(br.rd.ctl, br.dec) && |m.out| + strm.availOut == |k.sent| + k.avail
    {
      hide Receiver.Valid, MachineOk, Writing, BitsOk;
    }

    /** unRLE_obuf_to_output_FAST works on copies of the output stage's fields and of the stream record.  They are stored
        back when it stops for lack of room or at the end of the block, but not when it finds itself past that end: then
        nothing that it wrote is reported, and everything stands as it stood on entry. */
    method UnRleFast(ghost k: Mark)
      returns (corrupt: bool)
      requires Valid() && br.rd.ctl.Output? && Since(k)
      modifies this`k0, this`nblockUsed, this`stateOutCh, this`stateOutLen, this`calculatedBlockCRC, this`m, this`steps
      modifies br.col`tPos, br.col`readCount, strm`out, strm`availOut
      ensures Valid() && Since(k) && br.rd.ctl.Output?
      ensures if corrupt then unchanged(this, br.col, strm) && AtIncomplete(m) && OverrunsWithin(m, strm.availOut)
              else OutputStops() && !Overrun(m)
    {
      hide Valid, Since, Onward, AtIncomplete, OutputStops, OverrunsWithin, Overrun, MachineOk, Receiver.Valid, Unsorted;
      Separate();
      Where(k);
      var o := OutState(nblockUsed, stateOutCh, stateOutLen);
      var c_k0, crc, tPos, out, avail := k0, calculatedBlockCRC, br.col.tPos, strm.out, strm.availOut;
      ghost var m0, steps0, read0 := m, steps, br.col.readCount;
      corrupt := FastLoop(k);
      Where(k);
      if corrupt {
        RanOver(m0, avail, m, strm.availOut);
        PutBack(o, c_k0, crc, tPos, out, avail, m0, steps0, read0);
      }
    }

    /** Drops the copies. */
    method PutBack(o: OutState, k0: Byte, crc: Word, tPos: nat, out: seq<Byte>, avail: nat,
                   ghost m: Machine, ghost steps: nat, ghost readCount: nat)
      modifies this`k0, this`nblockUsed, this`stateOutCh, this`stateOutLen, this`calculatedBlockCRC, this`m, this`steps
      modifies br.col`tPos, br.col`readCount, strm`out, strm`availOut
      ensures OutState(nblockUsed, stateOutCh, stateOutLen) == o && this.k0 == k0 && calculatedBlockCRC == crc
      ensures br.col.tPos == tPos && br.col.readCount == readCount && strm.out == out && strm.availOut == avail
      ensures this.m == m && this.steps == steps
    {
      nblockUsed, stateOutCh, stateOutLen := o.used, o.ch, o.len;
      this.k0, calculatedBlockCRC := k0, crc;
      br.col.tPos, br.col.readCount := tPos, readCount;
      strm.out, strm.availOut := out, avail;
      this.m, this.steps := m, steps;
    }

    /** unRLE_obuf_to_output_SMALL: does nothing at all without room; works on the fields themselves. */
    method UnRleSmall(ghost k: Mark)
      returns (corrupt: bool)
      requires Valid() && br.rd.ctl.Output? && Since(k)
      modifies this`k0, this`nblockUsed, this`stateOutCh, this`stateOutLen, this`calculatedBlockCRC, this`m, this`steps
      modifies br.col`tPos, br.col`readCount, strm`out, strm`availOut
      ensures Valid() && Since(k) && br.rd.ctl.Output?
      ensures if corrupt then Overrun(m) && AtIncomplete(m) else OutputStops()
    {
      hide OnRun, BitsOk, Reading, ReadAt, Receiver.Valid, Onward, AtIncomplete;
      ghost var m0 := m;
      BeginOutput();
      while true
        invariant Valid() && br.rd.ctl.Output? && Since(k) && Onward(m0, m)
        decreases strm.availOut, if nblockUsed <= br.col.nblock + 5 then br.col.nblock + 5 - nblockUsed else 0
      {
        ghost var used0, avail1 := nblockUsed, strm.availOut;
        while true
          invariant Valid() && br.rd.ctl.Output? && Since(k) && Onward(m0, m)
          invariant nblockUsed == used0 && strm.availOut <= avail1
          decreases strm.availOut
        {
          if strm.availOut == 0 {
            return false;
          }
          if stateOutLen == 0 {
            break;
          }
          EmitOne(k, m0);
        }
        if nblockUsed == br.col.nblock + 1 {
          return false;
        }
        if nblockUsed > br.col.nblock + 1 {
          PastEnd();
          return true;
        }
        StartRun(m0);
      }
    }

    /** The end of a block: its checksum is compared and taken into that of the stream. */
    method FinishBlock()
      requires Valid() && br.rd.ctl.Output? && stateOutLen == 0 && nblockUsed == br.col.nblock + 1
      modifies this`m, this`steps, this`calculatedBlockCRC, this`calculatedCombinedCRC, br.rd`state, br.rd`ctl
      ensures Valid() && m.out == old(m.out) && (br.rd.ctl == Failed(BadData) || br.rd.ctl.BlkHdr?)
    {
      hide BytesToBits, StartMachine, Goes, ToBits, ReadAt, Combine, Final, Receiver.Valid, Onward, Receiver.Own;
      Separate();
      br.Size();
      br.Stored();
      BeginOutput();
      OutStepped(m);
      m := OutStep(m);
      steps := steps + 1;
      calculatedBlockCRC := Final(calculatedBlockCRC);
      if calculatedBlockCRC != br.rd.storedBlockCRC {
        br.Damaged();
      } else {
        calculatedCombinedCRC := Combine(calculatedCombinedCRC, calculatedBlockCRC);
        br.ToNextBlock();
      }
    }

    /** What a return code says. */
    ghost predicate CodeMeans(code: Code)
      requires Valid()
      reads this, Own(), strm
    {
      var ctl := br.rd.ctl;
      match code
      case CallOk => if ctl.Output? then strm.availOut == 0 else !Stopped(ctl) && strm.nextIn == [] && bsLive < Need(ctl)
      case StreamEnd => ctl.End? && ctl.stored == calculatedCombinedCRC
      case DataError => ctl == Failed(BadData) || (ctl.End? && ctl.stored != calculatedCombinedCRC) || AtIncomplete(m)
      case DataErrorMagic => ctl == Failed(BadMagic)
      case Unsupported => ctl.Randomised?
      case SequenceError => ctl.End?
    }

    /** What a call, entered with the machine at `m0`, leaves in the middle of a block.  When it reports damage, the small
        representation stands past the end, all bytes written and reported; the fast one stands where it stood when
        the call took the block up, although there was room for all the rest of it. */
    ghost predicate Leaves(code: Code, m0: Machine)
      reads this, Own(), strm
    {
      && (code == DataError && br.rd.ctl.Output? ==>
            if br.col.small then Overrun(m) else OverrunsWithin(m, strm.availOut) && (AtBlockStart(m) || m == m0))
      && (code == CallOk && !br.col.small ==> !Overrun(m))
    }

    /** All of the block that there is room for; `more` if the next block is to be read. */
    method WriteBlock(ghost k: Mark) returns (more: bool, code: Code)
      requires Valid() && br.rd.ctl.Output? && Since(k)
      modifies Repr()
      ensures 8 * |strm.nextIn| + bsLive == old(8 * |strm.nextIn| + bsLive)
      ensures Valid() && Since(k) && (if more then br.rd.ctl.BlkHdr? else CodeMeans(code) && code != SequenceError)
      ensures !more ==> Leaves(code, old(m))
    {
      hide OnRun, BitsOk, Reading, Writing, Receiver.Valid, OverrunsWithin;
      var corrupt;
      if br.col.small {
        corrupt := UnRleSmall(k);
      } else {
        corrupt := UnRleFast(k);
      }
      if corrupt {
        return false, DataError;
      }
      if nblockUsed == br.col.nblock + 1 && stateOutLen == 0 {
        FinishBlock();
        Labels();
        return br.rd.state != X_BAD_DATA, DataError;
      }
      return false, CallOk;
    }

    /** BZ2_bzDecompress */
    method BzDecompress() returns (code: Code)
      requires Valid()
      modifies Repr()
      ensures Valid() && CodeMeans(code)
      ensures Since(old(Now()))
      ensures code == SequenceError <==> old(br.rd.ctl.End?)
      ensures Leaves(code, old(m))
    {
      hide Since, OnRun, BitsOk, Writing, Receiver.Valid, Receiver.Own, AtBlockStart, OverrunsWithin;
      ghost var k := Now();
      NothingYet();
      Labels();
      if br.rd.state == X_IDLE {
        return SequenceError;
      }
      while true
        invariant Valid() && Since(k) && !br.rd.ctl.End?
        invariant br.rd.ctl.Output? ==> AtBlockStart(m) || m == old(m)
        decreases 8 * |strm.nextIn| + bsLive
      {
        Labels();
        if br.rd.state == X_OUTPUT {
          var more;
          more, code := WriteBlock(k);
          if !more {
            return;
          }
        }
        Decompress(k);
        Labels();
        if br.rd.state != X_OUTPUT {
          return CodeOf();
        }
      }
    }

    /** The return code when the parser has stopped or is waiting for input. */
    function CodeOf(): (code: Code)
      requires Valid() && !br.rd.ctl.Output? && (!Stopped(br.rd.ctl) ==> strm.nextIn == [] && bsLive < Need(br.rd.ctl))
      reads this, Own(), strm
      ensures CodeMeans(code) && code != SequenceError
    {
      Labels();
      br.Stored();
      if br.rd.state == X_IDLE then (if calculatedCombinedCRC != br.rd.storedCombinedCRC then DataError else StreamEnd)
      else if br.rd.state == X_BAD_DATA then DataError
      else if br.rd.state == X_BAD_MAGIC then DataErrorMagic
      else if br.rd.state == X_RANDOMISED then Unsupported
      else CallOk
    }

    lemma NothingYet()
      ensures Since(Now())
    {
      assert strm.out[|strm.out|..] == [] && m.out + [] == m.out;
    }
  }

  lemma RanOver(m0: Machine, avail0: nat, m: Machine, avail: nat)
    requires Onward(m0, m) && Overrun(m) && AtIncomplete(m) && m.x == m0.x && |m0.out| + avail0 == |m.out| + avail
    ensures OverrunsWithin(m0, avail0) && AtIncomplete(m0)
  {
    hide Goes, Unsorted;
  }

  lemma OneMoreOut(out: seq<Byte>, sent0: seq<Byte>, o: seq<Byte>, out0: seq<Byte>, x: Byte)
    requires out0 <= o && out == sent0 + o[|out0|..]
    ensures out0 <= o + [x] && out + [x] == sent0 + (o + [x])[|out0|..]
  {
    assert (o + [x])[|out0|..] == o[|out0|..] + [x];
  }

  lemma GoesOne(s: State)
    requires MachineOk(s.m) && !Stuck(s)
    ensures Goes(s, 1, Step(s))
  {
    hide Step, Stuck;
    GoesNowhere(Step(s));
  }

  lemma ParsedKeeps(m: Machine, y: Conf)
    ensures Parsed(m, y).comb == m.comb && Parsed(m, y).out == m.out
  {
  }
}
