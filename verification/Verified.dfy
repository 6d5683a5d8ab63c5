/** Which inputs are accepted: exactly those in the format, every block of which has the checksum of its own data in front of it.
    Their output is the data of the blocks.

    And which are refused: exactly those that go on, behind such blocks, with what no block begins with, or with a whole block
    whose checksum is wrong; the first is noticed at once, the second when the block has been written out.
 */
module Verified {
  import opened AnyInput
  import opened BitIO
  import opened Bits
  import opened BlockParser
  import opened BlockPrinter
  import opened Crc
  import opened Format
  import opened FormatLeads
  import opened FormatRejected
  import opened FormatSeen
  import opened Header
  import opened InverseBwt
  import opened MoveToFront
  import opened OutputStage
  import opened Rotations
  import opened RunLength
  import opened Stream
  import opened StreamMachine

  /** A block as it was parsed: its head and its last column. */
  datatype Part = Part(h: Head, column: seq<Byte>)

  ghost predicate PartOk(p: Part) {
    p.h.orig < |p.column|
  }

  /** The bytes that the block stands for. */
  ghost function PartData(p: Part): seq<Byte>
    requires PartOk(p)
  {
    UnRle(Unsorted(p.column, p.h.orig)).out
  }

  /** The block is whole, and the checksum stored in front of it is that of its data. */
  ghost predicate Intact(p: Part) {
    PartOk(p) && Complete(Unsorted(p.column, p.h.orig)) && p.h.crc == OfBytes(PartData(p))
  }

  ghost predicate AllIntact(ps: seq<Part>) {
    forall i :: 0 <= i < |ps| ==> Intact(ps[i])
  }

  ghost function DataOfAll(ps: seq<Part>): seq<Byte>
    requires AllIntact(ps)
  {
    if ps == [] then [] else DataOfAll(ps[..|ps| - 1]) + PartData(ps[|ps| - 1])
  }

  /** Bit `i` of the combined checksum: every block's checksum counts, turned by one bit for each block after it. */
  ghost function CombinedBit(ps: seq<Part>, i: nat): bool
    requires i < 32
  {
    if ps == [] then false
    else CombinedBit(ps[..|ps| - 1], if i == 31 then 0 else i + 1) != ps[|ps| - 1].h.crc[i]
  }

  ghost predicate IsCombined(w: Word, ps: seq<Part>) {
    forall i :: 0 <= i < 32 ==> w[i] == CombinedBit(ps, i)
  }

  /** A text of the block. */
  ghost predicate IsTextOf(t: Bits, p: Part, level: nat) {
    p.h.level == level && exists tb :: BlockText(t, p.h, tb, p.column)
  }

  ghost predicate AreTexts(ts: seq<Bits>, ps: seq<Part>, level: nat) {
    |ts| == |ps| && forall i :: 0 <= i < |ts| ==> IsTextOf(ts[i], ps[i], level)
  }

  ghost function Joined(ts: seq<Bits>): Bits {
    if ts == [] then [] else Joined(ts[..|ts| - 1]) + ts[|ts| - 1]
  }

  /** The text of a stream: header, intact blocks, and the trailer with their combined checksum.  Whatever follows is not part of it. */
  ghost predicate StreamText(bits: Bits, level: nat, ps: seq<Part>, ts: seq<Bits>, comb: Word, rest: Bits) {
    && 1 <= level <= 9 && AllIntact(ps) && AreTexts(ts, ps, level) && IsCombined(comb, ps)
    && bits == MagicBits(level) + Joined(ts) + (EndMagic() + comb) + rest
  }

  /** What has been written: intact blocks, and the beginning of the one being written out. */
  ghost predicate History(m: Machine, ps: seq<Part>) {
    && MachineOk(m) && AllIntact(ps) && IsCombined(m.comb, ps)
    && if m.x.ctl.Output? then exists done :: InBlock(m, DataOfAll(ps), done) else m.out == DataOfAll(ps)
  }

  lemma HistoryStart()
    ensures MachineOk(StartMachine()) && History(StartMachine(), [])
  {
    Starts();
    assert StartMachine().x.ctl == Magic(0);
  }

  // ----- One step.

  lemma HistoryParsed(s: State, ps: seq<Part>)
    requires MachineOk(s.m) && !Stuck(s) && !s.m.x.ctl.Output? && History(s.m, ps)
    ensures History(Step(s).m, ps) && (Step(s).m.x.ctl.Output? ==> AtBlockStart(Step(s).m))
  {
    hide Handle, CtlOk, Need, InBlock, DataOfAll, CombinedBit, AllIntact;
    if Step(s).m.x.ctl.Output? {
      StartInBlock(Step(s).m);
    }
  }

  lemma HistoryWriting(m: Machine, ps: seq<Part>)
    requires MachineOk(m) && m.x.ctl.Output? && !Overrun(m) && History(m, ps)
    requires m.o.len > 0 || m.o.used <= |m.x.ctl.column|
    ensures MachineOk(OutStep(m)) && History(OutStep(m), ps) && OutStep(m).x == m.x
  {
    hide InBlock, DataOfAll, CombinedBit, AllIntact, OutStep;
    var done :| InBlock(m, DataOfAll(ps), done);
    if m.o.len > 0 {
      OneByteWritten(m, DataOfAll(ps), done);
    } else {
      RunTaken(m, DataOfAll(ps), done);
    }
  }

  lemma CombinedPush(comb: Word, ps: seq<Part>, p: Part, crc: Word)
    requires IsCombined(comb, ps) && p.h.crc == crc
    ensures IsCombined(Combine(comb, crc), ps + [p])
  {
    assert (ps + [p])[..|ps|] == ps;
    var turned := comb[1..] + [comb[0]];
    forall i | 0 <= i < 32
      ensures Combine(comb, crc)[i] == CombinedBit(ps + [p], i)
    {
      assert turned[i] == comb[if i == 31 then 0 else i + 1];
    }
  }

  lemma DataPush(ps: seq<Part>, p: Part)
    requires AllIntact(ps) && Intact(p)
    ensures AllIntact(ps + [p]) && DataOfAll(ps + [p]) == DataOfAll(ps) + PartData(p)
  {
    hide Intact;
    assert (ps + [p])[..|ps|] == ps;
  }

  /** Where the last byte of a block has been written. */
  ghost predicate AtBlockEnd(m: Machine) {
    MachineOk(m) && m.x.ctl.Output? && m.o.len == 0 && m.o.used == |m.x.ctl.column| + 1
  }

  function PartOf(m: Machine): Part
    requires m.x.ctl.Output?
  {
    Part(m.x.ctl.h, m.x.ctl.column)
  }

  lemma BlockWritten(m: Machine, out0: seq<Byte>, done: seq<Byte>)
    requires AtBlockEnd(m) && InBlock(m, out0, done)
    ensures PartOk(PartOf(m)) && Complete(BlockOf(m)) && m.out == out0 + PartData(PartOf(m)) && Final(m.crc) == OfBytes(PartData(PartOf(m)))
  {
    hide UnRle, Unsorted, Complete, BetweenRuns, RunsOut, Final, CtlOk;
    AllWritten(m, out0, done);
    RightSum(m.crc, done);
  }

  lemma BlockEnds(m: Machine)
    requires AtBlockEnd(m)
    ensures MachineOk(OutStep(m)) && OutStep(m).out == m.out
    ensures if m.x.ctl.h.crc == Final(m.crc) then OutStep(m).x.ctl == BlkHdr(m.x.ctl.h.level, 0) && OutStep(m).comb == Combine(m.comb, m.x.ctl.h.crc)
            else OutStep(m).x.ctl == Failed(BadData)
  {
    hide Final, Combine;
  }

  /** At the end of a block: either its checksum is right and it is one more intact block, or the input is rejected. */
  lemma HistoryBlockEnd(m: Machine, ps: seq<Part>)
    requires AtBlockEnd(m) && History(m, ps)
    ensures var p := PartOf(m);
            && MachineOk(OutStep(m)) && PartOk(p) && Complete(BlockOf(m)) && OutStep(m).out == DataOfAll(ps) + PartData(p)
            && if p.h.crc == OfBytes(PartData(p)) then Intact(p) && History(OutStep(m), ps + [p]) && OutStep(m).x.ctl == BlkHdr(p.h.level, 0)
               else OutStep(m).x.ctl == Failed(BadData)
  {
    hide DataOfAll, CombinedBit, PartData, Complete, InBlock, OutStep, Combine, Final, OfBytes, IsCombined, AllIntact, CtlOk;
    var p := PartOf(m);
    var done :| InBlock(m, DataOfAll(ps), done);
    BlockWritten(m, DataOfAll(ps), done);
    BlockEnds(m);
    if p.h.crc == OfBytes(PartData(p)) {
      CombinedPush(m.comb, ps, p, p.h.crc);
      DataPush(ps, p);
    }
  }

  lemma RightSum(w: Word, s: seq<Byte>)
    requires IsRunning(w, s)
    ensures Final(w) == OfBytes(s)
  {
  }

  // ----- Whole runs.

  ghost predicate AtLevel(c: Ctl, level: nat) {
    c.End? || c.Randomised? || c.Failed? || LevelOf(c) == level
  }

  /** Where the run stands: the blocks so far, their texts, and what has been taken of the text of the next one. */
  ghost predicate Along(bits: Bits, s: State, level: nat, ps: seq<Part>, ts: seq<Bits>, cur: Bits) {
    && MachineOk(s.m) && History(s.m, ps) && 1 <= level <= 9 && AreTexts(ts, ps, level)
    && if s.m.x.ctl.Magic? then ps == [] && cur == MagicPart(s.m.x.ctl.k) && bits == cur + s.bits
       else Seen(s.m.x, cur, level) && AtLevel(s.m.x.ctl, level) && bits == MagicBits(level) + Joined(ts) + cur + s.bits
  }

  lemma AtThisLevel(c: Ctl, level: nat)
    requires AtLevel(c, level) && !Stopped(c)
    ensures LevelOf(c) == level
  {
    hide LevelOf;
  }

  lemma AlongHeader(bits: Bits, s: State, level: nat, cur: Bits) returns (level': nat, cur': Bits)
    requires Along(bits, s, level, [], [], cur) && s.m.x.ctl.Magic? && !Stuck(s) && !Step(s).m.x.ctl.Failed?
    ensures Along(bits, Step(s), level', [], [], cur')
  {
    hide ToBits, Val, AllIntact, IsCombined;
    var k, bs := s.m.x.ctl.k, s.bits[..8];
    ByteSeen(bs);
    HistoryParsed(s, []);
    assert s.bits == bs + s.bits[8..];
    if k < 3 {
      level', cur' := level, cur + bs;
      assert bits == cur + bs + s.bits[8..];
    } else {
      level', cur' := Val(bs) - 0x30, [];
      HeaderWhole(level', cur, bs);
      assert bits == MagicBits(level') + Joined([]) + [] + s.bits[8..];
    }
  }

  lemma HeaderWhole(level: nat, a: Bits, bs: Bits)
    requires 1 <= level <= 9 && a == MagicPart(3) && bs == ByteBits(0x30 + level)
    ensures a + bs == MagicBits(level)
  {
    hide ToBits;
    assert MagicPart(1) == ByteBits(0x42);
    assert MagicPart(2) == ByteBits(0x42) + ByteBits(0x5a);
  }

  lemma AlongParsed(bits: Bits, s: State, level: nat, ps: seq<Part>, ts: seq<Bits>, cur: Bits) returns (cur': Bits)
    requires Along(bits, s, level, ps, ts, cur) && !Stuck(s) && !s.m.x.ctl.Magic? && !s.m.x.ctl.Output?
    requires !Step(s).m.x.ctl.Magic?
    ensures Along(bits, Step(s), level, ps, ts, cur')
  {
    hide Seen, History, Handle, CtlOk, Need, AreTexts, MagicBits, Joined, LevelOf;
    var n := Need(s.m.x.ctl);
    var bs := s.bits[..n];
    HistoryParsed(s, ps);
    AtThisLevel(s.m.x.ctl, level);
    SeenNext(s.m.x, cur, bs, level);
    LevelKept(s.m.x, bs);
    cur' := cur + bs;
    Taken(MagicBits(level) + Joined(ts), cur, s.bits, n);
  }

  lemma Taken(a: Bits, cur: Bits, bits: Bits, n: nat)
    requires n <= |bits|
    ensures a + cur + bits == a + (cur + bits[..n]) + bits[n..]
  {
  }

  lemma AlongBlockEnd(bits: Bits, s: State, level: nat, ps: seq<Part>, ts: seq<Bits>, cur: Bits)
    requires Along(bits, s, level, ps, ts, cur) && AtBlockEnd(s.m) && !Stuck(s) && !Step(s).m.x.ctl.Failed?
    ensures Along(bits, Step(s), level, ps + [PartOf(s.m)], ts + [cur], [])
  {
    hide History, BlockText, OutStep, Complete, OfBytes, PartData, DataOfAll, Intact, MagicBits;
    var p := PartOf(s.m);
    HistoryBlockEnd(s.m, ps);
    assert IsTextOf(cur, p, level);
    TextsPush(ts, ps, level, cur, p);
    var a := MagicBits(level);
    assert a + (Joined(ts) + cur) + [] + s.bits == a + Joined(ts) + cur + s.bits;
  }

  lemma TextsPush(ts: seq<Bits>, ps: seq<Part>, level: nat, t: Bits, p: Part)
    requires AreTexts(ts, ps, level) && IsTextOf(t, p, level)
    ensures AreTexts(ts + [t], ps + [p], level) && Joined(ts + [t]) == Joined(ts) + t
  {
    hide IsTextOf;
    assert (ts + [t])[..|ts|] == ts;
  }

  lemma AlongStep(bits: Bits, s: State, level: nat, ps: seq<Part>, ts: seq<Bits>, cur: Bits)
    returns (level': nat, ps': seq<Part>, ts': seq<Bits>, cur': Bits)
    requires Along(bits, s, level, ps, ts, cur) && !Stuck(s) && !Step(s).m.x.ctl.Failed?
    ensures Along(bits, Step(s), level', ps', ts', cur')
  {
    hide History, Seen, Handle, CtlOk, Need, AreTexts, MagicBits, Joined, LevelOf, MagicPart;
    level', ps', ts', cur' := level, ps, ts, cur;
    if s.m.x.ctl.Magic? {
      NoTexts(ts, ps, level);
      level', cur' := AlongHeader(bits, s, level, cur);
    } else if !s.m.x.ctl.Output? {
      MagicOver(s);
      cur' := AlongParsed(bits, s, level, ps, ts, cur);
    } else if s.m.o.len > 0 || s.m.o.used <= |s.m.x.ctl.column| {
      HistoryWriting(s.m, ps);
    } else {
      AlongBlockEnd(bits, s, level, ps, ts, cur);
      ps', ts', cur' := ps + [PartOf(s.m)], ts + [cur], [];
    }
  }

  lemma MagicOver(s: State)
    requires MachineOk(s.m) && !Stuck(s) && !s.m.x.ctl.Magic? && !s.m.x.ctl.Output?
    ensures !Step(s).m.x.ctl.Magic?
  {
    hide CtlOk, Handle, Need;
    LaterNoMagic(s.m.x, s.bits[..Need(s.m.x.ctl)]);
  }

  lemma NoTexts(ts: seq<Bits>, ps: seq<Part>, level: nat)
    requires AreTexts(ts, ps, level) && ps == []
    ensures ts == []
  {
  }

  lemma {:induction false} AlongGoes(bits: Bits, s: State, level: nat, ps: seq<Part>, ts: seq<Bits>, cur: Bits, k: nat, t: State)
    returns (level': nat, ps': seq<Part>, ts': seq<Bits>, cur': Bits)
    requires Along(bits, s, level, ps, ts, cur) && MachineOk(s.m) && Goes(s, k, t) && !t.m.x.ctl.Failed?
    ensures Along(bits, t, level', ps', ts', cur')
    decreases k
  {
    hide Along, Step;
    if k == 0 {
      level', ps', ts', cur' := level, ps, ts, cur;
    } else {
      NotFailedYet(Step(s), k - 1, t);
      level', ps', ts', cur' := AlongStep(bits, s, level, ps, ts, cur);
      level', ps', ts', cur' := AlongGoes(bits, Step(s), level', ps', ts', cur', k - 1, t);
    }
  }

  lemma NotFailedYet(s: State, k: nat, t: State)
    requires MachineOk(s.m) && Goes(s, k, t) && !t.m.x.ctl.Failed?
    ensures !s.m.x.ctl.Failed?
  {
    hide CtlOk, Handle;
  }

  /** Wherever an input takes the machine, short of an error: what has been taken is the text of intact blocks, in order, and the
      beginning of one more, and what has been written is their data, and the beginning of the last one's. */
  lemma WrittenIsIntact(z: seq<Byte>, k: nat, s: State) returns (level: nat, ps: seq<Part>, ts: seq<Bits>, cur: Bits)
    requires Reaches(z, k, s) && !s.m.x.ctl.Failed?
    ensures Along(BytesToBits(z), s, level, ps, ts, cur)
  {
    hide Goes, BytesToBits, Along;
    Starts();
    var start := State(StartMachine(), BytesToBits(z));
    AlongStart(start.bits);
    level, ps, ts, cur := AlongGoes(start.bits, start, 1, [], [], [], k, s);
  }

  lemma AlongStart(bits: Bits)
    ensures Along(bits, State(StartMachine(), bits), 1, [], [], [])
  {
    HistoryStart();
    assert [] + bits == bits;
  }

  /** What is accepted is in the format, and the output is the data of its blocks. */
  lemma EndIsIntact(z: seq<Byte>, k: nat, s: State) returns (level: nat, ps: seq<Part>, ts: seq<Bits>)
    requires Reaches(z, k, s) && s.m.x.ctl.End? && s.m.x.ctl.stored == s.m.comb
    ensures StreamText(BytesToBits(z), level, ps, ts, s.m.comb, s.bits) && s.m.out == DataOfAll(ps)
  {
    hide Goes, BytesToBits, AllIntact, AreTexts, IsCombined, MagicBits, EndMagic, Joined;
    var cur;
    level, ps, ts, cur := WrittenIsIntact(z, k, s);
  }

  // ----- The converse.

  lemma {:induction false} TextsGo(m: Machine, level: nat, ps: seq<Part>, ts: seq<Bits>, rest: Bits) returns (k: nat, m': Machine)
    requires AllIntact(ps) && AreTexts(ts, ps, level) && Between(m, level, Zeros(32), []) && 1 <= level <= 9
    ensures MachineOk(m) && Goes(State(m, Joined(ts) + rest), k, State(m', rest))
    ensures Between(m', level, m'.comb, DataOfAll(ps)) && IsCombined(m'.comb, ps)
    decreases |ps|
  {
    hide Goes, Combine, PartData, Intact, MachineOk, IsTextOf, IsCombined;
    if ps == [] {
      k, m' := 0, m;
      assert [] + rest == rest;
      GoesNowhere(State(m, rest));
      NoneCombined();
    } else {
      var j := |ps| - 1;
      var k1, n := TextsGo(m, level, ps[..j], ts[..j], ts[j] + rest);
      var k2;
      k2, m' := TextOfGoes(n, ts[j], ps[j], level, rest);
      CombinedPush(n.comb, ps[..j], ps[j], ps[j].h.crc);
      assert ps[..j] + [ps[j]] == ps;
      Assoc(Joined(ts[..j]), ts[j], rest);
      GoesThen(State(m, Joined(ts) + rest), k1, State(n, ts[j] + rest), k2, State(m', rest));
      k := k1 + k2;
    }
  }

  lemma NoneCombined()
    ensures IsCombined(Zeros(32), [])
  {
  }

  lemma TextOfGoes(m: Machine, t: Bits, p: Part, level: nat, rest: Bits) returns (k: nat, m': Machine)
    requires IsTextOf(t, p, level) && Intact(p) && MachineOk(m) && m.x.ctl == BlkHdr(level, 0)
    ensures Goes(State(m, t + rest), k, State(m', rest)) && Between(m', level, Combine(m.comb, p.h.crc), m.out + PartData(p))
  {
    hide Goes, BlockText, Combine, OfBytes, UnRle, Unsorted, Complete;
    var tb :| BlockText(t, p.h, tb, p.column);
    k, m' := TextGoes(m, t, p.h, tb, p.column, rest);
  }

  lemma SameCombined(a: Word, b: Word, ps: seq<Part>)
    requires IsCombined(a, ps) && IsCombined(b, ps)
    ensures a == b
  {
    assert forall i :: 0 <= i < 32 ==> a[i] == b[i];
  }

  /** What is in the format is accepted, and nothing behind it is looked at. */
  lemma TextEnds(z: seq<Byte>, level: nat, ps: seq<Part>, ts: seq<Bits>, comb: Word, rest: Bits) returns (k: nat, s: State)
    requires StreamText(BytesToBits(z), level, ps, ts, comb, rest)
    ensures Reaches(z, k, s) && Finished(s.m, DataOfAll(ps)) && s.m.comb == comb && s.bits == rest
  {
    hide Goes, BytesToBits, MagicBits, EndMagic, Joined, DataOfAll, IsCombined, AreTexts, Between;
    var a, b, c := MagicBits(level), Joined(ts), EndMagic() + comb;
    assert a + b + c + rest == a + (b + (c + rest));
    var k1, m1 := HeaderGoes(level, b + (c + rest));
    var k2, m2 := TextsGo(m1, level, ps, ts, c + rest);
    SameCombined(m2.comb, comb, ps);
    var k3, m3 := TrailerGoes(m2, level, comb, DataOfAll(ps), rest);
    BetweenOk(m1, level);
    BetweenOk(m2, level);
    GoesThen(State(m1, b + (c + rest)), k2, State(m2, c + rest), k3, State(m3, rest));
    GoesThen(State(StartMachine(), a + (b + (c + rest))), k1, State(m1, b + (c + rest)), k2 + k3, State(m3, rest));
    k, s := k1 + (k2 + k3), State(m3, rest);
  }

  /** The input begins with a stream that stands for `data`. */
  ghost predicate StandsFor(z: seq<Byte>, data: seq<Byte>) {
    exists level, ps, ts, comb, rest :: StreamText(BytesToBits(z), level, ps, ts, comb, rest) && DataOfAll(ps) == data
  }

  lemma Stands(z: seq<Byte>, level: nat, ps: seq<Part>, ts: seq<Bits>, comb: Word, rest: Bits)
    requires StreamText(BytesToBits(z), level, ps, ts, comb, rest)
    ensures AllIntact(ps) && StandsFor(z, DataOfAll(ps))
  {
    hide BytesToBits, AllIntact, AreTexts, IsCombined, DataOfAll, MagicBits, EndMagic, Joined;
  }

  /** The machine accepts exactly the inputs that begin with a stream, and writes exactly what it stands for. */
  lemma AcceptedIff(z: seq<Byte>, e: State, data: seq<Byte>)
    requires EndsIn(z, e)
    ensures StandsFor(z, data) <==> Finished(e.m, data)
  {
    hide Goes, BytesToBits, Stuck, DataOfAll, AllIntact, AreTexts, IsCombined;
    if StandsFor(z, data) {
      var level, ps, ts, comb, rest :| StreamText(BytesToBits(z), level, ps, ts, comb, rest) && DataOfAll(ps) == data;
      var k, s := TextEnds(z, level, ps, ts, comb, rest);
      EndStuck(s);
      var j := BeforeEnd(z, k, s, e);
    }
    if Finished(e.m, data) {
      var k: nat :| Reaches(z, k, e);
      var level, ps, ts := EndIsIntact(z, k, e);
    }
  }

  /** No input stands for two different things. */
  lemma Unambiguous(z: seq<Byte>, data: seq<Byte>, data': seq<Byte>)
    requires StandsFor(z, data) && StandsFor(z, data')
    ensures data == data'
  {
    hide EndsIn, StandsFor;
    var e := EveryInputEnds(z);
    AcceptedIff(z, e, data);
    AcceptedIff(z, e, data');
  }

  lemma EndStuck(s: State)
    requires MachineOk(s.m) && s.m.x.ctl.End?
    ensures Stuck(s)
  {
  }

  // ----- Damaged blocks.

  /** The machine is writing out a whole block whose stored checksum is not that of its data. */
  ghost predicate AtDamaged(m: Machine)
    requires MachineOk(m)
  {
    m.x.ctl.Output? && Complete(BlockOf(m)) && m.x.ctl.h.crc != OfBytes(UnRle(BlockOf(m)).out)
  }

  /** Such a block is written out to its end, and then the input is rejected. */
  lemma DamagedGoes(m: Machine, out0: seq<Byte>, done: seq<Byte>, bits: Bits) returns (k: nat, m': Machine)
    requires MachineOk(m) && InBlock(m, out0, done) && AtDamaged(m)
    ensures Goes(State(m, bits), k, State(m', bits)) && MachineOk(m') && Stuck(State(m', bits))
    ensures m'.x.ctl == Failed(BadData) && m'.out == out0 + UnRle(BlockOf(m)).out
  {
    hide Goes, InBlock, Unsorted, Complete, UnRle, Final, OutStep;
    var done1;
    var k1, n;
    k1, n, done1 := BlockGoes(m, out0, done, bits);
    AllWritten(n, out0, done1);
    BlockWritten(n, out0, done1);
    m' := OutStep(n);
    BlockEnds(n);
    OutGoes(n, bits);
    GoesThen(State(m, bits), k1, State(n, bits), 1, State(m', bits));
    k := k1 + 1;
  }

  /** The input leads to a whole block with a wrong checksum. */
  ghost predicate ReachesDamaged(z: seq<Byte>) {
    exists k, s :: Reaches(z, k, s) && AtDamaged(s.m)
  }

  /** Then it is rejected. */
  lemma DamagedEnds(z: seq<Byte>, e: State)
    requires EndsIn(z, e) && ReachesDamaged(z)
    ensures e.m.x.ctl == Failed(BadData)
  {
    hide BytesToBits, Goes, Stuck, StartMachine, InBlock, Unsorted, Complete, UnRle;
    var k: nat, s :| Reaches(z, k, s) && AtDamaged(s.m);
    var j := BeforeEnd(z, k, s, e);
    var out0, done :| InBlock(s.m, out0, done);
    var i, n := DamagedGoes(s.m, out0, done, s.bits);
    StuckLast(s, i, State(n, s.bits), j, e);
  }

  // ----- Which inputs are refused.

  /** A whole block whose stored checksum is not that of its data. */
  ghost predicate DamagedText(t: Bits, level: nat) {
    exists p: Part :: PartOk(p) && IsTextOf(t, p, level) && Complete(Unsorted(p.column, p.h.orig)) && p.h.crc != OfBytes(PartData(p))
  }

  /** Behind some intact blocks there is what no block begins with, or a block with a wrong checksum. */
  ghost predicate RefusedText(bits: Bits, level: nat, ps: seq<Part>, ts: seq<Bits>, cur: Bits, rest: Bits) {
    && 1 <= level <= 9 && AllIntact(ps) && AreTexts(ts, ps, level) && (RejectedText(cur, level) || DamagedText(cur, level))
    && bits == MagicBits(level) + Joined(ts) + cur + rest
  }

  ghost predicate Refused(z: seq<Byte>) {
    exists level, ps, ts, cur, rest :: RefusedText(BytesToBits(z), level, ps, ts, cur, rest)
  }

  lemma {:induction false} BeforeLast(s: State, k: nat, t: State) returns (u: State)
    requires MachineOk(s.m) && Goes(s, k, t) && s.m.x.ctl != t.m.x.ctl
    ensures k > 0 && Goes(s, k - 1, u) && MachineOk(u.m) && !Stuck(u) && Step(u) == t
    decreases k
  {
    hide Step, Stuck;
    if k == 1 {
      u := s;
    } else if Step(s).m.x.ctl != t.m.x.ctl {
      u := BeforeLast(Step(s), k - 1, t);
    } else {
      u := LastOfRun(s, k, t);
    }
  }

  lemma {:induction false} LastOfRun(s: State, k: nat, t: State) returns (u: State)
    requires MachineOk(s.m) && k > 0 && Goes(s, k, t)
    ensures Goes(s, k - 1, u) && MachineOk(u.m) && !Stuck(u) && Step(u) == t
    decreases k
  {
    hide Step, Stuck;
    if k == 1 {
      u := s;
    } else {
      u := LastOfRun(Step(s), k - 1, t);
    }
  }

  /** The step to the error. */
  lemma RefusedAt(bits: Bits, s: State, level: nat, ps: seq<Part>, ts: seq<Bits>, cur: Bits) returns (cur': Bits)
    requires Along(bits, s, level, ps, ts, cur) && !Stuck(s) && Step(s).m.x.ctl == Failed(BadData)
    ensures RefusedText(bits, level, ps, ts, cur', Step(s).bits)
  {
    hide Seen, History, AllIntact, Handle, CtlOk, Need, AreTexts, MagicBits, Joined, LevelOf, RejectedText, DamagedText, AtLevel, MagicPart;
    AlongIntact(bits, s, level, ps, ts, cur);
    if s.m.x.ctl.Magic? {
      HeaderNotData(s);
      assert false;
    } else if s.m.x.ctl.Output? {
      cur' := cur;
      DamagedAt(s, level, ps, cur);
    } else {
      var n := Need(s.m.x.ctl);
      cur' := cur + s.bits[..n];
      AtThisLevel(s.m.x.ctl, level);
      SeenNext(s.m.x, cur, s.bits[..n], level);
      RejectedSeen(Step(s).m.x, cur', level);
      Taken(MagicBits(level) + Joined(ts), cur, s.bits, n);
    }
  }

  lemma AlongIntact(bits: Bits, s: State, level: nat, ps: seq<Part>, ts: seq<Bits>, cur: Bits)
    requires Along(bits, s, level, ps, ts, cur)
    ensures MachineOk(s.m) && History(s.m, ps) && AllIntact(ps) && 1 <= level <= 9 && AreTexts(ts, ps, level)
  {
    hide AllIntact, AreTexts, Seen, IsCombined, DataOfAll;
  }

  lemma HeaderNotData(s: State)
    requires MachineOk(s.m) && !Stuck(s) && s.m.x.ctl.Magic?
    ensures Step(s).m.x.ctl != Failed(BadData)
  {
    hide Val;
  }

  lemma RejectedSeen(x: Conf, t: Bits, level: nat)
    requires x.ctl.Failed? && Seen(x, t, level)
    ensures RejectedText(t, level)
  {
    hide RejectedText;
  }

  lemma DamagedAt(s: State, level: nat, ps: seq<Part>, cur: Bits)
    requires MachineOk(s.m) && !Stuck(s) && s.m.x.ctl.Output? && Step(s).m.x.ctl == Failed(BadData) && History(s.m, ps)
    requires Seen(s.m.x, cur, level)
    ensures DamagedText(cur, level)
  {
    hide History, BlockText, Complete, OfBytes, PartData, Unsorted, Final, AllIntact, InBlock, CtlOk;
    StepIsOutStep(s);
    if s.m.o.len == 0 && s.m.o.used > |s.m.x.ctl.column| {
      HistoryBlockEnd(s.m, ps);
      assert IsTextOf(cur, PartOf(s.m), level);
    } else {
      HistoryWriting(s.m, ps);
    }
  }

  lemma StepIsOutStep(s: State)
    requires MachineOk(s.m) && !Stuck(s) && s.m.x.ctl.Output?
    ensures !Overrun(s.m) && Step(s) == State(OutStep(s.m), s.bits)
  {
  }

  /** One half: what ends refused has one of the two reasons. */
  lemma RefusedHasReason(z: seq<Byte>, e: State)
    requires EndsIn(z, e) && e.m.x.ctl == Failed(BadData)
    ensures Refused(z)
  {
    hide Goes, BytesToBits, Along, RefusedText, Step, Stuck;
    var k: nat :| Reaches(z, k, e);
    var start := State(StartMachine(), BytesToBits(z));
    NotFailedAtStart();
    var s := BeforeLast(start, k, e);
    NotFailedUnstuck(s);
    assert Reaches(z, k - 1, s);
    var level, ps, ts, cur := WrittenIsIntact(z, k - 1, s);
    cur := RefusedAt(BytesToBits(z), s, level, ps, ts, cur);
  }

  lemma NotFailedAtStart()
    ensures !StartMachine().x.ctl.Failed?
  {
  }

  lemma NotFailedUnstuck(s: State)
    requires MachineOk(s.m) && !Stuck(s)
    ensures !s.m.x.ctl.Failed?
  {
    hide CtlOk;
  }

  /** The other half: with one of the reasons the run comes to the error, and no further. */
  lemma ReasonRefuses(z: seq<Byte>, level: nat, ps: seq<Part>, ts: seq<Bits>, cur: Bits, rest: Bits) returns (k: nat, s: State)
    requires RefusedText(BytesToBits(z), level, ps, ts, cur, rest)
    ensures Reaches(z, k, s) && s.m.x.ctl == Failed(BadData)
  {
    hide Goes, BytesToBits, MagicBits, Joined, DataOfAll, IsCombined, AreTexts, AllIntact, Between, RejectedText, DamagedText;
    var a, b := MagicBits(level), Joined(ts);
    Regrouped(a, b, cur, rest);
    var k1, m1 := HeaderGoes(level, b + (cur + rest));
    var k2, m2 := TextsGo(m1, level, ps, ts, cur + rest);
    BetweenOk(m1, level);
    BetweenIs(m2, level);
    var k3, m3 := CurrentFails(m2, level, cur, rest);
    GoesThen(State(m1, b + (cur + rest)), k2, State(m2, cur + rest), k3, State(m3, rest));
    GoesThen(State(StartMachine(), a + (b + (cur + rest))), k1, State(m1, b + (cur + rest)), k2 + k3, State(m3, rest));
    k, s := k1 + (k2 + k3), State(m3, rest);
  }

  lemma Regrouped(a: Bits, b: Bits, c: Bits, d: Bits)
    ensures a + b + c + d == a + (b + (c + d))
  {
  }

  lemma BetweenIs(m: Machine, level: nat)
    ensures forall comb, out :: Between(m, level, comb, out) ==> MachineOk(m) && m.x.ctl == BlkHdr(level, 0)
  {
  }

  lemma CurrentFails(m: Machine, level: nat, cur: Bits, rest: Bits) returns (k: nat, m': Machine)
    requires MachineOk(m) && m.x.ctl == BlkHdr(level, 0) && 1 <= level <= 9 && (RejectedText(cur, level) || DamagedText(cur, level))
    ensures MachineOk(m') && Goes(State(m, cur + rest), k, State(m', rest)) && m'.x.ctl == Failed(BadData)
  {
    hide Goes, Leads, RejectedText, BlockText, Unsorted, Complete, UnRle, OfBytes;
    if RejectedText(cur, level) {
      RejectedFails(cur, level, m.x.dec);
      var y: Conf :| y.ctl == Failed(BadData) && Leads(Conf(BlkHdr(level, 0), m.x.dec), cur, y);
      assert m.x == Conf(BlkHdr(level, 0), m.x.dec);
      k := ParserGoes(m, cur, y, rest);
      m' := Parsed(m, y);
      GoesOk(State(m, cur + rest), k, State(m', rest));
    } else {
      var p: Part :| PartOk(p) && IsTextOf(cur, p, level) && Complete(Unsorted(p.column, p.h.orig)) && p.h.crc != OfBytes(PartData(p));
      var tb :| BlockText(cur, p.h, tb, p.column);
      k, m' := DamagedBlockGoes(m, p, tb, cur, rest);
    }
  }

  lemma DamagedBlockGoes(m: Machine, p: Part, tb: Tables, cur: Bits, rest: Bits) returns (k: nat, m': Machine)
    requires MachineOk(m) && m.x.ctl == BlkHdr(p.h.level, 0) && BlockText(cur, p.h, tb, p.column)
    requires PartOk(p) && Complete(Unsorted(p.column, p.h.orig)) && p.h.crc != OfBytes(PartData(p))
    ensures MachineOk(m') && Goes(State(m, cur + rest), k, State(m', rest)) && m'.x.ctl == Failed(BadData)
  {
    hide Goes, Leads, BlockText, Unsorted, Complete, UnRle, OfBytes, InBlock;
    var dec := BlockLeads(cur, p.h, tb, p.column, m.x.dec);
    var y := Conf(Output(p.h, p.column), dec);
    assert m.x == Conf(BlkHdr(p.h.level, 0), m.x.dec);
    var k1 := ParserGoes(m, cur, y, rest);
    var n := Parsed(m, y);
    GoesOk(State(m, cur + rest), k1, State(n, rest));
    StartInBlock(n);
    var k2;
    k2, m' := DamagedGoes(n, m.out, [], rest);
    GoesThen(State(m, cur + rest), k1, State(n, rest), k2, State(m', rest));
    k := k1 + k2;
  }

  /** An input is refused exactly for one of the two reasons. */
  lemma RefusedIff(z: seq<Byte>, e: State)
    requires EndsIn(z, e)
    ensures Refused(z) <==> e.m.x.ctl == Failed(BadData)
  {
    hide Goes, BytesToBits, RefusedText, Stuck;
    if Refused(z) {
      var level, ps, ts, cur, rest :| RefusedText(BytesToBits(z), level, ps, ts, cur, rest);
      var k, s := ReasonRefuses(z, level, ps, ts, cur, rest);
      FailedStuck(s);
      var j := BeforeEnd(z, k, s, e);
    }
    if e.m.x.ctl == Failed(BadData) {
      RefusedHasReason(z, e);
    }
  }

  lemma FailedStuck(s: State)
    requires MachineOk(s.m) && s.m.x.ctl.Failed?
    ensures Stuck(s)
  {
  }
}
