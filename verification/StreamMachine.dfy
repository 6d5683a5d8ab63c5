/** The whole decompressor as a deterministic machine: the parser, the output stage and the checksums.

    A step either handles the bits the parser asks for or does one thing in the output stage.  A machine that lacks
    bits waits; what it does later does not depend on when the bits come or when its output is taken.
 */
module StreamMachine {
  import opened Bits
  import opened BlockParser
  import opened Crc
  import opened MoveToFront
  import opened OutputStage
  import opened InverseBwt
  import opened Rotations
  import opened RunLength

  /** The parser, the output stage, the running and the combined checksum, and all output so far. */
  datatype Machine = Machine(x: Conf, o: OutState, crc: Word, comb: Word, out: seq<Byte>)

  /** The machine and the bits it has not handled. */
  datatype State = State(m: Machine, bits: Bits)

  ghost predicate ColumnOk(c: Ctl, o: OutState) {
    c.Output? ==> c.h.orig < |c.column| && 1 <= o.used && HeadOk(c.h)
  }

  ghost predicate MachineOk(m: Machine) {
    Ok(m.x) == true && ColumnOk(m.x.ctl, m.o) == true
  }

  function StartMachine(): Machine {
    Machine(Conf(Magic(0), StartDecoder()), StartOutput(), Initial(), Zeros(32), [])
  }

  /** The last run has been written and bytes have been read past the end of the block. */
  ghost predicate Overrun(m: Machine) {
    m.x.ctl.Output? && m.o.len == 0 && m.o.used > |m.x.ctl.column| + 1
  }

  /** Nothing more happens without more bits, or at all. */
  ghost predicate Stuck(s: State)
    requires MachineOk(s.m)
  {
    if s.m.x.ctl.Output? then Overrun(s.m) else Stopped(s.m.x.ctl) || |s.bits| < Need(s.m.x.ctl)
  }

  /** The parser has come to the end of a block or elsewhere: a block starts the output stage. */
  ghost function Parsed(m: Machine, y: Conf): Machine {
    if y.ctl.Output? then Machine(y, StartOutput(), Initial(), m.comb, m.out) else m.(x := y)
  }

  /** All of a block has been written out. */
  ghost function BlockDone(m: Machine): Machine
    requires m.x.ctl.Output?
  {
    var crc := Final(m.crc);
    if crc != m.x.ctl.h.crc then m.(x := m.x.(ctl := Failed(BadData)))
    else m.(x := m.x.(ctl := BlkHdr(m.x.ctl.h.level, 0)), comb := Combine(m.comb, crc))
  }

  /** One thing in the output stage. */
  ghost function OutStep(m: Machine): Machine
    requires MachineOk(m) && m.x.ctl.Output? && !Overrun(m)
  {
    var n := |m.x.ctl.column|;
    if m.o.len > 0 then m.(o := m.o.(len := m.o.len - 1), crc := Update(m.crc, m.o.ch), out := m.out + [m.o.ch])
    else if m.o.used == n + 1 then BlockDone(m)
    else m.(o := NextRun(m.x.ctl.column, m.x.ctl.h.orig, m.o))
  }

  lemma MtfColumnOk(x: Conf, bs: Bits)
    requires Ok(x) && (x.ctl.Mtf1? || x.ctl.Mtf2?) && |bs| == Need(x.ctl)
    ensures ColumnOk(Handle(x, bs).ctl, StartOutput())
  {
    hide HandleCtl, LookUp, SeqToUnseq, DecoderStep, StepOk, MinLen, MaxLen;
  }

  lemma OthersNoOutput(x: Conf, bs: Bits)
    requires Ok(x) && !Stopped(x.ctl) && |bs| == Need(x.ctl)
    requires !x.ctl.Mtf1? && !x.ctl.Mtf2? && !x.ctl.Mapping1? && !x.ctl.Mapping2?
    ensures !Handle(x, bs).ctl.Output?
  {
  }

  lemma MappingNoColumn(x: Conf, bs: Bits)
    requires Ok(x) && (x.ctl.Mapping1? || x.ctl.Mapping2?) && |bs| == 1
    ensures !Handle(x, bs).ctl.Output?
  {
    if x.ctl.Mapping2? {
      MappingNoOutput(x.ctl.h, x.ctl.used16, x.ctl.used + bs);
    } else if |x.ctl.used16| == 15 {
      MappingNoOutput(x.ctl.h, x.ctl.used16 + bs, []);
    }
  }

  lemma HandleColumnOk(x: Conf, bs: Bits)
    requires Ok(x) && !Stopped(x.ctl) && |bs| == Need(x.ctl)
    ensures Ok(Handle(x, bs)) && ColumnOk(Handle(x, bs).ctl, StartOutput())
  {
    HandleOk(x, bs);
    if x.ctl.Mtf1? || x.ctl.Mtf2? {
      MtfColumnOk(x, bs);
    } else if x.ctl.Mapping1? || x.ctl.Mapping2? {
      MappingNoColumn(x, bs);
    } else {
      OthersNoOutput(x, bs);
    }
  }

  lemma {:induction false} MappingNoOutput(h: Head, used16: seq<bool>, used: seq<bool>)
    requires |used16| == 16 && |used| <= 256
    ensures !MappingNext(h, used16, used).Output?
    decreases 256 - |used|
  {
    if |used| < 256 && |used| % 16 == 0 && !used16[|used| / 16] {
      MappingNoOutput(h, used16, used + Zeros(16));
    }
  }

  ghost function Step(s: State): (t: State)
    requires MachineOk(s.m) && !Stuck(s)
    ensures MachineOk(t.m)
  {
    if s.m.x.ctl.Output? then
      State(OutStep(s.m), s.bits)
    else
      var n := Need(s.m.x.ctl);
      HandleColumnOk(s.m.x, s.bits[..n]);
      State(Parsed(s.m, Handle(s.m.x, s.bits[..n])), s.bits[n..])
  }

  // ----- Runs.

  /** `k` steps take `s` to `t`. */
  ghost predicate Goes(s: State, k: nat, t: State)
    requires MachineOk(s.m)
    decreases k
  {
    if k == 0 then s == t else !Stuck(s) && Goes(Step(s), k - 1, t)
  }

  lemma {:induction false} GoesOk(s: State, k: nat, t: State)
    requires MachineOk(s.m) && Goes(s, k, t)
    ensures MachineOk(t.m)
    decreases k
  {
    hide Step, Stuck;
    if k > 0 {
      GoesOk(Step(s), k - 1, t);
    }
  }

  lemma {:induction false} GoesThen(s: State, j: nat, t: State, k: nat, u: State)
    requires MachineOk(s.m) && Goes(s, j, t) && MachineOk(t.m) && Goes(t, k, u)
    ensures Goes(s, j + k, u)
    decreases j
  {
    hide Step, Stuck;
    if j > 0 {
      GoesThen(Step(s), j - 1, t, k, u);
    }
  }

  /** Bits that come later change nothing about the steps taken so far. */
  lemma {:induction false} GoesMore(s: State, k: nat, t: State, more: Bits)
    requires MachineOk(s.m) && Goes(s, k, t)
    ensures Goes(State(s.m, s.bits + more), k, State(t.m, t.bits + more))
    decreases k
  {
    hide Step, Stuck;
    if k > 0 {
      StepMore(s, more);
      GoesMore(Step(s), k - 1, t, more);
    }
  }

  lemma StepMore(s: State, more: Bits)
    requires MachineOk(s.m) && !Stuck(s)
    ensures !Stuck(State(s.m, s.bits + more))
    ensures Step(State(s.m, s.bits + more)) == State(Step(s).m, Step(s).bits + more)
  {
    if !s.m.x.ctl.Output? {
      var n := Need(s.m.x.ctl);
      assert (s.bits + more)[..n] == s.bits[..n] && (s.bits + more)[n..] == s.bits[n..] + more;
    }
  }

  /** There is one run only: of two states that are reached, one leads to the other. */
  lemma {:induction false} GoesUnique(s: State, j: nat, t: State, k: nat, u: State)
    requires MachineOk(s.m) && Goes(s, j, t) && Goes(s, k, u) && j <= k
    ensures MachineOk(t.m) && Goes(t, k - j, u)
    decreases j
  {
    hide Step, Stuck;
    if j > 0 {
      GoesUnique(Step(s), j - 1, t, k - 1, u);
    }
  }

  /** Output is never taken back. */
  lemma {:induction false} OutputGrows(s: State, k: nat, t: State)
    requires MachineOk(s.m) && Goes(s, k, t)
    ensures s.m.out <= t.m.out
    decreases k
  {
    hide Step, Stuck;
    if k > 0 {
      OutputGrows(Step(s), k - 1, t);
      StepOutput(s);
    }
  }

  lemma StepOutput(s: State)
    requires MachineOk(s.m) && !Stuck(s)
    ensures s.m.out <= Step(s).m.out
  {
  }

  // ----- Parsing.

  /** What leads the parser somewhere leads the machine there. */
  lemma {:induction false} ParserGoes(m: Machine, bs: Bits, y: Conf, rest: Bits) returns (k: nat)
    requires MachineOk(m) && !m.x.ctl.Output? && Leads(m.x, bs, y)
    ensures Goes(State(m, bs + rest), k, State(Parsed(m, y), rest))
    decreases |bs|, 0
  {
    hide Handle, CtlOk, ColumnOk;
    var s := State(m, bs + rest);
    if Stopped(m.x.ctl) || |bs| < Need(m.x.ctl) {
      k := 0;
      assert bs + rest == rest;
    } else {
      var n := Need(m.x.ctl);
      assert (bs + rest)[..n] == bs[..n] && (bs + rest)[n..] == bs[n..] + rest;
      HandleColumnOk(m.x, bs[..n]);
      k := ParsedGoes(m, Handle(m.x, bs[..n]), bs[n..], y, rest);
      k := k + 1;
    }
  }

  lemma {:induction false} ParsedGoes(m: Machine, z: Conf, bs: Bits, y: Conf, rest: Bits) returns (k: nat)
    requires MachineOk(m) && Ok(z) && ColumnOk(z.ctl, StartOutput()) && Leads(z, bs, y)
    ensures MachineOk(Parsed(m, z)) && Goes(State(Parsed(m, z), bs + rest), k, State(Parsed(m, y), rest))
    decreases |bs|, 1
  {
    if z.ctl.Output? {
      k := 0;
      assert bs + rest == rest;
    } else {
      k := ParserGoes(Parsed(m, z), bs, y, rest);
    }
  }

  // ----- Writing a block out.

  /** The block that is being written out. */
  ghost function BlockOf(m: Machine): seq<Byte>
    requires m.x.ctl.Output? && m.x.ctl.h.orig < |m.x.ctl.column|
  {
    Unsorted(m.x.ctl.column, m.x.ctl.h.orig)
  }

  /** In the middle of a block whose output began after `out0`: `done` has been written of what its runs so far stand for. */
  ghost predicate InBlock(m: Machine, out0: seq<Byte>, done: seq<Byte>)
    requires MachineOk(m)
  {
    && m.x.ctl.Output? && m.out == out0 + done && IsRunning(m.crc, done) && BetweenRuns(BlockOf(m), m.o.used)
    && done + Repeat(m.o.ch, m.o.len) == RunsOut(m.x.ctl.column, m.x.ctl.h.orig, m.o.used)
  }

  /** Nothing of a block has been written. */
  ghost predicate AtBlockStart(m: Machine) {
    m.x.ctl.Output? && m.o == StartOutput() && m.crc == Initial()
  }

  lemma StartInBlock(m: Machine)
    requires MachineOk(m) && AtBlockStart(m)
    ensures InBlock(m, m.out, [])
  {
    hide Unsorted;
    RunningStart();
    assert BlockOf(m)[..0] == [] && m.out + [] == m.out;
  }

  lemma OutGoes(m: Machine, bits: Bits)
    requires MachineOk(m) && m.x.ctl.Output? && !Overrun(m)
    ensures MachineOk(OutStep(m)) && Goes(State(m, bits), 1, State(OutStep(m), bits))
  {
    assert Step(State(m, bits)) == State(OutStep(m), bits);
  }

  lemma GoesNowhere(s: State)
    requires MachineOk(s.m)
    ensures Goes(s, 0, s)
  {
  }

  /** One byte of the current run. */
  lemma OneByteWritten(m: Machine, out0: seq<Byte>, done: seq<Byte>)
    requires MachineOk(m) && InBlock(m, out0, done) && m.o.len > 0
    ensures MachineOk(OutStep(m)) && InBlock(OutStep(m), out0, done + [m.o.ch])
    ensures OutStep(m).o == m.o.(len := m.o.len - 1) && |OutStep(m).out| == |m.out| + 1
    ensures OutStep(m).x == m.x && OutStep(m).comb == m.comb
  {
    hide Update, Unsorted, BetweenRuns, UnRle;
    RunningPush(m.crc, done, m.o.ch);
    assert out0 + done + [m.o.ch] == out0 + (done + [m.o.ch]);
    assert done + [m.o.ch] + Repeat(m.o.ch, m.o.len - 1) == done + Repeat(m.o.ch, m.o.len);
  }

  /** The next run. */
  lemma RunTaken(m: Machine, out0: seq<Byte>, done: seq<Byte>)
    requires MachineOk(m) && InBlock(m, out0, done) && m.o.len == 0 && m.o.used <= |m.x.ctl.column|
    ensures MachineOk(OutStep(m)) && InBlock(OutStep(m), out0, done)
    ensures OutStep(m).o.used > m.o.used && OutStep(m).o.len > 0
    ensures OutStep(m).x == m.x && OutStep(m).comb == m.comb && OutStep(m).out == m.out
  {
    hide IsRunning, Unsorted, AtRunStart, RunsOut;
    NextRunRight(m.x.ctl.column, m.x.ctl.h.orig, BlockOf(m), m.o);
    assert done + Repeat(m.o.ch, 0) == done;
  }

  /** The last run has been written: of a complete block that is all of it, and of another one, the four bytes without
      a count are followed by as many copies as the byte read past the end says. */
  lemma AllWritten(m: Machine, out0: seq<Byte>, done: seq<Byte>)
    requires MachineOk(m) && InBlock(m, out0, done) && m.o.len == 0 && m.o.used > |m.x.ctl.column|
    ensures Complete(BlockOf(m)) <==> m.o.used == |m.x.ctl.column| + 1
    ensures Complete(BlockOf(m)) <==> !Overrun(m)
    ensures done == if Complete(BlockOf(m)) then UnRle(BlockOf(m)).out else OverrunOutput(m.x.ctl.column, m.x.ctl.h.orig)
  {
    hide Unsorted, OverrunOutput;
    var b := BlockOf(m);
    EndComplete(b);
    assert b[..|b|] == b;
    assert done + Repeat(m.o.ch, 0) == done;
  }

  /** From anywhere in a block to its last byte. */
  lemma {:induction false} BlockGoes(m: Machine, out0: seq<Byte>, done: seq<Byte>, bits: Bits)
    returns (k: nat, m': Machine, done': seq<Byte>)
    requires MachineOk(m) && InBlock(m, out0, done)
    ensures Goes(State(m, bits), k, State(m', bits)) && MachineOk(m') && m'.x == m.x && m'.comb == m.comb
    ensures InBlock(m', out0, done') && m'.o.len == 0 && m'.o.used > |m.x.ctl.column|
    ensures if m.o.len == 0 && m.o.used > |m.x.ctl.column| then m' == m else |m.out| < |m'.out|
    decreases if m.o.used <= |m.x.ctl.column| + 2 then |m.x.ctl.column| + 2 - m.o.used else 0, m.o.len
  {
    hide Step, Stuck, Goes, OutStep, IsRunning, BetweenRuns, RunsOut, Unsorted, CtlOk;
    if m.o.len == 0 && m.o.used > |m.x.ctl.column| {
      k, m', done' := 0, m, done;
      GoesNowhere(State(m, bits));
    } else {
      var n, done1 := OutStep(m), done;
      OutGoes(m, bits);
      if m.o.len > 0 {
        done1 := done + [m.o.ch];
        OneByteWritten(m, out0, done);
      } else {
        RunTaken(m, out0, done);
      }
      k, m', done' := BlockGoes(n, out0, done1, bits);
      GoesThen(State(m, bits), 1, State(n, bits), k, State(m', bits));
      k := 1 + k;
    }
  }

  /** The output stage writes what a complete block stands for, and its checksum is accepted. */
  lemma OutputGoes(m: Machine, h: Head, column: seq<Byte>, bits: Bits) returns (k: nat, m': Machine)
    requires MachineOk(m) && HeadOk(h) && h.orig < |column| && m.x.ctl == Output(h, column) && AtBlockStart(m)
    requires var b := Unsorted(column, h.orig); Complete(b) && h.crc == OfBytes(UnRle(b).out)
    ensures Goes(State(m, bits), k, State(m', bits)) && MachineOk(m')
    ensures m'.x.ctl == BlkHdr(h.level, 0) && m'.comb == Combine(m.comb, h.crc)
    ensures m'.out == m.out + UnRle(Unsorted(column, h.orig)).out
  {
    hide Step, Stuck, Goes, Unsorted, NextRun, BetweenRuns, RunsOut, Complete, UnRle;
    StartInBlock(m);
    var k1, n, done := BlockGoes(m, m.out, [], bits);
    AllWritten(n, m.out, done);
    assert done == UnRle(BlockOf(m)).out;
    m' := BlockDone(n);
    assert !Overrun(n) && OutStep(n) == m';
    OutGoes(n, bits);
    GoesThen(State(m, bits), k1, State(n, bits), 1, State(m', bits));
    k := k1 + 1;
  }

  // ----- Blocks that end between the four bytes of a run and its count.

  /** The machine is writing out a block that is not complete. */
  ghost predicate AtIncomplete(m: Machine)
    requires MachineOk(m)
  {
    m.x.ctl.Output? && !Complete(BlockOf(m))
  }

  /** In the output stage the machine is in the middle of a block. */
  ghost predicate WellPlaced(m: Machine)
    requires MachineOk(m)
  {
    m.x.ctl.Output? ==> exists out0, done :: InBlock(m, out0, done)
  }

  lemma StepPlaced(s: State)
    requires MachineOk(s.m) && WellPlaced(s.m) && !Stuck(s)
    ensures WellPlaced(Step(s).m)
  {
    hide IsRunning, BetweenRuns, RunsOut, Unsorted, Handle, CtlOk, Need, NextRun, Update;
    if s.m.x.ctl.Output? {
      var out0, done :| InBlock(s.m, out0, done);
      if s.m.o.len > 0 {
        OneByteWritten(s.m, out0, done);
      } else if s.m.o.used <= |s.m.x.ctl.column| {
        RunTaken(s.m, out0, done);
      }
    } else if Step(s).m.x.ctl.Output? {
      StartInBlock(Step(s).m);
    }
  }

  lemma {:induction false} GoesPlaced(s: State, k: nat, t: State)
    requires MachineOk(s.m) && WellPlaced(s.m) && Goes(s, k, t)
    ensures MachineOk(t.m) && WellPlaced(t.m)
    decreases k
  {
    hide Step, Stuck, WellPlaced;
    if k > 0 {
      StepPlaced(s);
      GoesPlaced(Step(s), k - 1, t);
    }
  }

  /** From anywhere in an incomplete block, whose output began after `out0`, the machine runs past its end, and there it
      stays. */
  lemma IncompleteGoes(m: Machine, out0: seq<Byte>, done: seq<Byte>, bits: Bits) returns (k: nat, m': Machine)
    requires MachineOk(m) && InBlock(m, out0, done) && AtIncomplete(m)
    ensures Goes(State(m, bits), k, State(m', bits)) && MachineOk(m') && Overrun(m') && Stuck(State(m', bits))
    ensures m'.x == m.x && m'.comb == m.comb && (if Overrun(m) then m' == m else |m.out| < |m'.out|)
    ensures m'.out == out0 + OverrunOutput(m.x.ctl.column, m.x.ctl.h.orig)
  {
    hide Goes, InBlock, Unsorted, Complete, OverrunOutput, UnRle;
    var done';
    k, m', done' := BlockGoes(m, out0, done, bits);
    AllWritten(m', out0, done');
    WrittenOut(m', out0, done');
    if m.o.len == 0 && m.o.used > |m.x.ctl.column| {
      AllWritten(m, out0, done);
    }
  }

  lemma WrittenOut(m: Machine, out0: seq<Byte>, done: seq<Byte>)
    requires MachineOk(m) && InBlock(m, out0, done)
    ensures m.out == out0 + done
    ensures AtBlockStart(m) ==> done == []
  {
    hide IsRunning, Unsorted;
    assert m.x.ctl.Output?;
    if AtBlockStart(m) {
      assert BlockOf(m)[..0] == [];
      assert done == done + Repeat(m.o.ch, 0);
    }
  }

  /** There is only one place where a run can end. */
  lemma StuckLast(s: State, j: nat, t: State, k: nat, u: State)
    requires MachineOk(s.m) && Goes(s, j, t) && Goes(s, k, u) && MachineOk(u.m) && Stuck(u)
    ensures MachineOk(t.m) && j <= k && Goes(t, k - j, u) && (Stuck(t) ==> t == u)
  {
    hide Step, Stuck;
    if j <= k {
      GoesUnique(s, j, t, k, u);
    } else {
      GoesUnique(s, k, u, j, t);
    }
  }

  lemma OverrunPlaced(m: Machine)
    requires MachineOk(m) && WellPlaced(m) && Overrun(m)
    ensures AtIncomplete(m)
  {
    hide InBlock, Unsorted, Complete;
    var out0, done :| InBlock(m, out0, done);
    assert m.x.ctl.Output? by {
    }
    AllWritten(m, out0, done);
  }

  /** The output stage gets from `m` to `n` without new bits. */
  ghost predicate Onward(m: Machine, n: Machine) {
    MachineOk(m) && MachineOk(n) && exists k :: Goes(State(m, []), k, State(n, []))
  }

  lemma NotYetOnward(m: Machine)
    requires MachineOk(m)
    ensures Onward(m, m)
  {
    GoesNowhere(State(m, []));
  }

  lemma OnwardOne(m: Machine, n: Machine)
    requires Onward(m, n) && n.x.ctl.Output? && !Overrun(n)
    ensures MachineOk(OutStep(n)) && Onward(m, OutStep(n))
  {
    hide Goes, OutStep, CtlOk;
    var k :| Goes(State(m, []), k, State(n, []));
    OutGoes(n, []);
    GoesThen(State(m, []), k, State(n, []), 1, State(OutStep(n), []));
  }

  /** The machine will run past the end of its block when it has written at most `room` more bytes. */
  ghost predicate OverrunsWithin(m: Machine, room: nat) {
    exists n :: Onward(m, n) && Overrun(n) && |n.out| <= |m.out| + room
  }

  // ----- Every run ends.

  /** Whatever the bits, the machine stops. */
  lemma {:induction false} EveryRunEnds(s: State) returns (k: nat, t: State)
    requires MachineOk(s.m)
    ensures Goes(s, k, t) && MachineOk(t.m) && Stuck(t)
    decreases |s.bits|, if s.m.x.ctl.Output? then 1 else 0,
              if s.m.x.ctl.Output? && s.m.o.used <= |s.m.x.ctl.column| + 1 then |s.m.x.ctl.column| + 2 - s.m.o.used else 0, s.m.o.len
  {
    hide Goes, Handle, CtlOk, Update, Unsorted, ReadAt;
    if Stuck(s) {
      k, t := 0, s;
      GoesNowhere(s);
    } else {
      k, t := EveryRunEnds(Step(s));
      GoesFirst(s, k, t);
      k := k + 1;
    }
  }

  lemma GoesFirst(s: State, k: nat, t: State)
    requires MachineOk(s.m) && !Stuck(s) && Goes(Step(s), k, t)
    ensures Goes(s, k + 1, t)
  {
    hide Step, Stuck;
  }
}
