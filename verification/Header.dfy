/** What the parser accepts as the beginning of a stream and of a block, on any input. */
module Header {
  import opened AnyInput
  import opened BitIO
  import opened Bits
  import opened BlockParser
  import opened Crc
  import opened Rotations
  import opened StreamMachine

  /** Byte `j` of a stream: 'B', 'Z', 'h', and the block size from '1' to '9'. */
  predicate RightByte(j: nat, x: Byte) {
    if j == 0 then x == 0x42 else if j == 1 then x == 0x5a else if j == 2 then x == 0x68 else 0x31 <= x <= 0x39
  }

  ghost predicate RightSoFar(z: seq<Byte>, k: nat) {
    k <= |z| && forall j :: 0 <= j < k ==> RightByte(j, z[j])
  }

  /** One of the first four bytes is there and wrong. */
  ghost predicate WrongHeader(z: seq<Byte>) {
    exists j :: 0 <= j < 4 && j < |z| && !RightByte(j, z[j])
  }

  /** Where the machine stands tells what it has seen of the header. */
  ghost predicate HeaderSeen(z: seq<Byte>, s: State) {
    match s.m.x.ctl
    case Magic(k) => k < 4 && RightSoFar(z, k) && s.bits == BytesToBits(z[k..])
    case Failed(why) => if why == BadMagic then WrongHeader(z) else RightSoFar(z, 4)
    case _ => RightSoFar(z, 4)
  }

  lemma FirstByte(z: seq<Byte>, k: nat)
    requires k < |z|
    ensures |BytesToBits(z[k..])| >= 8 && BytesToBits(z[k..])[8..] == BytesToBits(z[k + 1..])
    ensures Val(BytesToBits(z[k..])[..8]) == z[k]
  {
    hide ToBits;
    BytesToBitsConcat([z[k]], z[k + 1..]);
    assert z[k..] == [z[k]] + z[k + 1..];
    BytesToBitsPush([], z[k]);
    assert [] + [z[k]] == [z[k]];
    assert |ByteBits(z[k])| == 8 && [] + ByteBits(z[k]) == ByteBits(z[k]);
    assert BytesToBits(z[k..])[..8] == ByteBits(z[k]);
    ByteVal(z[k]);
  }

  lemma ByteVal(x: Byte)
    ensures Val(ByteBits(x)) == x
  {
    Powers();
    ValToBits(8, x);
  }

  lemma TooFewBits(z: seq<Byte>, k: nat)
    requires k <= |z| && |BytesToBits(z[k..])| >= 8
    ensures k < |z|
  {
  }

  lemma LaterNoMagic(x: Conf, bs: Bits)
    requires Ok(x) && !Stopped(x.ctl) && !x.ctl.Magic? && |bs| == Need(x.ctl)
    ensures !Handle(x, bs).ctl.Magic? && Handle(x, bs).ctl != Failed(BadMagic)
  {
    hide LookUp, Stopped;
    if x.ctl.Mapping2? {
      MappingNoMagic(x.ctl.h, x.ctl.used16, x.ctl.used + bs);
    } else if x.ctl.Mapping1? && |x.ctl.used16| == 15 {
      MappingNoMagic(x.ctl.h, x.ctl.used16 + bs, []);
    }
  }

  lemma {:induction false} MappingNoMagic(h: Head, used16: seq<bool>, used: seq<bool>)
    requires |used16| == 16 && |used| <= 256
    ensures !MappingNext(h, used16, used).Magic? && MappingNext(h, used16, used) != Failed(BadMagic)
    decreases 256 - |used|
  {
    if |used| < 256 && |used| % 16 == 0 && !used16[|used| / 16] {
      MappingNoMagic(h, used16, used + Zeros(16));
    }
  }

  lemma MagicStep(z: seq<Byte>, s: State)
    requires MachineOk(s.m) && !Stuck(s) && s.m.x.ctl.Magic? && HeaderSeen(z, s)
    ensures HeaderSeen(z, Step(s))
  {
    hide BytesToBits, Val;
    var k := s.m.x.ctl.k;
    TooFewBits(z, k);
    FirstByte(z, k);
    var v := Val(s.bits[..8]);
    assert Step(s).m.x.ctl == HandleMagic(k, v) && Step(s).bits == s.bits[8..];
    if !RightByte(k, z[k]) {
      assert WrongHeader(z);
    }
  }

  lemma HeaderStep(z: seq<Byte>, s: State)
    requires MachineOk(s.m) && !Stuck(s) && HeaderSeen(z, s)
    ensures HeaderSeen(z, Step(s))
  {
    hide BytesToBits, Handle, CtlOk, RightSoFar, WrongHeader, Update;
    if s.m.x.ctl.Magic? {
      MagicStep(z, s);
    } else if !s.m.x.ctl.Output? {
      LaterNoMagic(s.m.x, s.bits[..Need(s.m.x.ctl)]);
    }
  }

  lemma {:induction false} HeaderAlong(z: seq<Byte>, s: State, k: nat, t: State)
    requires MachineOk(s.m) && HeaderSeen(z, s) && Goes(s, k, t)
    ensures HeaderSeen(z, t)
    decreases k
  {
    hide Step, Stuck, HeaderSeen;
    if k > 0 {
      HeaderStep(z, s);
      HeaderAlong(z, Step(s), k - 1, t);
    }
  }

  /** An input is refused as not being a stream exactly if one of its first four bytes is wrong; it is found too short for a
      header exactly if it has fewer, and those are right. */
  lemma HeaderEnds(z: seq<Byte>, e: State)
    requires EndsIn(z, e)
    ensures e.m.x.ctl == Failed(BadMagic) <==> WrongHeader(z)
    ensures e.m.x.ctl.Magic? <==> |z| < 4 && !WrongHeader(z)
  {
    hide Goes;
    var k: nat :| Reaches(z, k, e);
    var start := State(StartMachine(), BytesToBits(z));
    assert z[0..] == z;
    assert HeaderSeen(z, start);
    HeaderAlong(z, start, k, e);
    if e.m.x.ctl.Magic? {
      StoppedInHeader(z, e, e.m.x.ctl.k);
    }
  }

  lemma StoppedInHeader(z: seq<Byte>, e: State, k: nat)
    requires MachineOk(e.m) && Stuck(e) && HeaderSeen(z, e) && e.m.x.ctl == Magic(k)
    ensures |z| == k
  {
    if k < |z| {
      FirstByte(z, k);
    }
  }

  // ----- Blocks.

  /** The first six bytes of a block, and of the trailer. */
  const BLOCK_MAGIC: seq<Byte> := [0x31, 0x41, 0x59, 0x26, 0x53, 0x59]
  const END_MAGIC: seq<Byte> := [0x17, 0x72, 0x45, 0x38, 0x50, 0x90]

  /** Between blocks six bytes are read: those of a block go on to its checksum, those of the trailer to the combined one, and
      any others are rejected. */
  lemma SixBytes(m: Machine, six: seq<Byte>, rest: Bits) returns (k: nat, t: State)
    requires MachineOk(m) && m.x.ctl.BlkHdr? && m.x.ctl.k == 0 && |six| == 6
    ensures Goes(State(m, BytesToBits(six) + rest), k, t) && MachineOk(t.m)
    ensures six == BLOCK_MAGIC ==> t.m.x.ctl == BCrc(m.x.ctl.level, []) && t.bits == rest
    ensures six == END_MAGIC ==> t.m.x.ctl == CCrc(m.x.ctl.level, []) && t.bits == rest
    ensures six != BLOCK_MAGIC && six != END_MAGIC ==> t.m.x.ctl == Failed(BadData)
  {
    hide Goes, BytesToBits;
    assert six[..0] == [] && six[0..] == six;
    assert State(m, BytesToBits(six[0..]) + rest) == State(m, BytesToBits(six) + rest);
    k, t := SixFrom(m, six, 0, m.x.ctl.level, rest);
  }

  /** After `j` of the six bytes. */
  ghost predicate InSix(c: Ctl, level: nat, six: seq<Byte>, j: nat)
    requires |six| == 6
  {
    && j < 6
    && ((c == BlkHdr(level, j) && six[..j] == BLOCK_MAGIC[..j]) || (c == EndHdr(level, j) && j > 0 && six[..j] == END_MAGIC[..j]))
  }

  function SixNext(c: Ctl, level: nat, j: nat, v: nat): Ctl {
    if c.BlkHdr? then HandleBlkHdr(level, j, v)
    else if v != EndByte(j) then Failed(BadData) else if j == 5 then CCrc(level, []) else EndHdr(level, j + 1)
  }

  lemma SixCtl(c: Ctl, level: nat, six: seq<Byte>, j: nat)
    requires |six| == 6 && InSix(c, level, six, j)
    ensures var c' := SixNext(c, level, j, six[j]);
            || (j < 5 && InSix(c', level, six, j + 1)) || (j == 5 && six == BLOCK_MAGIC && c' == BCrc(level, []))
            || (j == 5 && six == END_MAGIC && c' == CCrc(level, [])) || (six != BLOCK_MAGIC && six != END_MAGIC && c' == Failed(BadData))
  {
    assert six == six[..j] + [six[j]] + six[j + 1..];
    assert six[..j + 1] == six[..j] + [six[j]];
    assert BLOCK_MAGIC[..j + 1] == BLOCK_MAGIC[..j] + [BLOCK_MAGIC[j]] && END_MAGIC[..j + 1] == END_MAGIC[..j] + [END_MAGIC[j]];
    assert BLOCK_MAGIC[j] == BlockByte(j) && END_MAGIC[j] == EndByte(j);
    assert six[..0] == [] && (j > 0 ==> six[..j][0] == six[0]);
    if j == 5 {
      assert six == six[..6] && BLOCK_MAGIC == BLOCK_MAGIC[..6] && END_MAGIC == END_MAGIC[..6];
    }
  }

  lemma {:induction false} SixFrom(m: Machine, six: seq<Byte>, j: nat, level: nat, rest: Bits) returns (k: nat, t: State)
    requires MachineOk(m) && |six| == 6 && InSix(m.x.ctl, level, six, j)
    ensures Goes(State(m, BytesToBits(six[j..]) + rest), k, t) && MachineOk(t.m)
    ensures six == BLOCK_MAGIC ==> t.m.x.ctl == BCrc(level, []) && t.bits == rest
    ensures six == END_MAGIC ==> t.m.x.ctl == CCrc(level, []) && t.bits == rest
    ensures six != BLOCK_MAGIC && six != END_MAGIC ==> t.m.x.ctl == Failed(BadData)
    decreases 6 - j
  {
    hide Goes, BytesToBits, Val, SixNext;
    var s := State(m, BytesToBits(six[j..]) + rest);
    SixStep(m, six, j, level, rest);
    SixCtl(m.x.ctl, level, six, j);
    var n := Step(s);
    if j < 5 && InSix(n.m.x.ctl, level, six, j + 1) {
      k, t := SixFrom(n.m, six, j + 1, level, rest);
    } else {
      k, t := 0, n;
      GoesNowhere(n);
      if j == 5 {
        LastSix(six, rest);
      }
    }
    GoesFirst(s, k, t);
    k := k + 1;
  }

  lemma SixStep(m: Machine, six: seq<Byte>, j: nat, level: nat, rest: Bits)
    requires MachineOk(m) && |six| == 6 && InSix(m.x.ctl, level, six, j)
    ensures var s := State(m, BytesToBits(six[j..]) + rest);
            !Stuck(s) && Step(s).m.x.ctl == SixNext(m.x.ctl, level, j, six[j]) && Step(s).bits == BytesToBits(six[j + 1..]) + rest
  {
    hide BytesToBits, Val;
    FirstByte(six, j);
    var b := BytesToBits(six[j..]);
    assert (b + rest)[..8] == b[..8] && (b + rest)[8..] == b[8..] + rest;
  }

  lemma LastSix(six: seq<Byte>, rest: Bits)
    requires |six| == 6
    ensures BytesToBits(six[6..]) + rest == rest
  {
    assert six[6..] == [];
    assert [] + rest == rest;
  }
}
