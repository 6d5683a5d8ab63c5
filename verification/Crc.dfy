/** The block checksum: the CRC-32 of IEEE 802.3 section 3.2.9, most significant bit first, on 32-bit words seen as
    their bits.  The byte-at-a-time form that looks up the top byte in a table is shown to be division by the
    polynomial one bit at a time.
 */
module Crc {
  import opened Bits
  import opened Rotations

  /** A 32-bit word, most significant bit first. */
  type Word = w: seq<bool> | |w| == 32 witness seq(32, _ => false)

  function Xor(a: Bits, b: Bits): (r: Bits)
    requires |a| == |b|
    ensures |r| == |a|
  {
    seq(|a|, i requires 0 <= i < |a| => a[i] != b[i])
  }

  function Ones(n: nat): (r: Bits)
    ensures |r| == n
  {
    seq(n, _ => true)
  }

  /** x^26 + x^23 + x^22 + x^16 + x^12 + x^11 + x^10 + x^8 + x^7 + x^5 + x^4 + x^2 + x + 1: the polynomial without x^32. */
  function Poly(): Word {
    ToBits(32, 0x04c1_1db7)
  }

  /** Multiplies by x and reduces. */
  function ShiftStep(w: Word): Word {
    var s := w[1..] + [false];
    if w[0] then Xor(s, Poly()) else s
  }

  function Shifts(w: Word, n: nat): Word
    decreases n
  {
    if n == 0 then w else Shifts(ShiftStep(w), n - 1)
  }

  /** Entry `top` of the lookup table. */
  function Table(top: Bits): Word
    requires |top| == 8
  {
    Shifts(top + Zeros(24), |top|)
  }

  /** BZ_INITIALISE_CRC */
  function Initial(): Word {
    Ones(32)
  }

  /** BZ_UPDATE_CRC */
  function Update(w: Word, c: Byte): Word {
    var t := Table(TopWith(w, c));
    seq(32, i requires 0 <= i < 32 => (i < 24 && w[i + 8]) != t[i])
  }

  /** The index into the table: the top byte of the register with the message byte. */
  function TopWith(w: Word, c: Byte): (r: Bits)
    ensures |r| == 8
  {
    var b := ByteBits(c);
    seq(8, i requires 0 <= i < 8 => w[i] != b[i])
  }

  /** BZ_FINALISE_CRC */
  function Final(w: Word): Word {
    Xor(w, Ones(32))
  }

  /** Takes a block checksum into the checksum of the stream. */
  function Combine(comb: Word, block: Word): Word {
    Xor(comb[1..] + [comb[0]], block)
  }

  /** The running checksum after the bytes `s`. */
  function Register(s: seq<Byte>): Word {
    if s == [] then Initial() else Update(Register(s[..|s| - 1]), s[|s| - 1])
  }

  function OfBytes(s: seq<Byte>): Word {
    Final(Register(s))
  }

  /** `w` is the running checksum after `s`. */
  ghost predicate IsRunning(w: Word, s: seq<Byte>) {
    w == Register(s)
  }

  lemma RunningStart()
    ensures IsRunning(Initial(), [])
  {
  }

  lemma RunningPush(w: Word, s: seq<Byte>, x: Byte)
    requires IsRunning(w, s)
    ensures IsRunning(Update(w, x), s + [x])
  {
    assert (s + [x])[..|s|] == s;
  }

  // ----- Table lookup is polynomial division.

  /** One bit of the message: compared with the top bit of the register, then shifted out. */
  function BitStep(w: Word, b: bool): Word {
    ShiftStep(w[0 := w[0] != b])
  }

  function BitSteps(w: Word, bs: Bits): Word
    decreases |bs|
  {
    if bs == [] then w else BitSteps(BitStep(w, bs[0]), bs[1..])
  }

  lemma ShiftStepXor(a: Word, b: Word)
    ensures ShiftStep(Xor(a, b)) == Xor(ShiftStep(a), ShiftStep(b))
  {
    var x, y, z := ShiftStep(Xor(a, b)), ShiftStep(a), ShiftStep(b);
    forall i | 0 <= i < 32
      ensures x[i] == (y[i] != z[i])
    {
      assert Xor(a, b)[0] == (a[0] != b[0]);
      assert i < 31 ==> Xor(a, b)[i + 1] == (a[i + 1] != b[i + 1]);
    }
  }

  lemma {:induction false} ShiftsXor(a: Word, b: Word, n: nat)
    ensures Shifts(Xor(a, b), n) == Xor(Shifts(a, n), Shifts(b, n))
    decreases n
  {
    hide Xor, ShiftStep;
    if n > 0 {
      ShiftStepXor(a, b);
      ShiftsXor(ShiftStep(a), ShiftStep(b), n - 1);
    }
  }

  lemma ZerosMove(n: nat, w: Bits, m: nat)
    requires n > 0
    ensures !(Zeros(n) + w + Zeros(m))[0]
    ensures (Zeros(n) + w + Zeros(m))[1..] + [false] == Zeros(n - 1) + w + Zeros(m + 1)
  {
    assert Zeros(n)[1..] == Zeros(n - 1) && Zeros(m) + [false] == Zeros(m + 1);
    assert (Zeros(n) + w + Zeros(m))[1..] == Zeros(n)[1..] + w + Zeros(m);
  }

  /** Bits that do not reach the top are only moved. */
  lemma {:induction false} ShiftsPlain(w: Bits, n: nat)
    requires n + |w| <= 32
    ensures Shifts(Zeros(n) + w + Zeros(32 - n - |w|), n) == w + Zeros(32 - |w|)
    decreases n
  {
    hide Xor, Poly;
    var x := Zeros(n) + w + Zeros(32 - n - |w|);
    if n == 0 {
      assert x == w + Zeros(32 - |w|);
    } else {
      ZerosMove(n, w, 32 - n - |w|);
      ShiftsPlain(w, n - 1);
    }
  }

  lemma FirstBitApart(w: Word, bs: Bits)
    requires 0 < |bs| <= 32
    ensures Xor(w, bs + Zeros(32 - |bs|)) == Xor(w[0 := w[0] != bs[0]], [false] + bs[1..] + Zeros(32 - |bs|))
  {
    var x, y := Xor(w, bs + Zeros(32 - |bs|)), Xor(w[0 := w[0] != bs[0]], [false] + bs[1..] + Zeros(32 - |bs|));
    forall i | 0 <= i < 32
      ensures x[i] == y[i]
    {
      assert 0 < i < |bs| ==> bs[1..][i - 1] == bs[i];
    }
  }

  lemma ShiftRest(bs: Bits)
    requires 0 < |bs| <= 32
    ensures ShiftStep([false] + bs[1..] + Zeros(32 - |bs|)) == bs[1..] + Zeros(32 - |bs[1..]|)
  {
    assert ([false] + bs[1..] + Zeros(32 - |bs|))[1..] + [false] == bs[1..] + Zeros(32 - |bs[1..]|);
  }

  lemma XorZeros(w: Word)
    ensures Xor(w, [] + Zeros(32)) == w
  {
    forall i | 0 <= i < 32
      ensures Xor(w, [] + Zeros(32))[i] == w[i]
    {
    }
  }

  /** Message bits may be put in all at once before shifting. */
  lemma {:induction false} BitStepsShifts(w: Word, bs: Bits)
    requires |bs| <= 32
    ensures BitSteps(w, bs) == Shifts(Xor(w, bs + Zeros(32 - |bs|)), |bs|)
    decreases |bs|
  {
    hide Xor, ShiftStep, Zeros;
    if bs == [] {
      XorZeros(w);
    } else {
      FirstBitApart(w, bs);
      ShiftRest(bs);
      ShiftStepXor(w[0 := w[0] != bs[0]], [false] + bs[1..] + Zeros(32 - |bs|));
      BitStepsShifts(BitStep(w, bs[0]), bs[1..]);
    }
  }

  /** The table-driven update does the same as feeding the byte's eight bits one at a time. */
  lemma UpdateIsDivision(w: Word, c: Byte)
    ensures Update(w, c) == BitSteps(w, ByteBits(c))
  {
    var bs := ByteBits(c);
    BitStepsShifts(w, bs);
    var x := Xor(w, bs + Zeros(24));
    var top, low := Xor(w[..8], bs) + Zeros(24), Zeros(8) + w[8..] + Zeros(0);
    assert x == Xor(top, low);
    ShiftsXor(top, low, 8);
    ShiftsPlain(w[8..], 8);
    assert TopWith(w, c) == Xor(w[..8], bs);
    var t, s := Shifts(top, 8), w[8..] + Zeros(8);
    assert Xor(t, s) == Update(w, c);
  }
}
