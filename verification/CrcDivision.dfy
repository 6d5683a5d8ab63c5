/** The block checksum and the checksum of the stream, in terms of the bits alone.

    The block checksum is the remainder of a polynomial division, done by hand: the message followed by 32 zeros, its
    first 32 bits inverted, is divided by the generator, and the remainder is inverted.
 */
module CrcDivision {
  import opened BitIO
  import opened Bits
  import opened Crc
  import opened Rotations

  /** The exponents of the generator: x^32 + x^26 + x^23 + x^22 + x^16 + x^12 + x^11 + x^10 + x^8 + x^7 + x^5 + x^4 + x^2 + x + 1. */
  predicate InGenerator(e: int) {
    e in {32, 26, 23, 22, 16, 12, 11, 10, 8, 7, 5, 4, 2, 1, 0}
  }

  /** One step of the division: where the dividend has the highest power, the generator is taken away under it. */
  function DivideOnce(d: Bits): (r: Bits)
    requires |d| > 32
    ensures |r| == |d| - 1
  {
    seq(|d| - 1, i requires 0 <= i < |d| - 1 => d[i + 1] != (d[0] && InGenerator(31 - i)))
  }

  /** What is left in the end: 32 bits. */
  function Remainder(d: Bits): (r: Bits)
    requires |d| >= 32
    ensures |r| == 32
    decreases |d|
  {
    if |d| == 32 then d else Remainder(DivideOnce(d))
  }

  /** `d` with the bits of `w` added under its first 32. */
  function AddedTo(w: Word, d: Bits): (r: Bits)
    requires |d| >= 32
    ensures |r| == |d|
  {
    seq(|d|, i requires 0 <= i < |d| => if i < 32 then d[i] != w[i] else d[i])
  }

  lemma PolyHigh()
    ensures ToBits(16, 0x04c1) == [false, false, false, false, false, true, false, false, true, true, false, false, false, false, false, true]
  {
    hide ToBits;
    assert ToBits(0, 0) == [];
    FourBits(0, 0x0);
    FourBits(4, 0x04);
    FourBits(8, 0x04c);
    FourBits(12, 0x04c1);
  }

  lemma PolyBits()
    ensures Poly() == [false, false, false, false, false, true, false, false,
                       true, true, false, false, false, false, false, true,
                       false, false, false, true, true, true, false, true,
                       true, false, true, true, false, true, true, true]
  {
    hide ToBits;
    PolyHigh();
    FourBits(16, 0x0_4c11);
    FourBits(20, 0x04_c11d);
    FourBits(24, 0x04c_11db);
    FourBits(28, 0x04c1_1db7);
  }

  lemma PolyIsGenerator()
    ensures forall i :: 0 <= i < 32 ==> (Poly()[i] <==> InGenerator(31 - i))
  {
    hide Poly;
    PolyBits();
  }

  /** Feeding one bit is one step of the division. */
  lemma StepDivides(w: Word, bs: Bits)
    requires bs != []
    ensures DivideOnce(AddedTo(w, bs + Zeros(32))) == AddedTo(BitStep(w, bs[0]), bs[1..] + Zeros(32))
  {
    PolyIsGenerator();
    hide Poly, InGenerator;
    var d := AddedTo(w, bs + Zeros(32));
    var x, y := DivideOnce(d), AddedTo(BitStep(w, bs[0]), bs[1..] + Zeros(32));
    forall i | 0 <= i < |x|
      ensures x[i] == y[i]
    {
      StepBit(w, bs[0], i);
      assert (bs[1..] + Zeros(32))[i] == (bs + Zeros(32))[i + 1];
      assert d[0] == (w[0] != bs[0]);
      BeyondGenerator(i);
    }
  }

  lemma BeyondGenerator(i: nat)
    ensures i >= 32 ==> !InGenerator(31 - i)
  {
  }

  lemma StepBit(w: Word, b: bool, i: nat)
    ensures i < 32 ==> BitStep(w, b)[i] == ((i < 31 && w[i + 1]) != ((w[0] != b) && Poly()[i]))
  {
    hide Poly;
    var v := w[0 := w[0] != b];
    var s := v[1..] + [false];
    assert i < 31 ==> s[i] == w[i + 1];
    assert v[0] ==> i < 32 ==> Xor(s, Poly())[i] == (s[i] != Poly()[i]);
  }

  lemma {:induction false} StepsDivide(w: Word, bs: Bits)
    ensures BitSteps(w, bs) == Remainder(AddedTo(w, bs + Zeros(32)))
    decreases |bs|
  {
    hide BitStep, DivideOnce, Zeros;
    if bs == [] {
      NothingToAdd(w);
    } else {
      StepDivides(w, bs);
      StepsDivide(BitStep(w, bs[0]), bs[1..]);
    }
  }

  lemma NothingToAdd(w: Word)
    ensures AddedTo(w, [] + Zeros(32)) == w
  {
  }

  lemma {:induction false} BitStepsThen(w: Word, a: Bits, b: Bits)
    ensures BitSteps(w, a + b) == BitSteps(BitSteps(w, a), b)
    decreases |a|
  {
    hide BitStep;
    if a == [] {
      assert a + b == b;
    } else {
      assert (a + b)[0] == a[0] && (a + b)[1..] == a[1..] + b;
      BitStepsThen(BitStep(w, a[0]), a[1..], b);
    }
  }

  lemma {:induction false} RegisterSteps(s: seq<Byte>)
    ensures Register(s) == BitSteps(Initial(), BytesToBits(s))
    decreases |s|
  {
    hide Update, BitStep;
    if s != [] {
      var k := |s| - 1;
      RegisterSteps(s[..k]);
      UpdateIsDivision(Register(s[..k]), s[k]);
      BitStepsThen(Initial(), BytesToBits(s[..k]), ByteBits(s[k]));
    }
  }

  /** A message followed by 32 zeros, the first 32 bits inverted. */
  function Dividend(message: Bits): (d: Bits)
    ensures |d| == |message| + 32
  {
    seq(|message| + 32, i requires 0 <= i < |message| + 32 => (i < |message| && message[i]) != (i < 32))
  }

  /** The checksum of any bytes is the inverted remainder. */
  lemma ChecksumIsRemainder(s: seq<Byte>)
    ensures forall i :: 0 <= i < 32 ==> OfBytes(s)[i] != Remainder(Dividend(BytesToBits(s)))[i]
  {
    hide BytesToBits, Register, BitSteps, Remainder;
    var bs := BytesToBits(s);
    RegisterSteps(s);
    StepsDivide(Initial(), bs);
    assert AddedTo(Initial(), bs + Zeros(32)) == Dividend(bs);
  }

  /** The checksum of the stream is turned by one bit, and the block's is compared with it bit by bit. */
  lemma CombineBits(comb: Word, block: Word)
    ensures forall i :: 0 <= i < 31 ==> Combine(comb, block)[i] == (comb[i + 1] != block[i])
    ensures Combine(comb, block)[31] == (comb[0] != block[31])
  {
    var turned := comb[1..] + [comb[0]];
    forall i | 0 <= i < 32
      ensures Combine(comb, block)[i] == (turned[i] != block[i])
    {
    }
  }
}
