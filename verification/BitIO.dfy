/** The bit buffers of both sides refine a plain sequence of bits: writing n bits appends them, reading n bits takes
    them off the front, whatever the byte boundaries.
 */
module BitIO {
  import opened Arrays
  import opened Bits
  import opened Rotations

  /** The bits of whole bytes. */
  function BytesToBits(s: seq<Byte>): (r: Bits)
    ensures |r| == 8 * |s|
  {
    if s == [] then [] else BytesToBits(s[..|s| - 1]) + ByteBits(s[|s| - 1])
  }

  lemma BytesToBitsPush(s: seq<Byte>, x: Byte)
    ensures BytesToBits(s + [x]) == BytesToBits(s) + ByteBits(x)
  {
    assert (s + [x])[..|s|] == s;
  }

  lemma {:induction false} BytesToBitsConcat(s: seq<Byte>, t: seq<Byte>)
    ensures BytesToBits(s + t) == BytesToBits(s) + BytesToBits(t)
    decreases |t|
  {
    if t == [] {
      assert s + t == s;
    } else {
      var k := |t| - 1;
      assert s + t == (s + t[..k]) + [t[k]];
      BytesToBitsPush(s + t[..k], t[k]);
      BytesToBitsConcat(s, t[..k]);
    }
  }

  lemma {:induction false} ScaleTimes(a: nat, k: nat)
    requires k <= 24
    ensures Scale(a, k) == a * Scale(1, k)
  {
    if k > 0 {
      ScaleTimes(a, k - 1);
    }
  }

  // ----- Writing.

  /** The low bits of the buffer, below its top byte. */
  lemma LowPart(r: Bits)
    requires |r| <= 24
    ensures Scale(Val(r), 24 - |r|) < 0x100_0000
  {
    ValBound(r);
    ScaleMono(Val(r), Pow2(|r|), 24 - |r|);
    ScaleScale(1, |r|, 24 - |r|);
    Pow2Mono(0, 24 - |r|);
    Powers();
  }

  lemma SplitNumber(f: nat, r: nat, m: nat, k: nat, v: nat)
    requires v == Scale(f, m) + r && m + k == 24
    ensures Scale(v, k) == f * 0x100_0000 + Scale(r, k) && Scale(r, k + 8) == 256 * Scale(r, k)
  {
    ScaleAdd(Scale(f, m), r, k);
    ScaleScale(f, m, k);
    ScaleTimes(f, m + k);
    ScaleScale(r, k, 8);
    ScaleTimes(Scale(r, k), 8);
    Powers();
  }

  /** The top byte of the buffer, and the buffer without it. */
  lemma TopByte(live: Bits, buff: nat)
    requires 8 <= |live| <= 32 && buff == Scale(Val(live), 32 - |live|)
    ensures buff / 0x100_0000 == Val(live[..8]) < 256
    ensures buff * 256 % 0x1_0000_0000 == Scale(Val(live[8..]), 32 - |live[8..]|)
  {
    var f, r := live[..8], live[8..];
    assert live == f + r;
    ValConcat(f, r);
    var v := Val(live);
    SplitNumber(Val(f), Val(r), |r|, 24 - |r|, v);
    assert Val(f) < 256 by {
      ValBound(f);
      Powers();
    }
    LowPart(r);
    ShiftOut(Val(f), Scale(Val(r), 24 - |r|));
  }

  lemma ShiftOut(f: nat, low: nat)
    requires f < 256 && low < 0x100_0000
    ensures (f * 0x100_0000 + low) / 0x100_0000 == f && (f * 0x100_0000 + low) * 256 % 0x1_0000_0000 == 256 * low
  {
    assert (f * 0x100_0000 + low) * 256 == f * 0x1_0000_0000 + 256 * low;
  }

  lemma JoinVal(live: Bits, n: nat, v: nat)
    requires v < Pow2(n)
    ensures Val(live + ToBits(n, v)) == Scale(Val(live), n) + v
  {
    ValConcat(live, ToBits(n, v));
    ValToBits(n, v);
  }

  lemma ScaledSum(a: nat, n: nat, v: nat, k: nat)
    ensures Scale(a, n + k) + Scale(v, k) == Scale(Scale(a, n) + v, k)
  {
    ScaleAdd(Scale(a, n), v, k);
    ScaleScale(a, n, k);
  }

  lemma ScaledVal(a: nat, b: nat, n: nat, v: nat, top: nat, k: nat)
    requires b == Scale(a, n) + v && top == n + k
    ensures Scale(a, top) + Scale(v, k) == Scale(b, k)
  {
    ScaledSum(a, n, v, k);
  }

  /** `v` put below the live bits. */
  lemma PutBelow(live: Bits, buff: nat, n: nat, v: nat)
    requires |live| + n <= 32 && buff == Scale(Val(live), 32 - |live|) && v < Pow2(n)
    ensures buff + Scale(v, 32 - |live| - n) == Scale(Val(live + ToBits(n, v)), 32 - |live| - n)
  {
    var b := Val(live + ToBits(n, v));
    assert b == Scale(Val(live), n) + v by {
      JoinVal(live, n, v);
    }
    ScaledVal(Val(live), b, n, v, 32 - |live|, 32 - |live| - n);
  }

  lemma PadBelow(live: Bits, buff: nat, pad: nat)
    requires |live| + pad <= 32 && buff == Scale(Val(live), 32 - |live|)
    ensures buff == Scale(Val(live + Zeros(pad)), 32 - |live + Zeros(pad)|)
  {
    ValZeros(live, pad);
    ScaleScale(Val(live), pad, 32 - |live| - pad);
  }

  /** Moving the first eight live bits out as a byte. */
  lemma OneByteOut(z: seq<Byte>, live: Bits, x: Byte)
    requires 8 <= |live| && x == Val(live[..8])
    ensures BytesToBits(z + [x]) + live[8..] == BytesToBits(z) + live
  {
    ToBitsVal(live[..8]);
    BytesToBitsPush(z, x);
    assert live == live[..8] + live[8..];
  }

  /** The encoder's bit buffer and the bytes it has produced. */
  class BitWriter {
    /** A 32-bit word; the live bits are its top ones, the others are clear. */
    var bsBuff: nat
    var bsLive: int
    var numZ: nat
    const zbits: array<Byte>
    ghost var live: Bits
    /** How many bytes of `zbits` may be used. */
    ghost var room: nat

    ghost predicate Sound()
      reads this, zbits
    {
      numZ <= room <= zbits.Length && |live| <= 32 && bsBuff == Scale(Val(live), 32 - |live|)
    }

    ghost predicate Valid()
      reads this, zbits
    {
      Sound() && bsLive == |live|
    }

    /** Everything written since `numZ` was reset. */
    ghost function Emitted(): Bits
      requires Sound()
      reads this, zbits
    {
      BytesToBits(zbits[..numZ]) + live
    }

    constructor (size: nat)
      ensures Valid() && fresh(this) && fresh(zbits) && zbits.Length == size && numZ == 0 && live == [] && room == size
    {
      bsBuff, bsLive, numZ, live, room := 0, 0, 0, [], size;
      zbits := new Byte[size];
      new;
      assert Val([]) == 0;
      ScaleZero(32);
    }

    /** BZ2_bsInitWrite, on a buffer that is empty anyway. */
    method InitWrite()
      requires Valid() && live == []
      modifies this`bsBuff, this`bsLive
      ensures Valid() && Emitted() == old(Emitted())
    {
      bsLive := 0;
      bsBuff := 0;
      ScaleZero(32 - |live|);
    }

    /** One byte out of the top of the buffer. */
    method ByteOut()
      requires Sound() && 8 <= |live| && numZ < room
      modifies this`bsBuff, this`bsLive, this`numZ, this`live, zbits
      ensures Sound() && Emitted() == old(Emitted()) && bsLive == old(bsLive) - 8 && |live| == |old(live)| - 8
    {
      TopByte(live, bsBuff);
      OneByteOut(zbits[..numZ], live, bsBuff / 0x100_0000);
      Store(zbits, numZ, bsBuff / 0x100_0000);
      assert zbits[..numZ + 1] == old(zbits[..numZ]) + [old(bsBuff) / 0x100_0000];
      numZ := numZ + 1;
      bsBuff := bsBuff * 256 % 0x1_0000_0000;
      bsLive := bsLive - 8;
      live := live[8..];
    }

    /** bsNEEDW */
    method Need()
      requires Valid() && |Emitted()| <= 8 * room
      modifies this`bsBuff, this`bsLive, this`numZ, this`live, zbits
      ensures Valid() && Emitted() == old(Emitted()) && bsLive < 8
    {
      while bsLive >= 8
        invariant Valid() && Emitted() == old(Emitted())
        decreases bsLive
      {
        ByteOut();
      }
    }

    /** bsW: appends the low `n` bits of `v`. */
    method BsW(n: nat, v: nat)
      requires Valid() && |Emitted()| <= 8 * room && n <= 24 && v < Pow2(n)
      modifies this`bsBuff, this`bsLive, this`numZ, this`live, zbits
      ensures Valid() && Emitted() == old(Emitted()) + ToBits(n, v)
    {
      hide BytesToBits, ToBits;
      Need();
      PutBelow(live, bsBuff, n, v);
      // The positions below the live bits are clear, so the bitwise or is an addition.
      bsBuff := bsBuff + Scale(v, 32 - bsLive - n);
      bsLive := bsLive + n;
      live := live + ToBits(n, v);
    }

    /** bsFinishWrite: writes out the live bits, the last byte filled up with zeros. */
    method FinishWrite() returns (ghost pad: nat)
      requires Valid() && |Emitted()| + 7 <= 8 * room
      modifies this`bsBuff, this`bsLive, this`numZ, this`live, zbits
      ensures pad < 8 && numZ <= room && bsLive <= 0
      ensures BytesToBits(zbits[..numZ]) == old(Emitted()) + Zeros(pad)
    {
      hide BytesToBits, Zeros;
      ghost var k := (bsLive + 7) / 8;
      pad := 8 * k - bsLive;
      ghost var all := Emitted() + Zeros(pad);
      PadBelow(live, bsBuff, pad);
      live := live + Zeros(pad);
      assert Emitted() == all;
      while bsLive > 0
        invariant Sound() && bsLive + pad == |live| == 8 * k && 0 <= k
        invariant Emitted() == all && |all| <= 8 * room
        decreases bsLive
      {
        ByteOut();
        k := k - 1;
      }
      assert Emitted() == BytesToBits(zbits[..numZ]);
    }

    /** bsPutUChar */
    method PutByte(c: Byte)
      requires Valid() && |Emitted()| <= 8 * room
      modifies this`bsBuff, this`bsLive, this`numZ, this`live, zbits
      ensures Valid() && Emitted() == old(Emitted()) + ByteBits(c)
    {
      Powers();
      BsW(8, c);
    }
  }

  // ----- Reading.

  /** A right shift. */
  function Shr(x: nat, k: nat): nat
    decreases k
  {
    if k == 0 then x else Shr(x, k - 1) / 2
  }

  /** The low `n` bits as a number: x & ((1 << n) - 1). */
  function LowBits(n: nat, x: nat): nat
    decreases n
  {
    if n == 0 then 0 else 2 * LowBits(n - 1, x / 2) + x % 2
  }

  lemma {:induction false} LowBitsVal(n: nat, x: nat)
    ensures LowBits(n, x) == Val(ToBits(n, x))
    decreases n
  {
    if n > 0 {
      LowBitsVal(n - 1, x / 2);
      ValPush(ToBits(n - 1, x / 2), x % 2 == 1);
    }
  }

  lemma {:induction false} ShrHalf(x: nat, k: nat)
    ensures Shr(x / 2, k) == Shr(x, k) / 2
    decreases k
  {
    if k > 0 {
      ShrHalf(x, k - 1);
    }
  }

  /** A right shift cuts the low bits off. */
  lemma {:induction false} ToBitsShr(n: nat, k: nat, x: nat)
    ensures ToBits(n, Shr(x, k)) == ToBits(n + k, x)[..n] && ToBits(k, x) == ToBits(n + k, x)[n..]
    decreases k
  {
    if k > 0 {
      ToBitsShr(n, k - 1, x / 2);
      ShrHalf(x, k - 1);
      var a := ToBits(n + k - 1, x / 2);
      assert ToBits(n + k, x) == a + [x % 2 == 1];
      assert (a + [x % 2 == 1])[..n] == a[..n] && (a + [x % 2 == 1])[n..] == a[n..] + [x % 2 == 1];
    }
  }

  lemma {:induction false} ToBitsPush(n: nat, k: nat, v: nat, x: nat)
    requires x < Pow2(k)
    ensures ToBits(n + k, Scale(v, k) + x) == ToBits(n, v) + ToBits(k, x)
    decreases k
  {
    if k == 0 {
      assert ToBits(n, v) + [] == ToBits(n, v);
    } else {
      ToBitsPush(n, k - 1, v, x / 2);
      HalfOfSum(Scale(v, k - 1), x);
      var b := x % 2 == 1;
      assert ToBits(n, v) + ToBits(k - 1, x / 2) + [b] == ToBits(n, v) + (ToBits(k - 1, x / 2) + [b]);
    }
  }

  lemma HalfOfSum(a: nat, x: nat)
    ensures (2 * a + x) / 2 == a + x / 2 && (2 * a + x) % 2 == x % 2
  {
  }

  /** Bits from position `k` up do not matter. */
  lemma {:induction false} ToBitsLow(n: nat, k: nat, q: nat, v: nat)
    requires n <= k
    ensures ToBits(n, Scale(q, k) + v) == ToBits(n, v)
    decreases n
  {
    if n > 0 {
      HalfOfSum(Scale(q, k - 1), v);
      ToBitsLow(n - 1, k - 1, q, v / 2);
    }
  }

  lemma WordShift(a: nat) returns (k: nat)
    ensures 32 <= k && Scale(a, k) == a * 0x1_0000_0000
  {
    k := 32;
    ScaleTimes(a, 24);
    ScaleTimes(Scale(a, 24), 8);
    ScaleScale(a, 24, 8);
    Powers();
  }

  lemma ByteShift(a: nat) returns (k: nat)
    ensures k + 24 == 32 && Scale(a, k) == a * 256 && Pow2(k) == 256
  {
    k := 8;
    ScaleTimes(a, 8);
    Powers();
  }

  /** What falls off the top of the word was read long ago. */
  lemma Truncated(n: nat, v: nat)
    requires n <= 32
    ensures ToBits(n, v % 0x1_0000_0000) == ToBits(n, v)
  {
    var q := v / 0x1_0000_0000;
    var k := WordShift(q);
    ToBitsLow(n, k, q, v % 0x1_0000_0000);
  }

  lemma ByteBelow(buff: nat, live: Bits, x: Byte, k: nat)
    requires ToBits(|live|, buff) == live && k + 24 == 32
    ensures ToBits(|live| + k, buff * 256 + x) == live + ToBits(k, x)
  {
    var j := ByteShift(buff);
    ToBitsPush(|live|, k, buff, x);
  }

  /** Taking in a byte below the live bits. */
  lemma ByteIn(buff: nat, live: Bits, x: Byte)
    requires |live| <= 24 && ToBits(|live|, buff) == live
    ensures ToBits(|live| + 8, buff * 256 % 0x1_0000_0000 + x) == live + ByteBits(x)
  {
    ByteBelow(buff, live, x, 8);
    Truncated(|live| + 8, buff * 256 + x);
    var q := buff * 256 / 0x1_0000_0000;
    assert (buff * 256 + x) % 0x1_0000_0000 == buff * 256 % 0x1_0000_0000 + x by {
      SmallRemainder(buff, x);
    }
  }

  lemma SmallRemainder(buff: nat, x: Byte)
    ensures (buff * 256 + x) % 0x1_0000_0000 == buff * 256 % 0x1_0000_0000 + x
  {
    var q, r := buff / 0x100_0000, buff % 0x100_0000;
    assert buff * 256 == q * 0x1_0000_0000 + 256 * r;
  }

  /** Taking the first `n` live bits. */
  lemma BitsOut(buff: nat, live: Bits, n: nat)
    requires n <= |live| && ToBits(|live|, buff) == live
    ensures LowBits(n, Shr(buff, |live| - n)) == Val(live[..n]) && ToBits(|live| - n, buff) == live[n..]
  {
    ToBitsShr(n, |live| - n, buff);
    LowBitsVal(n, Shr(buff, |live| - n));
  }

  lemma {:induction false} ScaleZero(k: nat)
    ensures Scale(0, k) == 0
  {
    if k > 0 {
      ScaleZero(k - 1);
    }
  }
}
