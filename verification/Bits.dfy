/** Sequences of bits, most significant first, and the numbers they stand for. */
module Bits {
  type Bits = seq<bool>

  /** a * 2^k */
  function Scale(a: nat, k: nat): nat {
    if k == 0 then a else 2 * Scale(a, k - 1)
  }

  function Pow2(n: nat): nat {
    Scale(1, n)
  }

  lemma Powers()
    ensures Pow2(8) == 0x100 && Pow2(15) == 0x8000 && Pow2(16) == 0x1_0000
    ensures Pow2(20) == 0x10_0000 && Pow2(21) == 0x20_0000 && Pow2(24) == 0x100_0000 && Pow2(32) == 0x1_0000_0000
  {
    assert Pow2(1) == 2 && Pow2(2) == 4 && Pow2(3) == 8 && Pow2(4) == 16 && Pow2(5) == 32 && Pow2(6) == 64;
    assert Pow2(7) == 0x80 && Pow2(8) == 0x100 && Pow2(9) == 0x200 && Pow2(10) == 0x400 && Pow2(11) == 0x800;
    assert Pow2(12) == 0x1000 && Pow2(13) == 0x2000 && Pow2(14) == 0x4000 && Pow2(15) == 0x8000 && Pow2(16) == 0x1_0000;
    assert Pow2(17) == 0x2_0000 && Pow2(18) == 0x4_0000 && Pow2(19) == 0x8_0000 && Pow2(20) == 0x10_0000;
    assert Pow2(21) == 0x20_0000 && Pow2(22) == 0x40_0000 && Pow2(23) == 0x80_0000 && Pow2(24) == 0x100_0000;
    assert Pow2(25) == 0x200_0000 && Pow2(26) == 0x400_0000 && Pow2(27) == 0x800_0000 && Pow2(28) == 0x1000_0000;
    assert Pow2(29) == 0x2000_0000 && Pow2(30) == 0x4000_0000 && Pow2(31) == 0x8000_0000 && Pow2(32) == 0x1_0000_0000;
  }

  /** The low `n` bits of `v`. */
  function ToBits(n: nat, v: nat): (bs: Bits)
    ensures |bs| == n
  {
    if n == 0 then [] else ToBits(n - 1, v / 2) + [v % 2 == 1]
  }

  /** The last four bits. */
  lemma FourBits(n: nat, v: nat)
    ensures ToBits(n + 4, v) == ToBits(n, v / 16) + [v / 8 % 2 == 1, v / 4 % 2 == 1, v / 2 % 2 == 1, v % 2 == 1]
  {
    assert v / 2 / 2 == v / 4 && v / 4 / 2 == v / 8 && v / 8 / 2 == v / 16;
    assert ToBits(n + 4, v) == ToBits(n + 3, v / 2) + [v % 2 == 1];
    assert ToBits(n + 3, v / 2) == ToBits(n + 2, v / 4) + [v / 2 % 2 == 1];
    assert ToBits(n + 2, v / 4) == ToBits(n + 1, v / 8) + [v / 4 % 2 == 1];
  }

  lemma Assoc(a: Bits, b: Bits, c: Bits)
    ensures a + b + c == a + (b + c)
  {
  }

  function Val(bs: Bits): nat {
    if bs == [] then 0 else 2 * Val(bs[..|bs| - 1]) + if bs[|bs| - 1] then 1 else 0
  }

  lemma {:induction false} ValBound(bs: Bits)
    ensures Val(bs) < Pow2(|bs|)
  {
    if bs != [] {
      ValBound(bs[..|bs| - 1]);
    }
  }

  /** Reading back what was written. */
  lemma {:induction false} ValToBits(n: nat, v: nat)
    requires v < Pow2(n)
    ensures Val(ToBits(n, v)) == v
  {
    if n > 0 {
      ValToBits(n - 1, v / 2);
      assert ToBits(n, v)[..n - 1] == ToBits(n - 1, v / 2);
    }
  }

  /** Writing back what was read. */
  lemma {:induction false} ToBitsVal(bs: Bits)
    ensures ToBits(|bs|, Val(bs)) == bs
  {
    if bs != [] {
      ToBitsVal(bs[..|bs| - 1]);
      assert bs == bs[..|bs| - 1] + [bs[|bs| - 1]];
    }
  }

  lemma ValPush(bs: Bits, b: bool)
    ensures Val(bs + [b]) == 2 * Val(bs) + if b then 1 else 0
  {
    assert (bs + [b])[..|bs|] == bs;
  }

  lemma {:induction false} ValConcat(a: Bits, b: Bits)
    ensures Val(a + b) == Scale(Val(a), |b|) + Val(b)
  {
    if b == [] {
      assert a + b == a;
    } else {
      var b' := b[..|b| - 1];
      ValConcat(a, b');
      assert (a + b)[..|a + b| - 1] == a + b';
    }
  }

  lemma {:induction false} ScaleAdd(a: nat, b: nat, k: nat)
    ensures Scale(a + b, k) == Scale(a, k) + Scale(b, k)
  {
    if k > 0 {
      ScaleAdd(a, b, k - 1);
    }
  }

  lemma {:induction false} ScaleScale(a: nat, j: nat, k: nat)
    ensures Scale(Scale(a, j), k) == Scale(a, j + k)
  {
    if k > 0 {
      ScaleScale(a, j, k - 1);
    }
  }

  lemma {:induction false} ScaleMono(a: nat, b: nat, k: nat)
    ensures a <= b <==> Scale(a, k) <= Scale(b, k)
    ensures a < b ==> Scale(a, k) + Scale(1, k) <= Scale(b, k)
  {
    if k > 0 {
      ScaleMono(a, b, k - 1);
    }
  }

  /** What fits after scaling fits before. */
  lemma ScaledFits(e: nat, n: nat, top: nat)
    requires n <= top && Scale(e, top - n) <= Pow2(top)
    ensures e <= Pow2(n)
  {
    ScaleScale(1, n, top - n);
    ScaleMono(e, Pow2(n), top - n);
  }

  lemma {:induction false} Pow2Mono(m: nat, n: nat)
    requires m <= n
    ensures 1 <= Pow2(m) <= Pow2(n)
  {
    if m < n {
      Pow2Mono(m, n - 1);
    } else if m > 0 {
      Pow2Mono(m - 1, m - 1);
    }
  }

  /** If a number is at least f * 2^k, dropping its last k bits leaves at least f. */
  lemma PrefixAtLeast(bs: Bits, m: nat, f: nat)
    requires m <= |bs| && Scale(f, |bs| - m) <= Val(bs)
    ensures f <= Val(bs[..m])
  {
    var a, b := bs[..m], bs[m..];
    assert bs == a + b;
    ValConcat(a, b);
    ValBound(b);
    ScaleMono(Val(a), f, |b|);
  }

  function Zeros(n: nat): (r: Bits)
    ensures |r| == n
  {
    seq(n, _ => false)
  }

  lemma {:induction false} ValZeros(bs: Bits, n: nat)
    ensures Val(bs + Zeros(n)) == Scale(Val(bs), n)
    decreases n
  {
    if n == 0 {
      assert bs + Zeros(0) == bs;
    } else {
      ValZeros(bs, n - 1);
      assert bs + Zeros(n) == bs + Zeros(n - 1) + [false];
      ValPush(bs + Zeros(n - 1), false);
    }
  }

  /** A byte as eight bits. */
  function ByteBits(x: int): Bits
    requires 0 <= x < 256
  {
    ToBits(8, x)
  }
}
