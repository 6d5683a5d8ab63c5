/** Move-to-front coding with runs of zeros in bijective base 2: what the encoder emits and how the decoder undoes it.

    The coder works on positions in the list of bytes in use; the decoder's list has all 256 positions, of which
    only the first `n` ever move.
 */
module MoveToFront {
  import opened Bits
  import opened Rotations

  const RUNA := 0
  const RUNB := 1
  /** A run whose next digit would weigh this much is rejected by the decoder. */
  const RUN_GUARD := 2 * 1024 * 1024

  /** A symbol of the block's alphabet: two run digits, positions plus one, and the end-of-block symbol. */
  type Symbol = x: int | 0 <= x <= 257

  /** The list with its entry `j` moved to the front. */
  function MoveFront<T>(s: seq<T>, j: nat): (r: seq<T>)
    requires j < |s|
    ensures |r| == |s|
  {
    [s[j]] + s[..j] + s[j + 1..]
  }

  /** The position of the first `x`. */
  function Pos<T(==)>(s: seq<T>, x: T): (j: nat)
    requires x in s
    ensures j < |s| && s[j] == x && forall k :: 0 <= k < j ==> s[k] != x
  {
    if s[0] == x then 0 else 1 + Pos(s[1..], x)
  }

  function Identity(n: nat): (s: seq<Byte>)
    requires n <= 256
    ensures |s| == n
  {
    seq(n, i requires 0 <= i < n => i)
  }

  /** `z` in bijective base 2, lowest digit first. */
  function Run(z: nat): (r: seq<Symbol>)
    ensures |r| <= z
  {
    if z == 0 then [] else if z % 2 == 1 then [RUNA] + Run((z - 1) / 2) else [RUNB] + Run((z - 2) / 2)
  }

  lemma {:induction false} RunShort(z: nat, k: nat)
    requires z + 2 <= Pow2(k + 1)
    ensures |Run(z)| <= k
  {
    assert Pow2(1) == 2;
    if z > 0 {
      RunShort(if z % 2 == 1 then (z - 1) / 2 else (z - 2) / 2, k - 1);
    }
  }

  // ----- The coder.

  /** List, pending zeros, and symbols emitted so far. */
  datatype Coder = Coder(yy: seq<Byte>, zPend: nat, out: seq<Symbol>)

  ghost predicate Lists(yy: seq<Byte>, n: nat) {
    |yy| == n && forall x: Byte :: x < n ==> x in yy
  }

  ghost predicate Positions(ll: seq<Byte>, n: nat) {
    forall i :: 0 <= i < |ll| ==> ll[i] < n
  }

  lemma MoveFrontMember<T>(s: seq<T>, j: nat, x: T)
    requires j < |s| && x in s
    ensures x in MoveFront(s, j)
  {
    var k :| 0 <= k < |s| && s[k] == x;
    var r := MoveFront(s, j);
    assert if k == j then r[0] == x else if k < j then r[k + 1] == x else r[k] == x;
  }

  lemma MoveFrontLists(yy: seq<Byte>, n: nat, j: nat)
    requires Lists(yy, n) && j < n
    ensures Lists(MoveFront(yy, j), n)
  {
    forall x: Byte | x < n
      ensures x in MoveFront(yy, j)
    {
      MoveFrontMember(yy, j, x);
    }
  }

  lemma IdentityLists(n: nat)
    requires n <= 256
    ensures Lists(Identity(n), n)
  {
    forall x: Byte | x < n
      ensures x in Identity(n)
    {
      assert Identity(n)[x] == x;
    }
  }

  function CoderStep(c: Coder, x: Byte): Coder
    requires x in c.yy && |c.yy| <= 256
  {
    if c.yy[0] == x then c.(zPend := c.zPend + 1)
    else Coder(MoveFront(c.yy, Pos(c.yy, x)), 0, c.out + Run(c.zPend) + [Pos(c.yy, x) + 1])
  }

  /** The coder after all positions in `ll`. */
  ghost function Coded(n: nat, ll: seq<Byte>): (c: Coder)
    requires n <= 256 && Positions(ll, n)
    ensures Lists(c.yy, n) && |c.out| + c.zPend <= |ll|
  {
    if ll == [] then
      IdentityLists(n);
      Coder(Identity(n), 0, [])
    else
      var k := |ll| - 1;
      var c := Coded(n, ll[..k]);
      MoveFrontLists(c.yy, n, Pos(c.yy, ll[k]));
      CoderStep(c, ll[k])
  }

  /** All symbols of a block, the end-of-block symbol n + 1 included. */
  ghost function MtfSymbols(n: nat, ll: seq<Byte>): (r: seq<Symbol>)
    requires n <= 256 && Positions(ll, n)
    ensures 1 <= |r| <= |ll| + 1 && r[|r| - 1] == n + 1
  {
    var c := Coded(n, ll);
    c.out + Run(c.zPend) + [n + 1]
  }

  ghost predicate SymbolsUpTo(syms: seq<Symbol>, n: nat) {
    forall i :: 0 <= i < |syms| ==> syms[i] <= n
  }

  lemma {:induction false} RunBelow(z: nat, n: nat)
    requires 1 <= n
    ensures SymbolsUpTo(Run(z), n)
    decreases z
  {
    if z > 0 {
      RunBelow(if z % 2 == 1 then (z - 1) / 2 else (z - 2) / 2, n);
    }
  }

  lemma {:induction false} CodedBelow(n: nat, ll: seq<Byte>)
    requires 1 <= n <= 256 && Positions(ll, n)
    ensures SymbolsUpTo(Coded(n, ll).out, n)
    decreases |ll|
  {
    if ll != [] {
      var k := |ll| - 1;
      CodedBelow(n, ll[..k]);
      RunBelow(Coded(n, ll[..k]).zPend, n);
    }
  }

  /** The end-of-block symbol comes last only. */
  lemma EndComesLast(n: nat, ll: seq<Byte>)
    requires 1 <= n <= 256 && Positions(ll, n)
    ensures var s := MtfSymbols(n, ll); SymbolsUpTo(s[..|s| - 1], n)
  {
    var c := Coded(n, ll);
    CodedBelow(n, ll);
    RunBelow(c.zPend, n);
    var s := MtfSymbols(n, ll);
    assert s[..|s| - 1] == c.out + Run(c.zPend);
  }

  // ----- The decoder.

  /** List, value of the run so far, weight of its next digit, and bytes decoded so far. */
  datatype Decoder = Decoder(yy: seq<Byte>, run: nat, weight: nat, out: seq<Byte>)

  function Repeat(x: Byte, k: nat): (r: seq<Byte>)
    ensures |r| == k
  {
    seq(k, _ => x)
  }

  /** The pending run is written out as copies of the byte at the front; `m` maps positions to bytes. */
  function Flushed(m: seq<Byte>, d: Decoder): (r: Decoder)
    requires |m| == |d.yy| == 256
    ensures |r.yy| == 256
  {
    Decoder(d.yy, 0, 1, d.out + Repeat(m[d.yy[0]], d.run))
  }

  /** One symbol below the end-of-block symbol. */
  function DecoderStep(m: seq<Byte>, d: Decoder, sym: Symbol): (r: Decoder)
    requires |m| == |d.yy| == 256
    ensures |r.yy| == 256
  {
    if sym <= RUNB then d.(run := d.run + (sym + 1) * d.weight, weight := 2 * d.weight)
    else if sym == 257 then d
    else
      var f := Flushed(m, d);
      Decoder(MoveFront(f.yy, sym - 1), 0, 1, f.out + [m[f.yy[sym - 1]]])
  }

  /** What the decoder checks before taking a symbol. */
  predicate StepOk(d: Decoder, sym: Symbol, max: nat) {
    if sym <= RUNB then d.weight < RUN_GUARD else |d.out| + d.run + 1 <= max
  }

  /** The decoder after all of `syms`. */
  ghost function Fed(m: seq<Byte>, d: Decoder, syms: seq<Symbol>): (r: Decoder)
    requires |m| == |d.yy| == 256
    ensures |r.yy| == 256
  {
    if syms == [] then d else DecoderStep(m, Fed(m, d, syms[..|syms| - 1]), syms[|syms| - 1])
  }

  /** No check fails on the way. */
  ghost predicate FedOk(m: seq<Byte>, d: Decoder, syms: seq<Symbol>, max: nat)
    requires |m| == |d.yy| == 256
  {
    syms == [] ||
    (FedOk(m, d, syms[..|syms| - 1], max) && StepOk(Fed(m, d, syms[..|syms| - 1]), syms[|syms| - 1], max))
  }

  lemma {:induction false} FedConcat(m: seq<Byte>, d: Decoder, a: seq<Symbol>, b: seq<Symbol>, max: nat)
    requires |m| == |d.yy| == 256
    ensures Fed(m, d, a + b) == Fed(m, Fed(m, d, a), b)
    ensures FedOk(m, d, a, max) && FedOk(m, Fed(m, d, a), b, max) ==> FedOk(m, d, a + b, max)
    decreases |b|
  {
    if b == [] {
      assert a + b == a;
    } else {
      var k := |b| - 1;
      assert (a + b)[..|a + b| - 1] == a + b[..k];
      FedConcat(m, d, a, b[..k], max);
    }
  }

  lemma FedOne(m: seq<Byte>, d: Decoder, sym: Symbol, max: nat)
    requires |m| == |d.yy| == 256
    ensures Fed(m, d, [sym]) == DecoderStep(m, d, sym)
    ensures StepOk(d, sym, max) ==> FedOk(m, d, [sym], max)
  {
    assert [sym][..0] == [];
  }

  lemma RunArithmetic(a: nat, z: nat, z': nat, w: nat)
    requires z == a + 1 + 2 * z'
    ensures (a + 1) * w + z' * (2 * w) == z * w
  {
  }

  lemma RunSplit(z: nat) returns (a: Symbol, z': nat)
    requires z > 0
    ensures a <= RUNB && z == a + 1 + 2 * z' && z' < z && Run(z) == [a] + Run(z')
  {
    a := if z % 2 == 1 then RUNA else RUNB;
    z' := if z % 2 == 1 then (z - 1) / 2 else (z - 2) / 2;
  }

  /** The state of the decoder after a run of `z` has been read in state `d`. */
  ghost predicate RunRead(d: Decoder, e: Decoder, z: nat) {
    e.yy == d.yy && e.out == d.out && e.run == d.run + z * d.weight
  }

  lemma RunDigit(d: Decoder, j: nat, k: nat)
    requires d.weight == Pow2(j) && j < k && Pow2(k) <= RUN_GUARD
    ensures d.weight < RUN_GUARD && 2 * d.weight == Pow2(j + 1)
  {
    Pow2Mono(j + 1, k);
    Pow2Mono(j, j);
  }

  /** Reading a run: its value is the number it was made from. */
  lemma {:induction false} FedRun(m: seq<Byte>, d: Decoder, z: nat, j: nat, k: nat, max: nat)
    requires |m| == |d.yy| == 256 && d.weight == Pow2(j) && |Run(z)| + j <= k && Pow2(k) <= RUN_GUARD
    ensures RunRead(d, Fed(m, d, Run(z)), z) && FedOk(m, d, Run(z), max)
    decreases z
  {
    hide Run;
    if z > 0 {
      var a, z' := RunSplit(z);
      RunDigit(d, j, k);
      var e := d.(run := d.run + (a + 1) * d.weight, weight := 2 * d.weight);
      FedOne(m, d, a, max);
      FedRun(m, e, z', j + 1, k, max);
      FedConcat(m, d, [a], Run(z'), max);
      RunArithmetic(a, z, z', d.weight);
    }
  }

  // ----- Inversion.

  ghost function Bytes(m: seq<Byte>, ll: seq<Byte>): (r: seq<Byte>)
    requires |m| == 256
    ensures |r| == |ll|
  {
    seq(|ll|, i requires 0 <= i < |ll| => m[ll[i]])
  }

  function StartDecoder(): (d: Decoder)
    ensures |d.yy| == 256
  {
    Decoder(Identity(256), 0, 1, [])
  }

  /** Where the decoder stands after the symbols emitted for `ll`: all but the pending zeros is decoded. */
  ghost predicate InStep(m: seq<Byte>, c: Coder, ll: seq<Byte>, d: Decoder) {
    && |m| == |d.yy| == 256 && 1 <= |c.yy| <= 256 && d.run == 0 && d.weight == 1 && d.yy[..|c.yy|] == c.yy
    && d.out + Repeat(m[d.yy[0]], c.zPend) == Bytes(m, ll)
  }

  lemma ZeroInStep(m: seq<Byte>, c: Coder, ll: seq<Byte>, d: Decoder, x: Byte)
    requires InStep(m, c, ll, d) && x == c.yy[0]
    ensures InStep(m, c.(zPend := c.zPend + 1), ll + [x], d)
  {
    assert Bytes(m, ll + [x]) == Bytes(m, ll) + [m[x]];
    assert Repeat(m[d.yy[0]], c.zPend + 1) == Repeat(m[d.yy[0]], c.zPend) + [m[x]];
  }

  lemma PendingRun(m: seq<Byte>, c: Coder, ll: seq<Byte>, d: Decoder, max: nat)
    requires InStep(m, c, ll, d) && |ll| <= 900_000
    ensures FedOk(m, d, Run(c.zPend), max)
    ensures var e := Fed(m, d, Run(c.zPend));
            e.yy == d.yy && e.out == d.out && e.run == c.zPend
    ensures Flushed(m, Fed(m, d, Run(c.zPend))).out == Bytes(m, ll) && |d.out| + c.zPend == |ll|
  {
    Powers();
    RunShort(c.zPend, 20);
    FedRun(m, d, c.zPend, 0, 21, max);
  }

  lemma MoveInStep(m: seq<Byte>, c: Coder, ll: seq<Byte>, d: Decoder, x: Byte, max: nat)
    requires InStep(m, c, ll, d) && x in c.yy && x != c.yy[0] && |ll| < max <= 900_000
    ensures var syms := Run(c.zPend) + [Pos(c.yy, x) + 1];
            && InStep(m, CoderStep(c, x), ll + [x], Fed(m, d, syms))
            && FedOk(m, d, syms, max)
  {
    var j := Pos(c.yy, x);
    PendingRun(m, c, ll, d, max);
    var r := Fed(m, d, Run(c.zPend));
    FedOne(m, r, j + 1, max);
    FedConcat(m, d, Run(c.zPend), [j + 1], max);
    MoveRest(m, c, ll, d, x, j, DecoderStep(m, r, j + 1));
  }

  lemma MoveRest(m: seq<Byte>, c: Coder, ll: seq<Byte>, d: Decoder, x: Byte, j: nat, e: Decoder)
    requires InStep(m, c, ll, d) && x in c.yy && j == Pos(c.yy, x) && x != c.yy[0]
    requires e.yy == MoveFront(d.yy, j) && e.run == 0 && e.weight == 1 && e.out == Bytes(m, ll) + [m[d.yy[j]]]
    ensures InStep(m, CoderStep(c, x), ll + [x], e)
  {
    assert d.yy[..|c.yy|][j] == d.yy[j] == x;
    assert MoveFront(d.yy, j)[..|c.yy|] == MoveFront(d.yy[..|c.yy|], j);
    assert Bytes(m, ll + [x]) == Bytes(m, ll) + [m[x]];
    assert e.out + Repeat(m[e.yy[0]], 0) == e.out;
  }

  lemma {:induction false} DecoderFollows(m: seq<Byte>, n: nat, ll: seq<Byte>, max: nat)
    requires 1 <= n <= 256 && |m| == 256 && Positions(ll, n) && |ll| <= max <= 900_000
    ensures InStep(m, Coded(n, ll), ll, Fed(m, StartDecoder(), Coded(n, ll).out))
    ensures FedOk(m, StartDecoder(), Coded(n, ll).out, max)
    decreases |ll|
  {
    var s := StartDecoder();
    if ll == [] {
      assert s.yy[..n] == Identity(n);
    } else {
      var k := |ll| - 1;
      var c, x := Coded(n, ll[..k]), ll[k];
      assert ll == ll[..k] + [x];
      DecoderFollows(m, n, ll[..k], max);
      FollowOne(m, c, ll[..k], x, max);
    }
  }

  /** One more position. */
  lemma FollowOne(m: seq<Byte>, c: Coder, ll: seq<Byte>, x: Byte, max: nat)
    requires |m| == 256 && x in c.yy && |c.yy| <= 256 && |ll| < max <= 900_000
    requires InStep(m, c, ll, Fed(m, StartDecoder(), c.out)) && FedOk(m, StartDecoder(), c.out, max)
    ensures InStep(m, CoderStep(c, x), ll + [x], Fed(m, StartDecoder(), CoderStep(c, x).out))
    ensures FedOk(m, StartDecoder(), CoderStep(c, x).out, max)
  {
    var s := StartDecoder();
    var d := Fed(m, s, c.out);
    if x == c.yy[0] {
      ZeroInStep(m, c, ll, d, x);
    } else {
      MoveInStep(m, c, ll, d, x, max);
      var syms := Run(c.zPend) + [Pos(c.yy, x) + 1];
      FedConcat(m, s, c.out, syms, max);
      assert CoderStep(c, x).out == c.out + syms;
    }
  }

  /** Decoding what was coded: no check fails, and the bytes come out again. */
  lemma MtfInversion(m: seq<Byte>, n: nat, ll: seq<Byte>, max: nat)
    requires 1 <= n <= 256 && |m| == 256 && Positions(ll, n) && |ll| <= max <= 900_000
    ensures var s := MtfSymbols(n, ll);
            var syms := s[..|s| - 1];
            && FedOk(m, StartDecoder(), syms, max)
            && Flushed(m, Fed(m, StartDecoder(), syms)).out == Bytes(m, ll)
  {
    var c := Coded(n, ll);
    DecoderFollows(m, n, ll, max);
    PendingRun(m, c, ll, Fed(m, StartDecoder(), c.out), max);
    FedConcat(m, StartDecoder(), c.out, Run(c.zPend), max);
    var s := MtfSymbols(n, ll);
    assert s[..|s| - 1] == c.out + Run(c.zPend);
  }
}
