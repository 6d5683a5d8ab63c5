/** The encoder's move-to-front pass, which writes 16-bit symbols over the sorted order it reads. */
module MtfEncoder {
  import opened Arrays
  import opened InverseBwt
  import opened MoveToFront
  import opened Permutations
  import opened Rotations
  import opened SmallDecoder

  // ----- The bytes in use.

  /** How many bytes below `c` are in use. */
  function Used(inUse: seq<bool>, c: nat): (r: nat)
    requires c <= |inUse|
    ensures r <= c
  {
    if c == 0 then 0 else Used(inUse, c - 1) + if inUse[c - 1] then 1 else 0
  }

  /** The bytes below `c` in use, ascending. */
  function UsedList(inUse: seq<bool>, c: nat): (r: seq<Byte>)
    requires c <= |inUse| <= 256
    ensures |r| == Used(inUse, c)
  {
    if c == 0 then [] else UsedList(inUse, c - 1) + if inUse[c - 1] then [c - 1] else []
  }

  lemma {:induction false} UsedAt(inUse: seq<bool>, x: nat, c: nat)
    requires x < c <= |inUse| <= 256 && inUse[x]
    ensures Used(inUse, x) < Used(inUse, c) && UsedList(inUse, c)[Used(inUse, x)] == x
    decreases c
  {
    if x < c - 1 {
      UsedAt(inUse, x, c - 1);
    }
  }

  ghost predicate AllUsed(inUse: seq<bool>, l: seq<Byte>) {
    |inUse| == 256 && forall i :: 0 <= i < |l| ==> inUse[l[i]]
  }

  /** The bytes of `l` as positions among the bytes in use. */
  function Seqs(inUse: seq<bool>, l: seq<Byte>): (r: seq<Byte>)
    requires |inUse| == 256
    ensures |r| == |l|
  {
    seq(|l|, i requires 0 <= i < |l| => Used(inUse, l[i]))
  }

  lemma SeqsArePositions(inUse: seq<bool>, l: seq<Byte>)
    requires AllUsed(inUse, l)
    ensures Positions(Seqs(inUse, l), Used(inUse, 256))
  {
    forall i | 0 <= i < |l|
      ensures Seqs(inUse, l)[i] < Used(inUse, 256)
    {
      UsedAt(inUse, l[i], 256);
    }
  }

  /** The decoder's map takes the positions back to the bytes. */
  lemma BytesOfSeqs(inUse: seq<bool>, m: seq<Byte>, l: seq<Byte>)
    requires AllUsed(inUse, l) && |m| == 256 && m[..Used(inUse, 256)] == UsedList(inUse, 256)
    ensures Bytes(m, Seqs(inUse, l)) == l
  {
    forall i | 0 <= i < |l|
      ensures Bytes(m, Seqs(inUse, l))[i] == l[i]
    {
      UsedAt(inUse, l[i], 256);
      assert m[..Used(inUse, 256)][Used(inUse, l[i])] == l[i];
    }
  }

  /** makeMaps_e */
  method MakeMapsE(inUse: array<bool>, unseqToSeq: array<Byte>) returns (nInUse: nat)
    requires inUse.Length == unseqToSeq.Length == 256 && inUse as object != unseqToSeq
    modifies unseqToSeq
    ensures nInUse == Used(inUse[..], 256)
    ensures forall c :: 0 <= c < 256 && inUse[c] ==> unseqToSeq[c] == Used(inUse[..], c)
  {
    nInUse := 0;
    var i := 0;
    while i < 256
      invariant 0 <= i <= 256 && nInUse == Used(inUse[..], i)
      invariant forall c :: 0 <= c < i && inUse[c] ==> unseqToSeq[c] == Used(inUse[..], c)
    {
      if inUse[i] {
        unseqToSeq[i] := nInUse;
        nInUse := nInUse + 1;
      }
      i := i + 1;
    }
  }

  /** makeMaps_d */
  method MakeMapsD(inUse: array<bool>, seqToUnseq: array<Byte>) returns (nInUse: nat)
    requires inUse.Length == seqToUnseq.Length == 256 && inUse as object != seqToUnseq
    modifies seqToUnseq
    ensures nInUse == Used(inUse[..], 256) && seqToUnseq[..nInUse] == UsedList(inUse[..], 256)
  {
    nInUse := 0;
    var i := 0;
    while i < 256
      invariant 0 <= i <= 256 && nInUse == Used(inUse[..], i)
      invariant seqToUnseq[..nInUse] == UsedList(inUse[..], i)
    {
      if inUse[i] {
        ghost var before := seqToUnseq[..nInUse];
        seqToUnseq[nInUse] := i;
        nInUse := nInUse + 1;
        assert seqToUnseq[..nInUse] == before + [i];
      }
      i := i + 1;
    }
  }

  // ----- The list.

  /** Moves `x`, which is not at the front, to the front, shifting the entries before it up one at a time. */
  method MoveUp(yy: array<Byte>, n: nat, x: Byte, ghost y: seq<Byte>) returns (j: nat)
    requires n <= yy.Length && yy[..n] == y && x in y && y[0] != x
    modifies yy
    ensures j == Pos(y, x) && 1 <= j && yy[..n] == MoveFront(y, j)
  {
    hide Pos;
    assert forall k :: 0 <= k < n ==> yy[k] == y[k];
    var rtmp := yy[1];
    yy[1] := yy[0];
    j := 1;
    while x != rtmp
      invariant 1 <= j <= Pos(y, x) < n && rtmp == y[j]
      invariant yy[0] == y[0] && forall k :: 1 <= k <= j ==> yy[k] == y[k - 1]
      invariant forall k :: j < k < n ==> yy[k] == y[k]
      decreases Pos(y, x) - j
    {
      j := j + 1;
      var rtmp2 := rtmp;
      rtmp := yy[j];
      yy[j] := rtmp2;
    }
    yy[0] := rtmp;
    assert yy[..n] == MoveFront(y, j);
  }

  // ----- Emitting symbols over the sorted order.

  /** Entry `i` of the sorted order, a 32-bit word seen as two 16-bit halves. */
  function PtrAt(h: seq<UInt16>, i: nat): nat
    requires 2 * i + 1 < |h|
  {
    h[2 * i] as int + 65536 * h[2 * i + 1] as int
  }

  /** The frequencies of the symbols up to `eob`. */
  ghost predicate Counted(f: seq<nat>, out: seq<Symbol>, eob: nat) {
    |f| == 258 && forall v :: 0 <= v <= eob && v < 258 ==> f[v] == Occ(out, v)
  }

  lemma CountedPush(f: seq<nat>, out: seq<Symbol>, eob: nat, sym: Symbol)
    requires Counted(f, out, eob) && sym <= eob
    ensures Counted(f[sym := f[sym] + 1], out + [sym], eob)
  {
    forall v | 0 <= v <= eob && v < 258
      ensures Occ(out + [sym], v) == Occ(out, v) + if v == sym then 1 else 0
    {
      OccConcat(out, [sym], v);
      OccOne(sym, v);
    }
  }

  lemma OccOne(x: int, v: int)
    ensures Occ([x], v) == if v == x then 1 else 0
  {
    assert [x][..0] == [] && [x][1..] == [];
  }

  method Emit(h: array<UInt16>, wr: nat, mtfFreq: array<nat>, sym: Symbol, ghost out: seq<Symbol>, ghost eob: nat)
    requires h as object != mtfFreq && wr == |out| < h.Length && h[..wr] == out && Counted(mtfFreq[..], out, eob) && sym <= eob
    modifies h, mtfFreq
    ensures h[..wr + 1] == out + [sym] && h[wr + 1..] == old(h[wr + 1..]) && Counted(mtfFreq[..], out + [sym], eob)
  {
    CountedPush(mtfFreq[..], out, eob, sym);
    Store(h, wr, sym);
    Store(mtfFreq, sym, mtfFreq[sym] + 1);
  }

  /** The digit emitted for the counter `zPend`, which is one below the number left, and what is left after it. */
  lemma FirstDigit(zPend: nat, out: seq<Symbol>, sym: Symbol, left: nat)
    requires sym == if zPend % 2 == 1 then RUNB else RUNA
    requires left == if zPend < 2 then 0 else (zPend - 2) / 2 + 1
    ensures out + Run(zPend + 1) == out + [sym] + Run(left)
  {
    var z := zPend + 1;
    assert left == if z % 2 == 1 then (z - 1) / 2 else (z - 2) / 2;
    assert Run(z) == [sym] + Run(left);
    Regroup(out, sym, Run(left));
  }

  lemma Regroup(out: seq<Symbol>, sym: Symbol, rest: seq<Symbol>)
    ensures out + ([sym] + rest) == out + [sym] + rest
    ensures rest == [] ==> out + [sym] + rest == out + [sym]
  {
  }

  lemma TailKept(h: seq<UInt16>, h0: seq<UInt16>, wr: nat, sym: Symbol)
    requires wr < |h| == |h0| && h[wr..] == h0[wr..]
    ensures h[wr + 1..] == h0[wr + 1..]
  {
    assert h[wr + 1..] == h[wr..][1..] && h0[wr + 1..] == h0[wr..][1..];
  }

  /** Emits a pending run, lowest digit first. */
  method EmitRun(h: array<UInt16>, wr0: nat, mtfFreq: array<nat>, zPend0: nat, ghost out0: seq<Symbol>, ghost eob: nat) returns (wr: nat)
    requires h as object != mtfFreq && zPend0 > 0 && wr0 == |out0| && wr0 + zPend0 <= h.Length
    requires h[..wr0] == out0 && Counted(mtfFreq[..], out0, eob) && RUNB <= eob
    modifies h, mtfFreq
    ensures wr == wr0 + |Run(zPend0)| && h[..wr] == out0 + Run(zPend0) && h[wr..] == old(h[wr..])
    ensures Counted(mtfFreq[..], out0 + Run(zPend0), eob)
  {
    ghost var out := out0;
    wr := wr0;
    var zPend: nat := zPend0 - 1;
    while true
      invariant wr0 <= wr == |out| && wr + zPend + 1 <= h.Length && out + Run(zPend + 1) == out0 + Run(zPend0)
      invariant h[..wr] == out && h[wr..] == old(h[..])[wr..] && Counted(mtfFreq[..], out, eob)
      decreases zPend
    {
      var sym: Symbol := if zPend % 2 == 1 then RUNB else RUNA;
      TailKept(h[..], old(h[..]), wr, sym);
      Emit(h, wr, mtfFreq, sym, out, eob);
      wr := wr + 1;
      FirstDigit(zPend, out, sym, if zPend < 2 then 0 else (zPend - 2) / 2 + 1);
      out := out + [sym];
      if zPend < 2 {
        break;
      }
      zPend := (zPend - 2) / 2;
    }
  }

  method EmitPending(h: array<UInt16>, wr0: nat, mtfFreq: array<nat>, zPend: nat, ghost out: seq<Symbol>, ghost eob: nat) returns (wr: nat)
    requires h as object != mtfFreq && wr0 == |out| && wr0 + zPend <= h.Length
    requires h[..wr0] == out && Counted(mtfFreq[..], out, eob) && RUNB <= eob
    modifies h, mtfFreq
    ensures wr == wr0 + |Run(zPend)| && h[..wr] == out + Run(zPend) && Counted(mtfFreq[..], out + Run(zPend), eob)
    ensures forall t: seq<UInt16> {:trigger t[wr..]} :: |t| == h.Length && old(h[wr0..]) == t[wr0..] ==> h[wr..] == t[wr..]
  {
    if zPend > 0 {
      wr := EmitRun(h, wr0, mtfFreq, zPend, out, eob);
      forall t: seq<UInt16> | |t| == h.Length && old(h[wr0..]) == t[wr0..]
        ensures h[wr..] == t[wr..]
      {
        assert old(h[wr..]) == old(h[wr0..])[wr - wr0..] && t[wr..] == t[wr0..][wr - wr0..];
      }
    } else {
      wr := wr0;
      assert out + Run(0) == out;
    }
  }

  // ----- The pass.

  /** The state of the pass before entry `i` of the sorted order: the symbols written so far lie below the entries still
      to be read, because there are never more of them than entries read. */
  ghost predicate Passing(h: seq<UInt16>, h0: seq<UInt16>, y: seq<Byte>, f: seq<nat>, wr: nat, zPend: nat, n: nat, ll: seq<Byte>) {
    && 1 <= n <= 256 && Positions(ll, n) && |h| == |h0|
    && wr + zPend <= |ll| && 2 * |ll| <= |h|
    && y == Coded(n, ll).yy && zPend == Coded(n, ll).zPend && wr <= |h|
    && h[..wr] == Coded(n, ll).out && h[wr..] == h0[wr..] && Counted(f, Coded(n, ll).out, n + 1)
  }

  lemma PtrUnchanged(h: seq<UInt16>, h0: seq<UInt16>, wr: nat, i: nat)
    requires |h| == |h0| && wr <= 2 * i && 2 * i + 1 < |h| && h[wr..] == h0[wr..]
    ensures PtrAt(h, i) == PtrAt(h0, i)
  {
    assert h[wr..][2 * i - wr] == h[2 * i] && h[wr..][2 * i + 1 - wr] == h[2 * i + 1];
    assert h0[wr..][2 * i - wr] == h0[2 * i] && h0[wr..][2 * i + 1 - wr] == h0[2 * i + 1];
  }

  method TakeOne(h: array<UInt16>, yy: array<Byte>, mtfFreq: array<nat>, wr0: nat, zPend0: nat, x: Byte, n: nat,
                 ghost h0: seq<UInt16>, ghost ll: seq<Byte>) returns (wr: nat, zPend: nat)
    requires h as object != mtfFreq && h as object != yy && yy as object != mtfFreq && n <= yy.Length
    requires Passing(h[..], h0, yy[..n], mtfFreq[..], wr0, zPend0, n, ll) && x < n && 2 * |ll| + 2 <= h.Length
    modifies h, yy, mtfFreq
    ensures Passing(h[..], h0, yy[..n], mtfFreq[..], wr, zPend, n, ll + [x])
  {
    ghost var c := Coded(n, ll);
    assert (ll + [x])[..|ll|] == ll;
    wr, zPend := wr0, zPend0;
    if yy[0] == x {
      zPend := zPend + 1;
    } else {
      wr := EmitPending(h, wr, mtfFreq, zPend, c.out, n + 1);
      zPend := 0;
      var j := MoveUp(yy, n, x, c.yy);
      TailKept(h[..], h0, wr, j + 1);
      Emit(h, wr, mtfFreq, j + 1, c.out + Run(c.zPend), n + 1);
      wr := wr + 1;
    }
  }

  ghost predicate Maps(unseqToSeq: seq<Byte>, inUse: seq<bool>) {
    |unseqToSeq| == |inUse| == 256 && forall c :: 0 <= c < 256 && inUse[c] ==> unseqToSeq[c] == Used(inUse, c)
  }

  /** The position of the byte in front of the i-th sorted rotation. */
  method PositionOf(h: array<UInt16>, block: array<int>, nblock: nat, unseqToSeq: array<Byte>, i: nat,
                    ghost b: seq<Byte>, ghost p: seq<int>, ghost inUse: seq<bool>) returns (x: Byte)
    requires i < nblock == |b| == |p| <= block.Length && 2 * nblock <= h.Length && InRange(p, nblock) && block[..nblock] == b
    requires Maps(unseqToSeq[..], inUse) && AllUsed(inUse, LastColumn(b, p)) && PtrAt(h[..], i) == p[i]
    ensures x == Seqs(inUse, LastColumn(b, p))[i]
  {
    var j := h[2 * i] as int + 65536 * h[2 * i + 1] as int - 1;
    if j < 0 {
      j := j + nblock;
    }
    assert j == Prev(nblock, p[i]);
    assert block[j] == block[..nblock][j] == b[j] == LastColumn(b, p)[i];
    x := unseqToSeq[block[j]];
  }

  /** generateMTFValues.  `h` is the memory of the sorted order `p`, and `mtfv` is the same memory. */
  method GenerateMtfValues(h: array<UInt16>, block: array<int>, nblock: nat, inUse: array<bool>, unseqToSeq: array<Byte>,
                           mtfFreq: array<nat>, ghost b: seq<Byte>, ghost p: seq<int>) returns (nMTF: nat, nInUse: nat)
    requires h as object != block && h as object != inUse && h as object != unseqToSeq && h as object != mtfFreq
    requires inUse as object != unseqToSeq && inUse as object != mtfFreq && block as object != unseqToSeq
    requires block as object != mtfFreq && unseqToSeq as object != mtfFreq
    requires inUse.Length == unseqToSeq.Length == 256 && mtfFreq.Length == 258
    requires 0 < nblock == |b| == |p| <= block.Length && 2 * nblock <= h.Length && InRange(p, nblock)
    requires block[..nblock] == b && AllUsed(inUse[..], b)
    requires forall i :: 0 <= i < nblock ==> PtrAt(h[..], i) == p[i]
    modifies h, unseqToSeq, mtfFreq
    ensures nInUse == Used(inUse[..], 256) && 1 <= nInUse && Positions(Seqs(inUse[..], LastColumn(b, p)), nInUse)
    ensures nMTF == |MtfSymbols(nInUse, Seqs(inUse[..], LastColumn(b, p)))| <= nblock + 1 <= h.Length
    ensures h[..nMTF] == MtfSymbols(nInUse, Seqs(inUse[..], LastColumn(b, p)))
    ensures Counted(mtfFreq[..], h[..nMTF], nInUse + 1)
  {
    ghost var ll := Seqs(inUse[..], LastColumn(b, p));
    nInUse := MakeMapsE(inUse, unseqToSeq);
    assert Maps(unseqToSeq[..], inUse[..]);
    ColumnInUse(inUse[..], b, p);
    var yy := new Byte[256];
    StartPass(mtfFreq, yy, nInUse);
    var wr, zPend := PassOver(h, block, nblock, yy, unseqToSeq, mtfFreq, nInUse, b, p, inUse[..]);
    ghost var c := Coded(nInUse, ll);
    wr := EmitPending(h, wr, mtfFreq, zPend, c.out, nInUse + 1);
    Emit(h, wr, mtfFreq, nInUse + 1, c.out + Run(c.zPend), nInUse + 1);
    nMTF := wr + 1;
  }

  /** The loop over the sorted order. */
  method PassOver(h: array<UInt16>, block: array<int>, nblock: nat, yy: array<Byte>, unseqToSeq: array<Byte>, mtfFreq: array<nat>,
                  nInUse: nat, ghost b: seq<Byte>, ghost p: seq<int>, ghost used: seq<bool>) returns (wr: nat, zPend: nat)
    requires h as object != mtfFreq && h as object != yy && yy as object != mtfFreq
    requires block as object != h && block as object != yy && block as object != mtfFreq
    requires unseqToSeq as object != h && unseqToSeq != yy && unseqToSeq as object != mtfFreq
    requires 0 < nblock == |b| == |p| <= block.Length && 2 * nblock <= h.Length && InRange(p, nblock) && block[..nblock] == b
    requires |used| == 256 && AllUsed(used, LastColumn(b, p)) && Maps(unseqToSeq[..], used) && 1 <= nInUse == Used(used, 256)
    requires Positions(Seqs(used, LastColumn(b, p)), nInUse) && yy.Length == 256
    requires Counted(mtfFreq[..], [], nInUse + 1) && yy[..nInUse] == Coded(nInUse, []).yy
    requires forall i :: 0 <= i < nblock ==> PtrAt(h[..], i) == p[i]
    modifies h, yy, mtfFreq
    ensures Passing(h[..], old(h[..]), yy[..nInUse], mtfFreq[..], wr, zPend, nInUse, Seqs(used, LastColumn(b, p)))
  {
    hide LastColumn, Seqs, Maps, Coded, PtrAt;
    ghost var ll := Seqs(used, LastColumn(b, p));
    ghost var h0 := h[..];
    assert ll[..0] == [];
    wr, zPend := 0, 0;
    var i := 0;
    while i < nblock
      invariant 0 <= i <= nblock
      invariant Passing(h[..], h0, yy[..nInUse], mtfFreq[..], wr, zPend, nInUse, ll[..i])
    {
      PtrUnchanged(h[..], h0, wr, i);
      var x := PositionOf(h, block, nblock, unseqToSeq, i, b, p, used);
      assert ll[..i + 1] == ll[..i] + [ll[i]];
      wr, zPend := TakeOne(h, yy, mtfFreq, wr, zPend, x, nInUse, h0, ll[..i]);
      i := i + 1;
    }
    assert ll[..nblock] == ll;
  }

  lemma ColumnInUse(inUse: seq<bool>, b: seq<Byte>, p: seq<int>)
    requires 0 < |p| == |b| && InRange(p, |b|) && AllUsed(inUse, b)
    ensures AllUsed(inUse, LastColumn(b, p)) && 1 <= Used(inUse, 256)
    ensures Positions(Seqs(inUse, LastColumn(b, p)), Used(inUse, 256))
  {
    SeqsArePositions(inUse, LastColumn(b, p));
    UsedAt(inUse, b[0], 256);
  }

  method StartPass(mtfFreq: array<nat>, yy: array<Byte>, nInUse: nat)
    requires 1 <= nInUse <= 256 == yy.Length && mtfFreq.Length == 258 && yy as object != mtfFreq
    modifies mtfFreq, yy
    ensures Counted(mtfFreq[..], [], nInUse + 1) && yy[..nInUse] == Coded(nInUse, []).yy
  {
    var i := 0;
    while i <= nInUse + 1
      invariant 0 <= i <= nInUse + 2 && forall k :: 0 <= k < i ==> mtfFreq[k] == 0
    {
      mtfFreq[i] := 0;
      i := i + 1;
    }
    i := 0;
    while i < nInUse
      invariant 0 <= i <= nInUse && forall k :: 0 <= k < i ==> yy[k] == k
      invariant forall k :: 0 <= k <= nInUse + 1 ==> mtfFreq[k] == 0
    {
      yy[i] := i;
      i := i + 1;
    }
    assert yy[..nInUse] == Identity(nInUse);
  }
}
