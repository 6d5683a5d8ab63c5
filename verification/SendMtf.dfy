/** Writing a block's tables and symbols through the bit buffer. */
module SendMtf {
  import opened Arrays
  import opened BitIO
  import opened Bits
  import opened BlockParser
  import opened BlockPrinter
  import opened Crc
  import opened HuffmanCodes
  import opened HuffmanLengths
  import opened MoveToFront
  import opened MtfEncoder
  import opened Permutations
  import opened Rotations
  import opened SmallDecoder
  import opened TableChoice

  method PutBit(bw: BitWriter, b: bool)
    requires bw.Valid() && |bw.Emitted()| <= 8 * bw.room
    modifies bw`bsBuff, bw`bsLive, bw`numZ, bw`live, bw.zbits
    ensures bw.Valid() && bw.Emitted() == old(bw.Emitted()) + [b]
  {
    OneBit(b);
    bw.BsW(1, if b then 1 else 0);
  }

  lemma OneBit(b: bool)
    ensures ToBits(1, if b then 1 else 0) == [b] && Pow2(1) == 2
  {
    assert ToBits(0, 0) == [];
  }

  // ----- The mapping table.

  method GroupInUse(inUse: array<bool>, i: nat) returns (r: bool)
    requires inUse.Length == 256 && i < 16
    ensures r == GroupUsed(inUse[..], i)
  {
    r := false;
    var j := 0;
    while j < 16
      invariant 0 <= j <= 16 && (r <==> exists k :: 16 * i <= k < 16 * i + j && inUse[k])
    {
      if inUse[i * 16 + j] {
        r := true;
      }
      j := j + 1;
    }
    ghost var row := inUse[16 * i..16 * i + 16];
    if r {
      ghost var k :| 16 * i <= k < 16 * i + 16 && inUse[k];
      assert row[k - 16 * i];
    }
  }

  /** Which groups of sixteen are in use at all. */
  method PutGroups(bw: BitWriter, inUse: array<bool>)
    requires bw.Valid() && inUse.Length == 256 && inUse as object != bw.zbits && |bw.Emitted()| + 16 <= 8 * bw.room
    modifies bw`bsBuff, bw`bsLive, bw`numZ, bw`live, bw.zbits
    ensures bw.Valid() && bw.Emitted() == old(bw.Emitted()) + Map16(inUse[..])
  {
    hide GroupUsed;
    ghost var e, u := bw.Emitted(), inUse[..];
    ghost var g := Map16(u);
    var i := 0;
    assert e + g[..0] == e;
    while i < 16
      invariant 0 <= i <= 16 && bw.Valid() && bw.Emitted() == e + g[..i] && inUse[..] == u
    {
      var b := GroupInUse(inUse, i);
      PutBit(bw, b);
      assert g[..i] + [b] == g[..i + 1];
      i := i + 1;
    }
    assert g[..16] == g;
  }

  /** The groups in use, bit by bit. */
  method PutRows(bw: BitWriter, inUse: array<bool>)
    requires bw.Valid() && inUse.Length == 256 && inUse as object != bw.zbits && |bw.Emitted()| + 256 <= 8 * bw.room
    modifies bw`bsBuff, bw`bsLive, bw`numZ, bw`live, bw.zbits
    ensures bw.Valid() && bw.Emitted() == old(bw.Emitted()) + MapRows(inUse[..], 16)
    ensures |bw.Emitted()| <= |old(bw.Emitted())| + 256
  {
    hide GroupUsed;
    ghost var e, u := bw.Emitted(), inUse[..];
    var i := 0;
    assert e + MapRows(u, 0) == e;
    while i < 16
      invariant 0 <= i <= 16 && bw.Valid() && bw.Emitted() == e + MapRows(u, i) && inUse[..] == u
      invariant |bw.Emitted()| <= |e| + 16 * i
    {
      var b := GroupInUse(inUse, i);
      if b {
        Assoc(e, MapRows(u, i), u[16 * i..16 * i + 16]);
        PutRow(bw, inUse, i);
      } else {
        assert MapRows(u, i) + [] == MapRows(u, i);
      }
      i := i + 1;
    }
  }

  method PutMap(bw: BitWriter, inUse: array<bool>)
    requires bw.Valid() && inUse.Length == 256 && inUse as object != bw.zbits && |bw.Emitted()| + 272 <= 8 * bw.room
    modifies bw`bsBuff, bw`bsLive, bw`numZ, bw`live, bw.zbits
    ensures bw.Valid() && bw.Emitted() == old(bw.Emitted()) + PrintMap(inUse[..])
    ensures |bw.Emitted()| <= |old(bw.Emitted())| + 272
  {
    hide GroupUsed, MapRows;
    ghost var e, u := bw.Emitted(), inUse[..];
    PutGroups(bw, inUse);
    PutRows(bw, inUse);
    Assoc(e, Map16(u), MapRows(u, 16));
  }

  method PutRow(bw: BitWriter, inUse: array<bool>, i: nat)
    requires bw.Valid() && inUse.Length == 256 && inUse as object != bw.zbits && i < 16 && |bw.Emitted()| + 16 <= 8 * bw.room
    modifies bw`bsBuff, bw`bsLive, bw`numZ, bw`live, bw.zbits
    ensures bw.Valid() && bw.Emitted() == old(bw.Emitted()) + inUse[16 * i..16 * i + 16]
  {
    ghost var e, u := bw.Emitted(), inUse[..];
    var j := 0;
    assert e + u[16 * i..16 * i] == e;
    while j < 16
      invariant 0 <= j <= 16 && bw.Valid() && bw.Emitted() == e + u[16 * i..16 * i + j] && inUse[..] == u
    {
      PutBit(bw, inUse[i * 16 + j]);
      assert u[16 * i..16 * i + j] + [u[16 * i + j]] == u[16 * i..16 * i + (j + 1)];
      j := j + 1;
    }
    assert u[16 * i..16 * i + 16] == inUse[16 * i..16 * i + 16];
  }

  // ----- The selectors.

  method MoveSelUp(pos: array<nat>, n: nat, x: nat, ghost y: seq<nat>) returns (j: nat)
    requires n <= pos.Length && pos[..n] == y && x in y
    modifies pos
    ensures j == Pos(y, x) && pos[..n] == MoveFront(y, j)
  {
    assert forall k :: 0 <= k < n ==> pos[k] == y[k];
    j := 0;
    var tmp := pos[j];
    while x != tmp
      invariant 0 <= j <= Pos(y, x) < n && tmp == y[j]
      invariant pos[0] == y[0] && forall k :: 1 <= k <= j ==> pos[k] == y[k - 1]
      invariant forall k :: j < k < n ==> pos[k] == y[k]
      decreases Pos(y, x) - j
    {
      j := j + 1;
      var tmp2 := tmp;
      tmp := pos[j];
      pos[j] := tmp2;
    }
    pos[0] := tmp;
    assert pos[..n] == MoveFront(y, j);
  }

  lemma SelStep(order: seq<nat>, sel: seq<nat>, vals: seq<nat>)
    requires sel != [] && forall i :: 0 <= i < |sel| ==> sel[i] in order
    ensures var j := Pos(order, sel[0]);
            && (forall i :: 0 <= i < |sel[1..]| ==> sel[1..][i] in MoveFront(order, j))
            && vals + SelEncode(order, sel) == vals + [j] + SelEncode(MoveFront(order, j), sel[1..])
  {
    var j := Pos(order, sel[0]);
    SelStillIn(order, j, sel[1..]);
  }

  /** The selectors as positions in a list of the tables. */
  method EncodeSelectors(sel: seq<nat>, nGroups: nat) returns (vals: seq<nat>)
    requires 2 <= nGroups <= N_GROUPS && forall i :: 0 <= i < |sel| ==> sel[i] < nGroups
    ensures (forall i :: 0 <= i < |sel| ==> sel[i] in Groups(nGroups)) && vals == SelEncode(Groups(nGroups), sel)
  {
    SelInGroups(sel, nGroups);
    var pos := new nat[N_GROUPS](i => i);
    ghost var order := Groups(nGroups);
    assert pos[..nGroups] == order;
    vals := [];
    var i := 0;
    assert sel[0..] == sel;
    while i < |sel|
      invariant 0 <= i <= |sel| && pos[..nGroups] == order
      invariant forall k :: 0 <= k < |sel[i..]| ==> sel[i..][k] in order
      invariant vals + SelEncode(order, sel[i..]) == SelEncode(Groups(nGroups), sel)
    {
      SelStep(order, sel[i..], vals);
      assert sel[i..][0] == sel[i] && sel[i..][1..] == sel[i + 1..];
      var j := MoveSelUp(pos, nGroups, sel[i], order);
      vals := vals + [j];
      order := MoveFront(order, j);
      i := i + 1;
    }
  }

  method PutUnary(bw: BitWriter, v: nat)
    requires bw.Valid() && |bw.Emitted()| + v + 1 <= 8 * bw.room
    modifies bw`bsBuff, bw`bsLive, bw`numZ, bw`live, bw.zbits
    ensures bw.Valid() && bw.Emitted() == old(bw.Emitted()) + Unary(v)
  {
    ghost var e := bw.Emitted();
    var j := 0;
    assert e + Ones(0) == e;
    while j < v
      invariant 0 <= j <= v && bw.Valid() && bw.Emitted() == e + Ones(j)
    {
      PutBit(bw, true);
      assert Ones(j) + [true] == Ones(j + 1);
      j := j + 1;
    }
    PutBit(bw, false);
    assert e + Ones(v) + [false] == e + Unary(v);
  }

  method PutValues(bw: BitWriter, vals: seq<nat>)
    requires bw.Valid() && (forall i :: 0 <= i < |vals| ==> vals[i] < 6) && |bw.Emitted()| + 6 * |vals| <= 8 * bw.room
    modifies bw`bsBuff, bw`bsLive, bw`numZ, bw`live, bw.zbits
    ensures bw.Valid() && bw.Emitted() == old(bw.Emitted()) + UnaryAll(vals, |vals|)
    ensures |bw.Emitted()| <= |old(bw.Emitted())| + 6 * |vals|
  {
    hide Ones, Scale, Val, BytesToBits;
    ghost var e := bw.Emitted();
    assert e + UnaryAll(vals, 0) == e;
    var i := 0;
    while i < |vals|
      invariant 0 <= i <= |vals| && bw.Valid() && bw.Emitted() == e + UnaryAll(vals, i)
      invariant |bw.Emitted()| <= |e| + 6 * i
    {
      PutUnary(bw, vals[i]);
      Assoc(e, UnaryAll(vals, i), Unary(vals[i]));
      i := i + 1;
    }
  }

  method PutSelectors(bw: BitWriter, sel: seq<nat>, nGroups: nat)
    requires bw.Valid() && 2 <= nGroups <= N_GROUPS && SelOk(sel, nGroups) && |bw.Emitted()| + 18 + 6 * |sel| <= 8 * bw.room
    modifies bw`bsBuff, bw`bsLive, bw`numZ, bw`live, bw.zbits
    ensures bw.Valid() && bw.Emitted() == old(bw.Emitted()) + PrintSelectors(nGroups, sel)
    ensures |bw.Emitted()| <= |old(bw.Emitted())| + 18 + 6 * |sel|
  {
    hide ToBits, Pow2, SelEncode, Groups, UnaryAll, Scale, Val, BytesToBits;
    ghost var e := bw.Emitted();
    var vals := EncodeSelectors(sel, nGroups);
    SmallPowers();
    bw.BsW(3, nGroups);
    bw.BsW(15, |sel|);
    ghost var a, b, c := ToBits(3, nGroups), ToBits(15, |sel|), UnaryAll(vals, |sel|);
    PutValues(bw, vals);
    Assoc(e, a, b);
    Assoc(e, a + b, c);
  }

  lemma SmallPowers()
    ensures Pow2(1) == 2 && Pow2(2) == 4 && Pow2(3) == 8 && Pow2(5) == 32 && Pow2(15) == 0x8000
  {
    Powers();
  }

  // ----- The coding tables.

  lemma TwoBits()
    ensures ToBits(2, 2) == [true, false] && ToBits(2, 3) == [true, true]
  {
    assert ToBits(1, 1) == [true];
  }

  lemma {:induction false} DeltaSize(curr: nat, l: nat)
    ensures |Delta(curr, l)| == 1 + 2 * if curr < l then l - curr else curr - l
    decreases if curr < l then l - curr else curr - l
  {
    if curr < l {
      DeltaSize(curr + 1, l);
    } else if curr > l {
      DeltaSize(curr - 1, l);
    }
  }

  /** Steps from one length to the next. */
  lemma DeltaUnfold(curr: nat, l: nat)
    ensures Delta(curr, l) == if curr < l then [true, false] + Delta(curr + 1, l)
                              else if curr > l then [true, true] + Delta(curr - 1, l) else [false]
  {
  }

  method PutDelta(bw: BitWriter, curr0: nat, l: nat)
    requires bw.Valid() && curr0 <= MAX_LEN && l <= MAX_LEN && |bw.Emitted()| + 35 <= 8 * bw.room
    modifies bw`bsBuff, bw`bsLive, bw`numZ, bw`live, bw.zbits
    ensures bw.Valid() && bw.Emitted() == old(bw.Emitted()) + Delta(curr0, l)
    ensures |bw.Emitted()| <= |old(bw.Emitted())| + 35
  {
    hide ToBits, Pow2, Delta, Scale, Val, BytesToBits;
    ghost var e := bw.Emitted();
    var curr: nat := curr0;
    TwoBits();
    SmallPowers();
    DeltaSize(curr0, l);
    while curr < l
      invariant bw.Valid() && bw.Emitted() + Delta(curr, l) == e + Delta(curr0, l) && (curr <= l || curr == curr0)
    {
      DeltaUnfold(curr, l);
      Assoc(bw.Emitted(), [true, false], Delta(curr + 1, l));
      bw.BsW(2, 2);
      curr := curr + 1;
    }
    while curr > l
      invariant bw.Valid() && bw.Emitted() + Delta(curr, l) == e + Delta(curr0, l) && curr >= l
    {
      var next: nat := curr - 1;
      DeltaUnfold(curr, l);
      Assoc(bw.Emitted(), [true, true], Delta(next, l));
      bw.BsW(2, 3);
      curr := next;
    }
    DeltaUnfold(curr, l);
    PutBit(bw, false);
  }

  /** Lengths of at most 17 bits. */
  ghost predicate ShortTable(len: seq<nat>, n: nat) {
    |len| == n && forall i :: 0 <= i < n ==> 1 <= len[i] <= MAX_LEN
  }

  /** One table: its first length, and the steps between lengths. */
  method PutTable(bw: BitWriter, len: seq<nat>, alphaSize: nat)
    requires bw.Valid() && 0 < alphaSize && ShortTable(len, alphaSize) && |bw.Emitted()| + 5 + 35 * alphaSize <= 8 * bw.room
    modifies bw`bsBuff, bw`bsLive, bw`numZ, bw`live, bw.zbits
    ensures bw.Valid() && bw.Emitted() == old(bw.Emitted()) + TablePart(len, alphaSize)
    ensures |bw.Emitted()| <= |old(bw.Emitted())| + 5 + 35 * alphaSize
  {
    hide ToBits, Pow2, Delta, Scale, Val, BytesToBits;
    ghost var e := bw.Emitted();
    SmallPowers();
    var curr := len[0];
    bw.BsW(5, curr);
    var i := 0;
    while i < alphaSize
      invariant 0 <= i <= alphaSize && bw.Valid() && bw.Emitted() == e + TablePart(len, i)
      invariant curr == if i == 0 then len[0] else len[i - 1]
      invariant |bw.Emitted()| <= |e| + 5 + 35 * i
    {
      Assoc(e, TablePart(len, i), Delta(curr, len[i]));
      PutDelta(bw, curr, len[i]);
      curr := len[i];
      i := i + 1;
    }
  }

  method PutTables(bw: BitWriter, lens: seq<seq<nat>>, alphaSize: nat)
    requires bw.Valid() && 0 < alphaSize <= 258 && |lens| <= N_GROUPS && forall t :: 0 <= t < |lens| ==> ShortTable(lens[t], alphaSize)
    requires |bw.Emitted()| + 9035 * |lens| <= 8 * bw.room
    modifies bw`bsBuff, bw`bsLive, bw`numZ, bw`live, bw.zbits
    ensures forall t :: 0 <= t < |lens| ==> 0 < |lens[t]|
    ensures bw.Valid() && bw.Emitted() == old(bw.Emitted()) + PrintTables(lens, |lens|)
    ensures |bw.Emitted()| <= |old(bw.Emitted())| + 9035 * |lens|
  {
    hide TablePart;
    ghost var e := bw.Emitted();
    assert forall t :: 0 <= t < |lens| ==> ShortTable(lens[t], alphaSize) && 0 < |lens[t]|;
    var t := 0;
    assert e + PrintTables(lens, 0) == e;
    while t < |lens|
      invariant 0 <= t <= |lens| && bw.Valid() && bw.Emitted() == e + PrintTables(lens, t)
      invariant |bw.Emitted()| <= |e| + 9035 * t
    {
      Assoc(e, PrintTables(lens, t), TablePart(lens[t], alphaSize));
      PutTable(bw, lens[t], alphaSize);
      t := t + 1;
    }
  }

  // ----- The symbols.

  /** The codes of every table. */
  ghost predicate CodesMade(code: seq<seq<nat>>, lens: seq<seq<nat>>) {
    |code| == |lens| && forall t, i :: 0 <= t < |lens| && 0 <= i < |lens[t]| ==> CodeOk(code, lens, t, i)
  }

  ghost predicate CodeOk(code: seq<seq<nat>>, lens: seq<seq<nat>>, t: nat, i: nat)
    requires |code| == |lens| && t < |lens| && i < |lens[t]|
  {
    |code[t]| == |lens[t]| && code[t][i] == Code(lens[t], i) && code[t][i] < Pow2(lens[t][i])
  }

  lemma CompleteFits(len: seq<nat>, i: nat)
    requires CompleteLengths(len, MAX_LEN) && i < |len|
    ensures Code(len, i) < Pow2(len[i]) && Decodable(len)
  {
    assert KraftHolds(len, MAX_LEN);
    CodeFits(len, MAX_LEN, i);
  }

  /** BZ2_hbAssignCodes for one table. */
  method CodesOf(len: seq<nat>, alphaSize: nat) returns (code: seq<nat>)
    requires |len| == alphaSize && CompleteLengths(len, MAX_LEN)
    ensures |code| == alphaSize && forall i :: 0 <= i < alphaSize ==> code[i] == Code(len, i) && code[i] < Pow2(len[i])
  {
    hide Kraft, Pow2, Code, KraftHolds;
    var minLen, maxLen := 32, 0;
    var i := 0;
    while i < alphaSize
      invariant 0 <= i <= alphaSize && 0 <= minLen && 0 <= maxLen
      invariant forall k :: 0 <= k < i ==> minLen <= len[k] <= maxLen
    {
      if len[i] > maxLen {
        maxLen := len[i];
      }
      if len[i] < minLen {
        minLen := len[i];
      }
      i := i + 1;
    }
    var l, c := new nat[alphaSize](i requires 0 <= i < alphaSize => len[i]), new int[alphaSize];
    assert l[..alphaSize] == len;
    AssignCodes(c, l, minLen, maxLen, alphaSize, len);
    forall k | 0 <= k < alphaSize
      ensures c[k] == Code(len, k) && Code(len, k) < Pow2(len[k])
    {
      CompleteFits(len, k);
    }
    code := seq(alphaSize, k requires 0 <= k < alphaSize reads c => if c[k] >= 0 then c[k] else 0);
  }

  method AllCodes(lens: seq<seq<nat>>, alphaSize: nat) returns (code: seq<seq<nat>>)
    requires forall t :: 0 <= t < |lens| ==> |lens[t]| == alphaSize && CompleteLengths(lens[t], MAX_LEN)
    ensures CodesMade(code, lens)
  {
    hide Code, Pow2, CompleteLengths;
    code := [];
    var t := 0;
    while t < |lens|
      invariant 0 <= t == |code| <= |lens|
      invariant forall u :: 0 <= u < t ==> |code[u]| == |lens[u]|
      invariant forall u, i :: 0 <= u < t && 0 <= i < |lens[u]| ==> code[u][i] == Code(lens[u], i) && code[u][i] < Pow2(lens[u][i])
    {
      var c := CodesOf(lens[t], alphaSize);
      code := code + [c];
      t := t + 1;
    }
  }

  ghost predicate Sending(tb: Tables, syms: seq<Symbol>, code: seq<seq<nat>>) {
    && Coverable(tb, syms) && CodesMade(code, tb.lens)
    && forall t :: 0 <= t < |tb.lens| ==> ShortTable(tb.lens[t], Alpha(tb.used))
  }

  /** One symbol with the table of its group. */
  method PutSymbol(bw: BitWriter, sel: nat, sym: nat, lens: seq<seq<nat>>, code: seq<seq<nat>>, ghost tb: Tables,
                   ghost syms: seq<Symbol>, ghost k: nat)
    requires bw.Valid() && |bw.Emitted()| + 17 <= 8 * bw.room && Sending(tb, syms, code) && lens == tb.lens
    requires k < |syms| && sym == syms[k] && k / G_SIZE < |tb.sel| && sel == tb.sel[k / G_SIZE]
    modifies bw`bsBuff, bw`bsLive, bw`numZ, bw`live, bw.zbits
    ensures bw.Valid() && |bw.Emitted()| <= |old(bw.Emitted())| + 17
    ensures LenOk(LensAt(tb, k), Alpha(tb.used)) && bw.Emitted() == old(bw.Emitted()) + CodeBits(LensAt(tb, k), syms[k])
  {
    hide ToBits, Pow2, Code;
    GroupOf(tb, syms, k);
    assert ShortTable(lens[sel], Alpha(tb.used)) && CodeOk(code, lens, sel, sym);
    bw.BsW(lens[sel][sym], code[sel][sym]);
  }

  method PutGroup(bw: BitWriter, mtfv: array<UInt16>, gs: nat, ge: nat, sel: nat, lens: seq<seq<nat>>, code: seq<seq<nat>>,
                  ghost tb: Tables, ghost syms: seq<Symbol>, ghost g: nat, ghost e: Bits)
    requires bw.Valid() && Sending(tb, syms, code) && lens == tb.lens && mtfv as object != bw.zbits
    requires gs == G_SIZE * g && gs <= ge < |syms| <= mtfv.Length && ge < gs + G_SIZE && mtfv[..|syms|] == syms
    requires g < |tb.sel| && sel == tb.sel[g]
    requires bw.Emitted() == e + PrintSymbols(tb, syms, gs) && |bw.Emitted()| <= |e| + 17 * gs && |e| + 17 * |syms| <= 8 * bw.room
    modifies bw`bsBuff, bw`bsLive, bw`numZ, bw`live, bw.zbits
    ensures bw.Valid() && bw.Emitted() == e + PrintSymbols(tb, syms, ge + 1) && |bw.Emitted()| <= |e| + 17 * (ge + 1)
  {
    hide CodeBits;
    var i := gs;
    while i <= ge
      invariant gs <= i <= ge + 1 && bw.Valid() && bw.Emitted() == e + PrintSymbols(tb, syms, i) && |bw.Emitted()| <= |e| + 17 * i
      invariant mtfv[..|syms|] == syms
    {
      assert mtfv[i] == mtfv[..|syms|][i];
      assert i / G_SIZE == g;
      PutSymbol(bw, sel, mtfv[i], lens, code, tb, syms, i);
      Assoc(e, PrintSymbols(tb, syms, i), CodeBits(LensAt(tb, i), syms[i]));
      i := i + 1;
    }
  }

  /** All symbols, group by group; every group has its selector, and none is left over. */
  method PutSymbols(bw: BitWriter, mtfv: array<UInt16>, nMTF: nat, sel: seq<nat>, lens: seq<seq<nat>>, code: seq<seq<nat>>,
                    ghost tb: Tables, ghost syms: seq<Symbol>)
    requires bw.Valid() && Sending(tb, syms, code) && lens == tb.lens && sel == tb.sel && mtfv as object != bw.zbits
    requires nMTF == |syms| <= mtfv.Length && mtfv[..nMTF] == syms && Covers(sel, nMTF, |lens|)
    requires |bw.Emitted()| + 17 * nMTF <= 8 * bw.room
    modifies bw`bsBuff, bw`bsLive, bw`numZ, bw`live, bw.zbits
    ensures bw.Valid() && bw.Emitted() == old(bw.Emitted()) + PrintSymbols(tb, syms, nMTF)
    ensures |bw.Emitted()| <= |old(bw.Emitted())| + 17 * nMTF
  {
    hide PrintSymbols;
    ghost var e := bw.Emitted();
    var selCtr, gs := 0, 0;
    NoSymbols(tb, syms, e);
    while true
      invariant 0 <= gs <= nMTF && 0 <= selCtr <= |sel| && bw.Valid() && mtfv[..nMTF] == syms
      invariant gs < nMTF ==> gs == G_SIZE * selCtr
      invariant gs == nMTF ==> G_SIZE * (selCtr - 1) < nMTF <= G_SIZE * selCtr
      invariant bw.Emitted() == e + PrintSymbols(tb, syms, gs) && |bw.Emitted()| <= |e| + 17 * gs
      decreases nMTF - gs
    {
      if gs >= nMTF {
        break;
      }
      var ge := gs + G_SIZE - 1;
      if ge >= nMTF {
        ge := nMTF - 1;
      }
      assert selCtr < |sel|;
      PutGroup(bw, mtfv, gs, ge, sel[selCtr], lens, code, tb, syms, selCtr, e);
      gs := ge + 1;
      selCtr := selCtr + 1;
    }
    assert selCtr == |sel|;  // assertion 3007
  }

  lemma NoSymbols(tb: Tables, syms: seq<Symbol>, e: Bits)
    requires Coverable(tb, syms)
    ensures e + PrintSymbols(tb, syms, 0) == e
  {
  }

  // ----- All of it.

  /** An upper bound for the bits of a block's tables and symbols. */
  function TablesAndSymbolsBound(nMTF: nat): nat {
    272 + 18 + 6 * (nMTF / G_SIZE + 1) + 9035 * N_GROUPS + 17 * nMTF
  }

  lemma ShortAndLenOk(len: seq<seq<nat>>, used: seq<bool>, nGroups: nat)
    requires |used| == 256 && TablesMade(len, Alpha(used), nGroups)
    ensures LensOk(len[..nGroups], Alpha(used))
    ensures forall t :: 0 <= t < nGroups ==> ShortTable(len[..nGroups][t], Alpha(used)) && Decodable(len[..nGroups][t])
  {
    forall t | 0 <= t < nGroups
      ensures ShortTable(len[..nGroups][t], Alpha(used)) && Decodable(len[..nGroups][t]) && LenOk(len[..nGroups][t], Alpha(used))
    {
      assert CompleteLengths(len[t], MAX_LEN);
      CompleteFits(len[t], 0);
    }
  }

  /** The number of tables goes by the number of symbols, and tables and selectors come out of the four rounds that start
      with the initial partition by how often the symbols occur. */
  ghost predicate WellChosen(tb: Tables, syms: seq<Symbol>)
    requires |tb.used| == 256
  {
    && (|tb.lens| > 2 <==> |syms| >= 200) && (|tb.lens| > 3 <==> |syms| >= 600)
    && (|tb.lens| > 4 <==> |syms| >= 1200) && (|tb.lens| > 5 <==> |syms| >= 2400)
    && exists mtfv: seq<UInt16>, freq, len ::
         && |syms| <= |mtfv| && mtfv[..|syms|] == syms && |freq| == Alpha(tb.used)
         && (forall v :: 0 <= v < |freq| ==> freq[v] == Occ(syms, v))
         && |tb.lens| <= |len| && tb.lens == len[..|tb.lens|] && Chosen(tb.sel, len, mtfv, |syms|, freq, |tb.lens|)
  }

  lemma ChosenWell(tb: Tables, syms: seq<Symbol>, mtfv: seq<UInt16>, f: seq<nat>, len: seq<seq<nat>>)
    requires |tb.used| == 256 && 0 < Used(tb.used, 256)
    requires (|tb.lens| > 2 <==> |syms| >= 200) && (|tb.lens| > 3 <==> |syms| >= 600)
    requires (|tb.lens| > 4 <==> |syms| >= 1200) && (|tb.lens| > 5 <==> |syms| >= 2400)
    requires |syms| <= |mtfv| && mtfv[..|syms|] == syms && Counted(f, syms, Used(tb.used, 256) + 1)
    requires |tb.lens| <= |len| && tb.lens == len[..|tb.lens|]
    requires Chosen(tb.sel, len, mtfv, |syms|, f[..Alpha(tb.used)], |tb.lens|)
    ensures WellChosen(tb, syms)
  {
    hide Chosen, Occ;
    var freq := f[..Alpha(tb.used)];
    assert |freq| == Alpha(tb.used) && forall v :: 0 <= v < |freq| ==> freq[v] == Occ(syms, v);
  }

  /** The tables, the selectors and the codes for a block. */
  method PrepareTables(mtfv: array<UInt16>, nMTF: nat, inUse: array<bool>, nInUse: nat, mtfFreq: array<nat>, ghost syms: seq<Symbol>)
    returns (nGroups: nat, sel: seq<nat>, lens: seq<seq<nat>>, code: seq<seq<nat>>)
    requires inUse.Length == 256 && mtfFreq.Length == 258 && 0 < nInUse == Used(inUse[..], 256)
    requires 0 < nMTF == |syms| <= 900_001 && nMTF <= mtfv.Length && mtfv[..nMTF] == syms && SymbolsUpTo(syms, nInUse + 1)
    ensures 2 <= nGroups == |lens| <= N_GROUPS && Covers(sel, nMTF, nGroups) && SelOk(sel, nGroups)
    ensures Sending(Tables(inUse[..], sel, lens), syms, code) && CodesComplete(Tables(inUse[..], sel, lens))
    ensures Counted(mtfFreq[..], syms, nInUse + 1) ==> WellChosen(Tables(inUse[..], sel, lens), syms)
  {
    hide CompleteLengths, Used, Decodable, Chosen, WellChosen;
    var alphaSize := nInUse + 2;
    assert forall i :: 0 <= i < nMTF ==> mtfv[..nMTF][i] == mtfv[i] == syms[i];
    var len;
    nGroups, sel, len := ChooseTables(mtfv, nMTF, mtfFreq, alphaSize);
    ShortAndLenOk(len, inUse[..], nGroups);
    lens := len[..nGroups];
    forall t | 0 <= t < nGroups
      ensures |lens[t]| == alphaSize && CompleteLengths(lens[t], MAX_LEN)
    {
      assert lens[t] == len[t];
    }
    code := AllCodes(lens, alphaSize);
    if Counted(mtfFreq[..], syms, nInUse + 1) {
      assert mtfFreq[..][..alphaSize] == mtfFreq[..alphaSize];
      ChosenWell(Tables(inUse[..], sel, lens), syms, mtfv[..], mtfFreq[..], len);
    }
  }

  lemma SelectorBound(sel: seq<nat>, nMTF: nat, nGroups: nat)
    requires Covers(sel, nMTF, nGroups)
    ensures |sel| <= nMTF / G_SIZE + 1
  {
  }

  /** sendMTFValues: whatever tables are chosen, the block's sections are written with them. */
  method SendMtfValues(bw: BitWriter, mtfv: array<UInt16>, nMTF: nat, inUse: array<bool>, nInUse: nat,
                       mtfFreq: array<nat>, ghost syms: seq<Symbol>)
    returns (ghost tb: Tables)
    requires bw.Valid() && mtfv as object != bw.zbits && inUse as object != bw.zbits
    requires inUse.Length == 256 && mtfFreq.Length == 258 && 0 < nInUse == Used(inUse[..], 256)
    requires 0 < nMTF == |syms| <= 900_001 && nMTF <= mtfv.Length && mtfv[..nMTF] == syms && SymbolsUpTo(syms, nInUse + 1)
    requires |bw.Emitted()| + TablesAndSymbolsBound(nMTF) <= 8 * bw.room
    modifies bw`bsBuff, bw`bsLive, bw`numZ, bw`live, bw.zbits
    ensures tb.used == inUse[..] && Coverable(tb, syms) && CodesComplete(tb)
    ensures Counted(mtfFreq[..], syms, nInUse + 1) ==> WellChosen(tb, syms)
    ensures forall t :: 0 <= t < |tb.lens| ==> 0 < |tb.lens[t]|
    ensures bw.Valid() && |bw.Emitted()| <= |old(bw.Emitted())| + TablesAndSymbolsBound(nMTF)
    ensures bw.Emitted() == old(bw.Emitted()) + PrintMap(tb.used) + PrintSelectors(|tb.lens|, tb.sel)
                            + PrintTables(tb.lens, |tb.lens|) + PrintSymbols(tb, syms, nMTF)
  {
    hide PrintMap, PrintSelectors, PrintTables, PrintSymbols, CodesComplete, CodesMade, Used, SymbolsUpTo, WellChosen;
    var nGroups, sel, lens, code := PrepareTables(mtfv, nMTF, inUse, nInUse, mtfFreq, syms);
    SelectorBound(sel, nMTF, nGroups);
    tb := Tables(inUse[..], sel, lens);
    PutMap(bw, inUse);
    PutSelectors(bw, sel, nGroups);
    PutTables(bw, lens, nInUse + 2);
    PutSymbols(bw, mtfv, nMTF, sel, lens, code, tb, syms);
  }
}
