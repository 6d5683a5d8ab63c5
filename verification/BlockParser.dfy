/** The decoder's parser as a machine that asks for a few bits at a time.

    A value of `Ctl` is a place where the decoder may be suspended, with the locals that are live there; `Handle` is
    what happens between one request for bits and the next.  `Parse` feeds it bits until it stops or they run out.
 */
module BlockParser {
  import opened Bits
  import opened Crc
  import opened HuffmanCodes
  import opened MoveToFront
  import opened MtfEncoder
  import opened Rotations

  const N_GROUPS := 6
  const G_SIZE := 50
  const MAX_SELECTORS := 2 + 900_000 / G_SIZE
  const LONGEST_CODE := 20

  datatype Error = BadMagic | BadData

  /** What precedes the tables of a block. */
  datatype Head = Head(level: nat, crc: Word, orig: nat)

  /** The bytes in use, the table used by each group of symbols, and the code lengths of each table. */
  datatype Tables = Tables(used: seq<bool>, sel: seq<nat>, lens: seq<seq<nat>>)

  datatype Ctl =
    | Magic(k: nat)
    | BlkHdr(level: nat, k: nat)
    | BCrc(level: nat, acc: Bits)
    | RandBit(level: nat, crc: Word)
    | OrigPtr(level: nat, crc: Word, acc: Bits)
    | Mapping1(h: Head, used16: seq<bool>)
    | Mapping2(h: Head, used16: seq<bool>, used: seq<bool>)
    | Selector1(h: Head, used: seq<bool>)
    | Selector2(h: Head, used: seq<bool>, nGroups: nat)
    | Selector3(h: Head, used: seq<bool>, nGroups: nat, nSel: nat, mtf: seq<nat>, j: nat)
    | Coding1(h: Head, used: seq<bool>, nGroups: nat, sel: seq<nat>, lens: seq<seq<nat>>)
    | Coding2(h: Head, used: seq<bool>, nGroups: nat, sel: seq<nat>, lens: seq<seq<nat>>, len: seq<nat>, curr: nat)
    | Coding3(h: Head, used: seq<bool>, nGroups: nat, sel: seq<nat>, lens: seq<seq<nat>>, len: seq<nat>, curr: nat)
    | Mtf1(h: Head, tb: Tables, groupNo: nat, groupPos: nat)
    | Mtf2(h: Head, tb: Tables, groupNo: nat, groupPos: nat, zvec: Bits)
    | EndHdr(level: nat, k: nat)
    | CCrc(level: nat, acc: Bits)
    // Places where the parser stops.
    | Output(h: Head, column: seq<Byte>)
    | End(stored: Word)
    | Randomised
    | Failed(error: Error)

  datatype Conf = Conf(ctl: Ctl, dec: Decoder)

  // ----- Well-formed states.

  ghost predicate HeadOk(h: Head) {
    1 <= h.level <= 9
  }

  ghost predicate UsedOk(used: seq<bool>) {
    |used| == 256 && 0 < Used(used, 256)
  }

  function Alpha(used: seq<bool>): nat
    requires |used| == 256
  {
    Used(used, 256) + 2
  }

  ghost predicate LenOk(len: seq<nat>, n: nat) {
    |len| == n && forall i :: 0 <= i < n ==> 1 <= len[i] <= LONGEST_CODE
  }

  ghost predicate LensOk(lens: seq<seq<nat>>, n: nat) {
    forall t :: 0 <= t < |lens| ==> LenOk(lens[t], n)
  }

  ghost predicate SelOk(sel: seq<nat>, nGroups: nat) {
    1 <= |sel| <= MAX_SELECTORS && forall i :: 0 <= i < |sel| ==> sel[i] < nGroups
  }

  ghost predicate TablesOk(tb: Tables) {
    UsedOk(tb.used) && 2 <= |tb.lens| <= N_GROUPS && SelOk(tb.sel, |tb.lens|) && LensOk(tb.lens, Alpha(tb.used))
  }

  /** Some whole bytes of a 32-bit word, but not all. */
  ghost predicate PartOfWord(acc: Bits) {
    |acc| == 0 || |acc| == 8 || |acc| == 16 || |acc| == 24
  }

  ghost predicate CtlOk(c: Ctl) {
    match c
    case Magic(k) => k < 4
    case BlkHdr(level, k) => 1 <= level <= 9 && k < 6
    case BCrc(level, acc) => 1 <= level <= 9 && PartOfWord(acc)
    case RandBit(level, crc) => 1 <= level <= 9
    case OrigPtr(level, crc, acc) => 1 <= level <= 9 && PartOfWord(acc) && |acc| < 24
    case Mapping1(h, used16) => HeadOk(h) && |used16| < 16
    case Mapping2(h, used16, used) => HeadOk(h) && |used16| == 16 && |used| < 256
    case Selector1(h, used) => HeadOk(h) && UsedOk(used)
    case Selector2(h, used, nGroups) => HeadOk(h) && UsedOk(used) && 2 <= nGroups <= N_GROUPS
    case Selector3(h, used, nGroups, nSel, mtf, j) =>
      HeadOk(h) && UsedOk(used) && 2 <= nGroups <= N_GROUPS && |mtf| < nSel && j < nGroups && MtfOk(mtf, nGroups)
    case Coding1(h, used, nGroups, sel, lens) => CodingOk(h, used, nGroups, sel, lens)
    case Coding2(h, used, nGroups, sel, lens, len, curr) =>
      CodingOk(h, used, nGroups, sel, lens) && |len| < Alpha(used) && LenOk(len, |len|) && 1 <= curr <= LONGEST_CODE
    case Coding3(h, used, nGroups, sel, lens, len, curr) =>
      CodingOk(h, used, nGroups, sel, lens) && |len| < Alpha(used) && LenOk(len, |len|) && 1 <= curr <= LONGEST_CODE
    case Mtf1(h, tb, groupNo, groupPos) => HeadOk(h) && TablesOk(tb) && groupNo < |tb.sel|
    case Mtf2(h, tb, groupNo, groupPos, zvec) => HeadOk(h) && TablesOk(tb) && groupNo < |tb.sel|
    case EndHdr(level, k) => 1 <= k < 6
    case CCrc(level, acc) => PartOfWord(acc)
    case _ => true
  }

  ghost predicate MtfOk(mtf: seq<nat>, nGroups: nat) {
    forall i :: 0 <= i < |mtf| ==> mtf[i] < nGroups
  }

  ghost predicate CodingOk(h: Head, used: seq<bool>, nGroups: nat, sel: seq<nat>, lens: seq<seq<nat>>) {
    HeadOk(h) && UsedOk(used) && 2 <= nGroups <= N_GROUPS && SelOk(sel, nGroups) && |lens| < nGroups && LensOk(lens, Alpha(used))
  }

  ghost predicate Ok(x: Conf) {
    CtlOk(x.ctl) && |x.dec.yy| == 256
  }

  predicate Stopped(c: Ctl) {
    c.Output? || c.End? || c.Randomised? || c.Failed?
  }

  // ----- Tables.

  /** The shortest code length; at most 32. */
  function MinLen(len: seq<nat>): (r: nat)
    ensures r <= 32 && forall i :: 0 <= i < |len| ==> r <= len[i]
    ensures r < 32 ==> r in len
  {
    if len == [] then 32
    else
      var r, x := MinLen(len[..|len| - 1]), len[|len| - 1];
      assert len == len[..|len| - 1] + [x];
      if x < r then x else r
  }

  function MaxLen(len: seq<nat>): (r: nat)
    ensures forall i :: 0 <= i < |len| ==> len[i] <= r
    ensures r > 0 ==> r in len
  {
    if len == [] then 0
    else
      var r, x := MaxLen(len[..|len| - 1]), len[|len| - 1];
      assert len == len[..|len| - 1] + [x];
      if x > r then x else r
  }

  /** seqToUnseq; the entries beyond the bytes in use are never looked at. */
  function SeqToUnseq(used: seq<bool>): (m: seq<Byte>)
    requires |used| == 256
    ensures |m| == 256 && m[..Used(used, 256)] == UsedList(used, 256)
  {
    UsedList(used, 256) + seq(256 - Used(used, 256), _ => 0)
  }

  function SelDecode(order: seq<nat>, vals: seq<nat>): (r: seq<nat>)
    requires forall i :: 0 <= i < |vals| ==> vals[i] < |order|
    ensures |r| == |vals|
    decreases |vals|
  {
    if vals == [] then [] else [order[vals[0]]] + SelDecode(MoveFront(order, vals[0]), vals[1..])
  }

  function Groups(n: nat): (r: seq<nat>)
    ensures |r| == n && forall i :: 0 <= i < n ==> r[i] == i
  {
    seq(n, i => i)
  }

  lemma {:induction false} SelDecodeRange(order: seq<nat>, vals: seq<nat>, n: nat)
    requires forall i :: 0 <= i < |vals| ==> vals[i] < |order|
    requires forall i :: 0 <= i < |order| ==> order[i] < n
    ensures forall i :: 0 <= i < |vals| ==> SelDecode(order, vals)[i] < n
    decreases |vals|
  {
    if vals != [] {
      SelDecodeRange(MoveFront(order, vals[0]), vals[1..], n);
    }
  }

  // ----- One request.

  /** How many bits are asked for. */
  function Need(c: Ctl): (n: nat)
    requires CtlOk(c) && !Stopped(c)
    ensures 1 <= n <= LONGEST_CODE
  {
    match c
    case RandBit(_, _) => 1
    case Mapping1(_, _) => 1
    case Mapping2(_, _, _) => 1
    case Selector1(_, _) => 3
    case Selector2(_, _, _) => 15
    case Selector3(_, _, _, _, _, _) => 1
    case Coding1(_, _, _, _, _) => 5
    case Coding2(_, _, _, _, _, _, _) => 1
    case Coding3(_, _, _, _, _, _, _) => 1
    case Mtf1(h, tb, groupNo, _) => MinLenInRange(tb, groupNo); MinLen(tb.lens[tb.sel[groupNo]])
    case Mtf2(_, _, _, _, _) => 1
    case _ => 8
  }

  lemma MinLenInRange(tb: Tables, groupNo: nat)
    requires TablesOk(tb) && groupNo < |tb.sel|
    ensures 1 <= MinLen(tb.lens[tb.sel[groupNo]]) <= MaxLen(tb.lens[tb.sel[groupNo]]) <= LONGEST_CODE
  {
    var len := tb.lens[tb.sel[groupNo]];
    assert LenOk(len, Alpha(tb.used));
    assert MinLen(len) <= len[0] <= MaxLen(len);
    assert MinLen(len) in len && MaxLen(len) in len;
  }

  function MagicByte(k: nat): nat {
    if k == 0 then 0x42 else if k == 1 then 0x5a else 0x68
  }

  function BlockByte(k: nat): nat {
    if k == 0 then 0x31 else if k == 1 then 0x41 else if k == 2 then 0x59 else if k == 3 then 0x26 else if k == 4 then 0x53 else 0x59
  }

  function EndByte(k: nat): nat {
    if k == 0 then 0x17 else if k == 1 then 0x72 else if k == 2 then 0x45 else if k == 3 then 0x38 else if k == 4 then 0x50 else 0x90
  }

  function HandleMagic(k: nat, v: nat): Ctl {
    if k < 3 then (if v == MagicByte(k) then Magic(k + 1) else Failed(BadMagic))
    else if v < 0x31 || v > 0x39 then Failed(BadMagic) else BlkHdr(v - 0x30, 0)
  }

  function HandleBlkHdr(level: nat, k: nat, v: nat): Ctl {
    if k == 0 && v == EndByte(0) then EndHdr(level, 1)
    else if v != BlockByte(k) then Failed(BadData)
    else if k == 5 then BCrc(level, []) else BlkHdr(level, k + 1)
  }

  function HandleOrigPtr(level: nat, crc: Word, acc: Bits): Ctl {
    if |acc| < 24 then OrigPtr(level, crc, acc)
    else if Val(acc) > 10 + 100_000 * level then Failed(BadData)
    else Mapping1(Head(level, crc, Val(acc)), [])
  }

  /** Leaves out groups of sixteen bytes that are marked as not in use. */
  function MappingNext(h: Head, used16: seq<bool>, used: seq<bool>): Ctl
    requires |used16| == 16 && |used| <= 256
    decreases 256 - |used|
  {
    if |used| == 256 then (if Used(used, 256) == 0 then Failed(BadData) else Selector1(h, used))
    else if |used| % 16 == 0 && !used16[|used| / 16] then MappingNext(h, used16, used + Zeros(16))
    else Mapping2(h, used16, used)
  }

  function HandleSelector3(h: Head, used: seq<bool>, nGroups: nat, nSel: nat, mtf: seq<nat>, j: nat, b: bool): Ctl
    requires MtfOk(mtf, nGroups) && j < nGroups
  {
    if b then (if j + 1 >= nGroups then Failed(BadData) else Selector3(h, used, nGroups, nSel, mtf, j + 1))
    else if |mtf| + 1 < nSel then Selector3(h, used, nGroups, nSel, mtf + [j], 0)
    else
      var all := mtf + [j];
      // Selectors beyond the most that can be used are dropped.
      var kept := if |all| > MAX_SELECTORS then all[..MAX_SELECTORS] else all;
      Coding1(h, used, nGroups, SelDecode(Groups(nGroups), kept), [])
  }

  function CodingNext(h: Head, used: seq<bool>, nGroups: nat, sel: seq<nat>, lens: seq<seq<nat>>, len: seq<nat>, curr: nat): Ctl
    requires |used| == 256 && |len| <= Alpha(used)
  {
    if |len| < Alpha(used) then
      (if curr < 1 || curr > LONGEST_CODE then Failed(BadData) else Coding2(h, used, nGroups, sel, lens, len, curr))
    else if |lens| + 1 < nGroups then Coding1(h, used, nGroups, sel, lens + [len])
    else GetMtf(h, Tables(used, sel, lens + [len]), -1, 0)
  }

  /** The start of reading a symbol: every fifty symbols the next selector is taken. */
  function GetMtf(h: Head, tb: Tables, groupNo: int, groupPos: nat): Ctl
    requires groupNo >= -1 && (groupPos > 0 ==> groupNo >= 0)
  {
    if groupPos > 0 then Mtf1(h, tb, groupNo, groupPos - 1)
    else if groupNo + 1 >= |tb.sel| then Failed(BadData)
    else Mtf1(h, tb, groupNo + 1, G_SIZE - 1)
  }

  /** What the bits read so far mean. */
  datatype Lookup = Found(sym: nat) | More | Bad

  /** Compares the bits read so far with the limit of their length. */
  function LookUp(len: seq<nat>, zvec: Bits): Lookup
    requires LenOk(len, |len|) && 0 < |len| <= MAX_ALPHA_SIZE
  {
    var lo, hi := MinLen(len), MaxLen(len);
    if |zvec| > LONGEST_CODE then Bad
    else if Val(zvec) <= Limit(len, lo, hi, |zvec|) then
      var index := Val(zvec) - Base(len, lo, hi, |zvec|);
      WithinAlphabet(len, lo, hi, |zvec|, Val(zvec));
      if index < 0 || index >= MAX_ALPHA_SIZE then Bad else Found(HuffmanCodes.SymbolsBelow(len, hi + 1)[index])
    else More
  }

  lemma TableInRange(tb: Tables, groupNo: nat)
    requires TablesOk(tb) && groupNo < |tb.sel|
    ensures LenOk(tb.lens[tb.sel[groupNo]], Alpha(tb.used)) && 2 < Alpha(tb.used) <= MAX_ALPHA_SIZE
  {
  }

  ghost function CheckCode(h: Head, tb: Tables, groupNo: nat, groupPos: nat, zvec: Bits, dec: Decoder): Conf
    requires TablesOk(tb) && groupNo < |tb.sel| && |dec.yy| == 256
  {
    TableInRange(tb, groupNo);
    match LookUp(tb.lens[tb.sel[groupNo]], zvec)
    case Found(sym) => OnSymbol(h, tb, groupNo, groupPos, sym, dec)
    case More => Conf(Mtf2(h, tb, groupNo, groupPos, zvec), dec)
    case Bad => Conf(Failed(BadData), dec)
  }

  /** A whole symbol. */
  ghost function OnSymbol(h: Head, tb: Tables, groupNo: nat, groupPos: nat, sym: nat, dec: Decoder): Conf
    requires TablesOk(tb) && |dec.yy| == 256
  {
    var m, max := SeqToUnseq(tb.used), 100_000 * h.level;
    if sym == Alpha(tb.used) - 1 then
      var f := Flushed(m, dec);
      if |f.out| > max || h.orig >= |f.out| then Conf(Failed(BadData), dec) else Conf(Output(h, f.out), f)
    else if sym > 256 || !StepOk(dec, sym, max) then Conf(Failed(BadData), dec)
    else Conf(GetMtf(h, tb, groupNo, groupPos), DecoderStep(m, dec, sym))
  }

  /** What the bits asked for lead to, outside the symbols. */
  function HandleCtl(c: Ctl, bs: Bits): Ctl
    requires CtlOk(c) && !Stopped(c) && !c.Mtf1? && !c.Mtf2? && |bs| == Need(c)
  {
    match c
    case Coding3(h, used, nGroups, sel, lens, len, curr) =>
      CodingNext(h, used, nGroups, sel, lens, len, if bs[0] then curr - 1 else curr + 1)
    case Coding2(h, used, nGroups, sel, lens, len, curr) =>
      if bs[0] then Coding3(h, used, nGroups, sel, lens, len, curr)
      else CodingNext(h, used, nGroups, sel, lens, len + [curr], curr)
    case Coding1(h, used, nGroups, sel, lens) => CodingNext(h, used, nGroups, sel, lens, [], Val(bs))
    case Selector3(h, used, nGroups, nSel, mtf, j) => HandleSelector3(h, used, nGroups, nSel, mtf, j, bs[0])
    case Selector2(h, used, nGroups) => if Val(bs) < 1 then Failed(BadData) else Selector3(h, used, nGroups, Val(bs), [], 0)
    case Selector1(h, used) => if Val(bs) < 2 || Val(bs) > N_GROUPS then Failed(BadData) else Selector2(h, used, Val(bs))
    case Mapping2(h, used16, used) => MappingNext(h, used16, used + bs)
    case Mapping1(h, used16) => if |used16| < 15 then Mapping1(h, used16 + bs) else MappingNext(h, used16 + bs, [])
    case OrigPtr(level, crc, acc) => HandleOrigPtr(level, crc, acc + bs)
    case RandBit(level, crc) => if bs[0] then Randomised else OrigPtr(level, crc, [])
    case BCrc(level, acc) => if |acc| < 24 then BCrc(level, acc + bs) else RandBit(level, acc + bs)
    case BlkHdr(level, k) => HandleBlkHdr(level, k, Val(bs))
    case Magic(k) => HandleMagic(k, Val(bs))
    case EndHdr(level, k) => if Val(bs) != EndByte(k) then Failed(BadData) else if k == 5 then CCrc(level, []) else EndHdr(level, k + 1)
    case CCrc(level, acc) => if |acc| < 24 then CCrc(level, acc + bs) else End(acc + bs)
  }

  /** Whether a coding table is being read: whatever comes next starts with a fresh list. */
  predicate InTables(c: Ctl) {
    c.Coding1? || c.Coding2? || c.Coding3?
  }

  /** What the bits asked for lead to. */
  ghost function Handle(x: Conf, bs: Bits): (y: Conf)
    requires Ok(x) && !Stopped(x.ctl) && |bs| == Need(x.ctl)
  {
    var c := x.ctl;
    if c.Mtf1? then CheckCode(c.h, c.tb, c.groupNo, c.groupPos, bs, x.dec)
    else if c.Mtf2? then CheckCode(c.h, c.tb, c.groupNo, c.groupPos, c.zvec + bs, x.dec)
    else Conf(HandleCtl(c, bs), if InTables(c) then StartDecoder() else x.dec)
  }

  /** Where a coding table is being read, or the first symbol is about to be. */
  function Started(c: Ctl): Conf {
    Conf(c, StartDecoder())
  }

  // ----- Well-formed states lead to well-formed states.

  lemma {:induction false} MappingNextOk(h: Head, used16: seq<bool>, used: seq<bool>)
    requires HeadOk(h) && |used16| == 16 && |used| <= 256
    ensures CtlOk(MappingNext(h, used16, used))
    decreases 256 - |used|
  {
    if |used| < 256 && |used| % 16 == 0 && !used16[|used| / 16] {
      MappingNextOk(h, used16, used + Zeros(16));
    }
  }

  lemma Selector3Ok(h: Head, used: seq<bool>, nGroups: nat, nSel: nat, mtf: seq<nat>, j: nat, b: bool)
    requires CtlOk(Selector3(h, used, nGroups, nSel, mtf, j))
    ensures CtlOk(HandleSelector3(h, used, nGroups, nSel, mtf, j, b))
  {
    if !b && |mtf| + 1 == nSel {
      var all := mtf + [j];
      var kept := if |all| > MAX_SELECTORS then all[..MAX_SELECTORS] else all;
      SelDecodeRange(Groups(nGroups), kept, nGroups);
    }
  }

  lemma GetMtfOk(h: Head, tb: Tables, groupNo: int, groupPos: nat)
    requires HeadOk(h) && TablesOk(tb) && -1 <= groupNo < |tb.sel| && (groupPos > 0 ==> groupNo >= 0)
    ensures CtlOk(GetMtf(h, tb, groupNo, groupPos))
  {
  }

  lemma CodingNextOk(h: Head, used: seq<bool>, nGroups: nat, sel: seq<nat>, lens: seq<seq<nat>>, len: seq<nat>, curr: nat)
    requires CodingOk(h, used, nGroups, sel, lens) && |len| <= Alpha(used) && LenOk(len, |len|)
    ensures CtlOk(CodingNext(h, used, nGroups, sel, lens, len, curr))
  {
    if |len| == Alpha(used) {
      assert LensOk(lens + [len], Alpha(used));
      if |lens| + 1 == nGroups {
        GetMtfOk(h, Tables(used, sel, lens + [len]), -1, 0);
      }
    }
  }

  lemma OnSymbolOk(h: Head, tb: Tables, groupNo: nat, groupPos: nat, sym: nat, dec: Decoder)
    requires HeadOk(h) && TablesOk(tb) && groupNo < |tb.sel| && |dec.yy| == 256
    ensures Ok(OnSymbol(h, tb, groupNo, groupPos, sym, dec))
  {
    GetMtfOk(h, tb, groupNo, groupPos);
  }

  lemma CheckCodeOk(h: Head, tb: Tables, groupNo: nat, groupPos: nat, zvec: Bits, dec: Decoder)
    requires HeadOk(h) && TablesOk(tb) && groupNo < |tb.sel| && |dec.yy| == 256
    ensures Ok(CheckCode(h, tb, groupNo, groupPos, zvec, dec))
  {
    TableInRange(tb, groupNo);
    match LookUp(tb.lens[tb.sel[groupNo]], zvec)
    case Found(sym) => OnSymbolOk(h, tb, groupNo, groupPos, sym, dec);
    case More =>
    case Bad =>
  }

  lemma HandleByteOk(x: Conf, bs: Bits)
    requires Ok(x) && !Stopped(x.ctl) && |bs| == 8 == Need(x.ctl)
    requires x.ctl.Magic? || x.ctl.BlkHdr? || x.ctl.BCrc? || x.ctl.OrigPtr? || x.ctl.EndHdr? || x.ctl.CCrc?
    ensures Ok(Handle(x, bs))
  {
  }

  lemma HandleSmallOk(x: Conf, bs: Bits)
    requires Ok(x) && !Stopped(x.ctl) && |bs| == Need(x.ctl)
    requires x.ctl.RandBit? || x.ctl.Mapping1? || x.ctl.Mapping2? || x.ctl.Selector1? || x.ctl.Selector2?
    ensures Ok(Handle(x, bs))
  {
    match x.ctl
    case Mapping2(h, used16, used) =>
      MappingNextOk(h, used16, used + bs);
    case Mapping1(h, used16) =>
      if |used16| == 15 {
        MappingNextOk(h, used16 + bs, []);
      }
    case _ =>
  }

  lemma HandleCodingOk(x: Conf, bs: Bits)
    requires Ok(x) && !Stopped(x.ctl) && |bs| == Need(x.ctl)
    requires x.ctl.Coding1? || x.ctl.Coding2? || x.ctl.Coding3?
    ensures Ok(Handle(x, bs))
  {
    match x.ctl
    case Coding3(h, used, nGroups, sel, lens, len, curr) =>
      CodingNextOk(h, used, nGroups, sel, lens, len, if bs[0] then curr - 1 else curr + 1);
    case Coding2(h, used, nGroups, sel, lens, len, curr) =>
      CodingNextOk(h, used, nGroups, sel, lens, len + [curr], curr);
    case Coding1(h, used, nGroups, sel, lens) =>
      CodingNextOk(h, used, nGroups, sel, lens, [], Val(bs));
  }

  lemma HandleMtfOk(x: Conf, bs: Bits)
    requires Ok(x) && !Stopped(x.ctl) && |bs| == Need(x.ctl) && (x.ctl.Mtf1? || x.ctl.Mtf2?)
    ensures Ok(Handle(x, bs))
  {
    match x.ctl
    case Mtf1(h, tb, groupNo, groupPos) =>
      CheckCodeOk(h, tb, groupNo, groupPos, bs, x.dec);
    case Mtf2(h, tb, groupNo, groupPos, zvec) =>
      CheckCodeOk(h, tb, groupNo, groupPos, zvec + bs, x.dec);
  }

  lemma HandleSelectorOk(x: Conf, bs: Bits)
    requires Ok(x) && |bs| == 1 && x.ctl.Selector3?
    ensures Ok(Handle(x, bs))
  {
    var Selector3(h, used, nGroups, nSel, mtf, j) := x.ctl;
    Selector3Ok(h, used, nGroups, nSel, mtf, j, bs[0]);
  }

  lemma HandleOk(x: Conf, bs: Bits)
    requires Ok(x) && !Stopped(x.ctl) && |bs| == Need(x.ctl)
    ensures Ok(Handle(x, bs))
  {
    if x.ctl.Mtf1? || x.ctl.Mtf2? {
      HandleMtfOk(x, bs);
    } else if x.ctl.Selector3? {
      HandleSelectorOk(x, bs);
    } else if x.ctl.Coding1? || x.ctl.Coding2? || x.ctl.Coding3? {
      HandleCodingOk(x, bs);
    } else if x.ctl.RandBit? || x.ctl.Mapping1? || x.ctl.Mapping2? || x.ctl.Selector1? || x.ctl.Selector2? {
      HandleSmallOk(x, bs);
    } else {
      HandleByteOk(x, bs);
    }
  }

  // ----- Running.

  /** Feeds bits until the parser stops or there are too few of them; also returns the bits left. */
  ghost function Parse(x: Conf, bs: Bits): (r: (Conf, Bits))
    requires Ok(x)
    ensures Ok(r.0) && (Stopped(r.0.ctl) || |r.1| < Need(r.0.ctl))
    decreases |bs|
  {
    if Stopped(x.ctl) || |bs| < Need(x.ctl) then (x, bs)
    else
      var n := Need(x.ctl);
      HandleOk(x, bs[..n]);
      Parse(Handle(x, bs[..n]), bs[n..])
  }

  /** Feeding two pieces one after the other is feeding them at once: the parser may be suspended anywhere. */
  lemma {:induction false} ParseSplit(x: Conf, a: Bits, b: Bits)
    requires Ok(x)
    ensures Parse(x, a + b) == Parse(Parse(x, a).0, Parse(x, a).1 + b)
    decreases |a|
  {
    if !Stopped(x.ctl) && |a| >= Need(x.ctl) {
      var n := Need(x.ctl);
      assert (a + b)[..n] == a[..n] && (a + b)[n..] == a[n..] + b;
      HandleOk(x, a[..n]);
      ParseSplit(Handle(x, a[..n]), a[n..], b);
    }
  }

  /** `bs` takes the parser from `x` to `y`. */
  ghost predicate Leads(x: Conf, bs: Bits, y: Conf) {
    Ok(x) == true && Parse(x, bs) == (y, [])
  }

  lemma LeadsOne(x: Conf, bs: Bits)
    requires Ok(x) && !Stopped(x.ctl) && |bs| == Need(x.ctl)
    ensures Leads(x, bs, Handle(x, bs)) && Ok(Handle(x, bs))
  {
    HandleOk(x, bs);
    assert bs[..|bs|] == bs && bs[|bs|..] == [];
  }

  lemma LeadsThen(x: Conf, a: Bits, y: Conf, b: Bits, z: Conf)
    requires Leads(x, a, y) && Leads(y, b, z)
    ensures Leads(x, a + b, z)
  {
    ParseSplit(x, a, b);
    assert [] + b == b;
  }
}
