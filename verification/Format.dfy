/** The format of compressed data, as texts: which bits stand for which block.

    Nothing here says how the bits are read or written.  What a writer may choose is left open: rows of the map that mark no byte,
    selectors that are never used, detours on the way from one code length to the next, and codes that are not complete.
 */
module Format {
  import opened Bits
  import opened BlockParser
  import opened BlockPrinter
  import opened Crc
  import opened HuffmanCodes
  import opened MoveToFront
  import opened MtfEncoder
  import opened Rotations

  // ----- Codes.

  /** The bits, as a number, are below the end of the codes of their length. */
  ghost predicate WithinCodes(len: seq<nat>, z: Bits) {
    Val(z) < First(len, |z|) + CountLen(len, |z|)
  }

  /** No code ends before the last bit. */
  ghost predicate NoneBefore(len: seq<nat>, z: Bits) {
    forall n :: 0 <= n < |z| ==> !WithinCodes(len, z[..n])
  }

  /** The code of a symbol.  Where the lengths do not meet the Kraft inequality, it must fit into its bits, and must not begin with
      what would be a shorter code. */
  ghost predicate CodeText(z: Bits, len: seq<nat>, sym: nat) {
    sym < |len| && z == CodeBits(len, sym) && Val(z) == Code(len, sym) && NoneBefore(len, z)
  }

  /** Where they do, it is just the canonical code. */
  lemma OwnCode(z: Bits, len: seq<nat>, sym: nat, top: nat)
    requires KraftHolds(len, top)
    ensures CodeText(z, len, sym) <==> sym < |len| && z == CodeBits(len, sym)
  {
    if sym < |len| && z == CodeBits(len, sym) {
      CodeFits(len, top, sym);
      forall n | 0 <= n < |z|
        ensures !WithinCodes(len, z[..n])
      {
        ReadingPartOfCode(len, top, sym, n);
      }
    }
  }

  // ----- The map of bytes in use.

  /** The bits of the bytes of marked rows. */
  function RowsOf(rows: seq<bool>, used: seq<bool>): Bits
    requires |rows| == 16 && |used| <= 256
  {
    if used == [] then []
    else
      var c := |used| - 1;
      RowsOf(rows, used[..c]) + if rows[c / 16] then [used[c]] else []
  }

  /** Sixteen bits mark rows of sixteen bytes; every byte in use is in a marked row. */
  ghost predicate InRows(rows: seq<bool>, used: seq<bool>) {
    |rows| == 16 && |used| <= 256 && forall c :: 0 <= c < |used| && used[c] ==> rows[c / 16]
  }

  ghost predicate MapText(t: Bits, used: seq<bool>) {
    UsedOk(used) && exists rows :: InRows(rows, used) && t == rows + RowsOf(rows, used)
  }

  // ----- The selectors.

  /** What of the selectors is used. */
  function Usable(vals: seq<nat>): seq<nat> {
    if |vals| > 18_002 then vals[..18_002] else vals
  }

  /** From two to six tables, and for groups of fifty symbols the table to use: as a unary position in the list of tables, from which it
      is moved to the front. */
  ghost predicate SelectorsText(t: Bits, n: nat, sel: seq<nat>) {
    2 <= n <= 6 && exists vals :: SelectorValues(vals, n) && sel == SelDecode(Groups(n), Usable(vals)) && t == SelectorBits(vals, n)
  }

  ghost predicate SelectorValues(vals: seq<nat>, n: nat) {
    1 <= |vals| < 32_768 && forall i :: 0 <= i < |vals| ==> vals[i] < n
  }

  function SelectorBits(vals: seq<nat>, n: nat): Bits {
    ToBits(3, n) + ToBits(15, |vals|) + UnaryAll(vals, |vals|)
  }

  // ----- The code lengths.

  /** Steps from one length to another: 10 is one up and 11 is one down, and every length passed is from 1 to 20. */
  ghost predicate Steps(t: Bits, from: nat, to: nat)
    decreases |t|
  {
    if t == [] then from == to
    else |t| >= 2 && t[0] && 1 <= from <= 20 && Steps(t[2..], if t[1] then from - 1 else from + 1, to)
  }

  /** The steps to a length end with 0. */
  ghost predicate LengthText(t: Bits, from: nat, to: nat) {
    1 <= to <= 20 && exists s :: Steps(s, from, to) && t == s + [false]
  }

  /** Lengths one after the other, the steps to the first one starting from `start`. */
  ghost predicate LengthsText(t: Bits, start: nat, len: seq<nat>)
    decreases |len|
  {
    if len == [] then t == []
    else
      var k := |len| - 1;
      exists a, b :: LengthsText(a, start, len[..k]) && LengthText(b, LastOf(start, len[..k]), len[k]) && t == a + b
  }

  function LastOf(start: nat, len: seq<nat>): nat {
    if len == [] then start else len[|len| - 1]
  }

  /** A table: five bits for where the steps start, and the lengths of the codes of all symbols. */
  ghost predicate TableText(t: Bits, len: seq<nat>) {
    exists start, b :: start < 32 && LengthsText(b, start, len) && t == ToBits(5, start) + b
  }

  ghost predicate TablesText(t: Bits, lens: seq<seq<nat>>, alpha: nat)
    decreases |lens|
  {
    if lens == [] then t == []
    else
      var k := |lens| - 1;
      |lens[k]| == alpha && exists a, b :: TablesText(a, lens[..k], alpha) && TableText(b, lens[k]) && t == a + b
  }

  // ----- The symbols.

  /** The codes of symbols, every fifty of them under the next selector's table. */
  ghost predicate SymbolsText(t: Bits, tb: Tables, syms: seq<Symbol>)
    decreases |syms|
  {
    if syms == [] then t == []
    else
      var k := |syms| - 1;
      && k / 50 < |tb.sel| && tb.sel[k / 50] < |tb.lens|
      && exists a, b :: SymbolsText(a, tb, syms[..k]) && CodeText(b, tb.lens[tb.sel[k / 50]], syms[k]) && t == a + b
  }

  // ----- Blocks.

  /** Magic number, checksum, the bit for blocks that are not randomised, and the row of the original block. */
  function HeadText(h: Head): Bits {
    BlockMagic() + h.crc + [false] + ToBits(24, h.orig)
  }

  /** Everything in front of the symbols. */
  ghost predicate FrontText(t: Bits, h: Head, tb: Tables) {
    && UsedOk(tb.used)
    && exists m, s, l :: MapText(m, tb.used) && SelectorsText(s, |tb.lens|, tb.sel) && TablesText(l, tb.lens, Alpha(tb.used))
                         && t == HeadText(h) + m + s + l
  }

  /** The text of a block, with the tables `tb`, whose last column is `column`. */
  ghost predicate BlockText(t: Bits, h: Head, tb: Tables, column: seq<Byte>) {
    && HeadOk(h) && TablesOk(tb) && AllUsed(tb.used, column) && h.orig < |column| <= 100_000 * h.level
    && exists f, c :: FrontText(f, h, tb) && SymbolsText(c, tb, SymbolsFor(tb.used, column)) && t == f + c
  }

  // ----- The beginning of texts.

  ghost predicate MapSeen(t: Bits, h: Head, rows: seq<bool>, used: seq<bool>) {
    InRows(rows, used) && t == HeadText(h) + rows + RowsOf(rows, used)
  }

  ghost predicate UpToMap(t: Bits, h: Head, used: seq<bool>) {
    exists m :: MapText(m, used) && t == HeadText(h) + m
  }

  ghost predicate SelectorsSeen(t: Bits, h: Head, used: seq<bool>, n: nat, nSel: nat, vals: seq<nat>, j: nat) {
    nSel < 32_768 && exists a :: UpToMap(a, h, used) && t == a + ToBits(3, n) + ToBits(15, nSel) + UnaryAll(vals, |vals|) + Ones(j)
  }

  ghost predicate UpToSelectors(t: Bits, h: Head, used: seq<bool>, n: nat, sel: seq<nat>) {
    exists a, s :: UpToMap(a, h, used) && SelectorsText(s, n, sel) && t == a + s
  }

  ghost predicate TablesSeen(t: Bits, h: Head, used: seq<bool>, n: nat, sel: seq<nat>, lens: seq<seq<nat>>) {
    UsedOk(used) && exists a, l :: UpToSelectors(a, h, used, n, sel) && TablesText(l, lens, Alpha(used)) && t == a + l
  }

  /** Within a table: lengths `len` complete, and on the way to the next one now at `curr`. */
  ghost predicate LengthSeen(t: Bits, h: Head, used: seq<bool>, n: nat, sel: seq<nat>, lens: seq<seq<nat>>, len: seq<nat>, curr: nat) {
    exists a, start, b, s :: TablesSeen(a, h, used, n, sel, lens) && LengthsText(b, start, len) && Steps(s, LastOf(start, len), curr)
                             && start < 32 && t == a + ToBits(5, start) + b + s
  }

  // ----- Texts that no block begins with.

  /** The block size is that of the stream, and the row of the original block is in range, if only just about. */
  ghost predicate HeadFits(h: Head, level: nat) {
    h.level == level && h.orig <= 10 + 100_000 * level
  }

  /** A byte that belongs neither to a block's magic number nor to the trailer's. */
  ghost predicate BadByte(t: Bits) {
    || (exists k: nat, v: nat :: k < 6 && v < 256 && v != BlockByte(k) && !(k == 0 && v == EndByte(0)) && t == BlockMagicPart(k) + ByteBits(v))
    || (exists k: nat, v: nat :: 1 <= k < 6 && v < 256 && v != EndByte(k) && t == EndMagicPart(k) + ByteBits(v))
  }

  ghost predicate BadOrig(t: Bits, level: nat) {
    exists crc: Word, v: nat :: 10 + 100_000 * level < v < 0x100_0000 && t == BlockMagic() + crc + [false] + ToBits(24, v)
  }

  /** No byte in use. */
  ghost predicate BadMap(t: Bits, h: Head) {
    exists rows, used :: |used| == 256 && Used(used, 256) == 0 && MapSeen(t, h, rows, used)
  }

  /** Too few or too many tables, or no selectors. */
  ghost predicate BadCounts(t: Bits, h: Head) {
    || (exists used, a, v: nat :: UpToMap(a, h, used) && v < 8 && (v < 2 || v > 6) && t == a + ToBits(3, v))
    || (exists used, a, n: nat :: UpToMap(a, h, used) && 2 <= n <= 6 && t == a + ToBits(3, n) + ToBits(15, 0))
  }

  /** A selector beyond the tables. */
  ghost predicate BadSelector(t: Bits, h: Head) {
    exists used, n: nat, nSel: nat, vals ::
      SelectorsSeen(t, h, used, n, nSel, vals, n) && 2 <= n <= 6 && |vals| < nSel && forall i :: 0 <= i < |vals| ==> vals[i] < n
  }

  /** A code length out of range. */
  ghost predicate BadLength(t: Bits, h: Head) {
    exists used, n: nat, sel, lens, len, curr: nat ::
      LengthSeen(t, h, used, n, sel, lens, len, curr) && CodingOk(h, used, n, sel, lens) && |len| < Alpha(used) && !(1 <= curr <= 20)
  }

  /** The symbols are such as the decoder takes, and none of them ends the block. */
  ghost predicate Taken(h: Head, tb: Tables, syms: seq<Symbol>) {
    && UsedOk(tb.used) && SymbolsUpTo(syms, Used(tb.used, 256)) && FedOk(SeqToUnseq(tb.used), StartDecoder(), syms, 100_000 * h.level)
  }

  /** A symbol that would make a run or the block too long, or that ends the block where the row of the original block is none of
      its rows. */
  ghost predicate Unfit(h: Head, tb: Tables, syms: seq<Symbol>, sym: nat)
    requires UsedOk(tb.used)
  {
    var d := Fed(SeqToUnseq(tb.used), StartDecoder(), syms);
    if sym == Alpha(tb.used) - 1 then |d.out| + d.run > 100_000 * h.level || h.orig >= |d.out| + d.run
    else sym <= 256 && !StepOk(d, sym, 100_000 * h.level)
  }

  ghost predicate BadSymbol(t: Bits, h: Head) {
    exists tb, f, c, syms, z, sym: nat ::
      && FrontText(f, h, tb) && SymbolsText(c, tb, syms) && Taken(h, tb, syms) && TablesOk(tb) && |syms| / 50 < |tb.sel|
      && CodeText(z, tb.lens[tb.sel[|syms| / 50]], sym) && Unfit(h, tb, syms, sym) && t == f + c + z
  }

  /** Bits that are not the beginning of any code: more of them than a code has. */
  ghost predicate BadCode(t: Bits, h: Head) {
    exists tb, f, c, syms, z ::
      && FrontText(f, h, tb) && SymbolsText(c, tb, syms) && Taken(h, tb, syms) && TablesOk(tb) && |syms| / 50 < |tb.sel|
      && NoneBefore(tb.lens[tb.sel[|syms| / 50]], z) && |z| == 21 && t == f + c + z
  }

  /** The selectors are used up, and the block has not ended. */
  ghost predicate OutOfSelectors(t: Bits, h: Head) {
    exists tb, f, c, syms ::
      FrontText(f, h, tb) && SymbolsText(c, tb, syms) && Taken(h, tb, syms) && TablesOk(tb) && |syms| == 50 * |tb.sel| && t == f + c
  }

  /** No block begins like this, and the last bit shows it. */
  ghost predicate RejectedText(t: Bits, level: nat) {
    || BadByte(t) || BadOrig(t, level)
    || exists h :: HeadFits(h, level) && RejectedBlock(t, h)
  }

  ghost predicate RejectedBlock(t: Bits, h: Head) {
    BadMap(t, h) || BadCounts(t, h) || BadSelector(t, h) || BadLength(t, h) || BadSymbol(t, h) || BadCode(t, h) || OutOfSelectors(t, h)
  }
}
