/** What the compressor writes for a block is a text of that block, one of many. */
module FormatPrinted {
  import opened Bits
  import opened BlockParser
  import opened BlockPrinter
  import opened Crc
  import opened Format
  import opened FormatLeads
  import opened HuffmanCodes
  import opened MoveToFront
  import opened MtfEncoder
  import opened Rotations

  // ----- The map.

  lemma {:induction false} PrintedRow(used: seq<bool>, i: nat, j: nat)
    requires |used| == 256 && i < 16 && j <= 16
    ensures RowsOf(Map16(used), used[..16 * i + j])
            == RowsOf(Map16(used), used[..16 * i]) + if GroupUsed(used, i) then used[16 * i..16 * i + j] else []
    decreases j
  {
    if j > 0 {
      var c := 16 * i + (j - 1);
      PrintedRow(used, i, j - 1);
      assert used[..c + 1][..c] == used[..c] && c / 16 == i;
      assert used[16 * i..c] + [used[c]] == used[16 * i..c + 1];
    } else {
      assert used[16 * i..16 * i] == [];
    }
  }

  lemma {:induction false} PrintedRows(used: seq<bool>, k: nat)
    requires |used| == 256 && k <= 16
    ensures MapRows(used, k) == RowsOf(Map16(used), used[..16 * k])
    decreases k
  {
    if k == 0 {
      assert used[..0] == [];
    } else {
      PrintedRows(used, k - 1);
      PrintedRow(used, k - 1, 16);
    }
  }

  lemma PrintedMap(used: seq<bool>)
    requires UsedOk(used)
    ensures MapText(PrintMap(used), used)
  {
    PrintedRows(used, 16);
    assert used[..256] == used;
    forall c | 0 <= c < 256 && used[c]
      ensures Map16(used)[c / 16]
    {
      assert used[16 * (c / 16)..16 * (c / 16) + 16][c % 16] == used[c];
    }
    assert InRows(Map16(used), used);
  }

  // ----- The selectors.

  lemma PrintedSelectors(n: nat, sel: seq<nat>)
    requires 2 <= n <= 6 && SelOk(sel, n)
    ensures SelectorsText(PrintSelectors(n, sel), n, sel)
  {
    SelInGroups(sel, n);
    SelInversion(Groups(n), sel);
    var vals := SelEncode(Groups(n), sel);
    assert SelectorValues(vals, n) && Usable(vals) == vals && PrintSelectors(n, sel) == SelectorBits(vals, n);
  }

  // ----- The code lengths.

  lemma {:induction false} DeltaText(curr: nat, l: nat)
    requires 1 <= curr <= 20 && 1 <= l <= 20
    ensures LengthText(Delta(curr, l), curr, l)
    decreases if curr < l then l - curr else curr - l
  {
    if curr == l {
      assert Steps([], curr, l) && Delta(curr, l) == [] + [false];
    } else {
      var curr' := if curr < l then curr + 1 else curr - 1;
      DeltaText(curr', l);
      var s :| Steps(s, curr', l) && Delta(curr', l) == s + [false];
      var step := [true, curr > l];
      assert (step + s)[2..] == s;
      assert Steps(step + s, curr, l);
      assert Delta(curr, l) == step + (s + [false]) == (step + s) + [false];
    }
  }

  lemma NoLengths(len: seq<nat>)
    requires 0 < |len|
    ensures LengthsText([], len[0], len[..0])
  {
  }

  lemma LengthsMore(b: Bits, len: seq<nat>, k: nat, d: Bits)
    requires 0 < k <= |len| && LengthsText(b, len[0], len[..k - 1])
    requires LengthText(d, if k == 1 then len[0] else len[k - 2], len[k - 1])
    ensures LengthsText(b + d, len[0], len[..k])
  {
    hide LengthText;
    assert len[..k][..k - 1] == len[..k - 1] && LastOf(len[0], len[..k - 1]) == if k == 1 then len[0] else len[k - 2];
  }

  lemma {:induction false} PrintedLengths(len: seq<nat>, k: nat)
    requires 0 < |len| && k <= |len| && LenOk(len, |len|)
    ensures exists b :: LengthsText(b, len[0], len[..k]) && TablePart(len, k) == ToBits(5, len[0]) + b
    decreases k
  {
    hide ToBits, Delta, LengthText, LengthsText;
    if k == 0 {
      assert LengthsText([], len[0], len[..0]) by {
        NoLengths(len);
      }
      assert ToBits(5, len[0]) + [] == ToBits(5, len[0]);
    } else {
      PrintedLengths(len, k - 1);
      var b :| LengthsText(b, len[0], len[..k - 1]) && TablePart(len, k - 1) == ToBits(5, len[0]) + b;
      var from := if k == 1 then len[0] else len[k - 2];
      DeltaText(from, len[k - 1]);
      LengthsMore(b, len, k, Delta(from, len[k - 1]));
      Assoc(ToBits(5, len[0]), b, Delta(from, len[k - 1]));
    }
  }

  lemma {:induction false} PrintedTables(lens: seq<seq<nat>>, alpha: nat, k: nat)
    requires 0 < alpha && LensOk(lens, alpha) && k <= |lens|
    ensures forall t :: 0 <= t < |lens| ==> LenOk(lens[t], alpha)
    ensures TablesText(PrintTables(lens, k), lens[..k], alpha)
    decreases k
  {
    assert forall t :: 0 <= t < |lens| ==> LenOk(lens[t], alpha);
    if k > 0 {
      var len := lens[k - 1];
      PrintedTables(lens, alpha, k - 1);
      PrintedLengths(len, |len|);
      assert len[..|len|] == len;
      assert TableText(TablePart(len, |len|), len);
      assert lens[..k][..k - 1] == lens[..k - 1];
    }
  }

  // ----- The symbols.

  lemma {:induction false} PrintedSymbols(tb: Tables, syms: seq<Symbol>, k: nat)
    requires Coverable(tb, syms) && CodesComplete(tb) && k <= |syms|
    ensures SymbolsText(PrintSymbols(tb, syms, k), tb, syms[..k])
    decreases k
  {
    hide CodeBits, LenOk, KraftHolds, Used;
    if k > 0 {
      PrintedSymbols(tb, syms, k - 1);
      GroupOf(tb, syms, k - 1);
      assert syms[..k][..k - 1] == syms[..k - 1];
      var len := LensAt(tb, k - 1);
      assert Decodable(len) by {
        SelInTables(tb, (k - 1) / 50);
      }
      var top :| KraftHolds(len, top);
      OwnCode(CodeBits(len, syms[k - 1]), len, syms[k - 1], top);
    }
  }

  lemma SelInTables(tb: Tables, i: nat)
    requires TablesOk(tb) && i < |tb.sel|
    ensures tb.sel[i] < |tb.lens|
  {
  }

  // ----- A whole block.

  lemma PrintedFront(h: Head, tb: Tables)
    requires TablesOk(tb)
    ensures forall t :: 0 <= t < |tb.lens| ==> LenOk(tb.lens[t], Alpha(tb.used))
    ensures FrontText(HeadText(h) + PrintMap(tb.used) + PrintSelectors(|tb.lens|, tb.sel) + PrintTables(tb.lens, |tb.lens|), h, tb)
  {
    hide HeadText, PrintMap, PrintSelectors, MapText, SelectorsText, TablesText, Used;
    PrintedMap(tb.used);
    PrintedSelectors(|tb.lens|, tb.sel);
    PrintedTables(tb.lens, Alpha(tb.used), |tb.lens|);
    assert tb.lens[..|tb.lens|] == tb.lens;
  }

  lemma PrintedBlock(h: Head, tb: Tables, column: seq<Byte>)
    requires BlockOk(h, tb, column)
    ensures BlockText(PrintBlock(h, tb, column), h, tb, column)
  {
    hide ToBits, BlockMagic, PrintMap, PrintSelectors, FrontText, SymbolsText, SymbolsFor, Used, TablesOk, CodesComplete, LenOk;
    var syms := SymbolsFor(tb.used, column);
    PrintedFront(h, tb);
    assert syms[..|syms|] == syms;
    PrintedSymbols(tb, syms, |syms|);
  }
}
