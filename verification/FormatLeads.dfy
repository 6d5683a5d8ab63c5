/** The parser reads all of the format: the text of any block takes it from block header to that block's column.
 */
module FormatLeads {
  import opened Bits
  import opened BlockParser
  import opened BlockPrinter
  import opened Crc
  import opened Format
  import opened FormatCodes
  import opened HuffmanCodes
  import opened MoveToFront
  import opened MtfEncoder
  import opened Rotations

  // ----- The map.

  lemma {:induction false} RowMarksLead(h: Head, rows: seq<bool>, k: nat, dec: Decoder)
    requires HeadOk(h) && |rows| == 16 && k < 16 && |dec.yy| == 256
    ensures Leads(Conf(Mapping1(h, []), dec), rows[..k], Conf(Mapping1(h, rows[..k]), dec))
    decreases k
  {
    if k > 0 {
      RowMarksLead(h, rows, k - 1, dec);
      assert rows[..k - 1] + [rows[k - 1]] == rows[..k];
      ThenBits(Conf(Mapping1(h, []), dec), rows[..k - 1], Conf(Mapping1(h, rows[..k - 1]), dec), [rows[k - 1]],
               Conf(Mapping1(h, rows[..k]), dec));
    }
  }

  lemma AllMarksLead(h: Head, rows: seq<bool>, dec: Decoder)
    requires HeadOk(h) && |rows| == 16 && |dec.yy| == 256
    ensures Leads(Conf(Mapping1(h, []), dec), rows, Conf(MappingNext(h, rows, []), dec))
  {
    RowMarksLead(h, rows, 15, dec);
    assert rows[..15] + [rows[15]] == rows;
    ThenBits(Conf(Mapping1(h, []), dec), rows[..15], Conf(Mapping1(h, rows[..15]), dec), [rows[15]], Conf(MappingNext(h, rows, []), dec));
  }

  /** How many bytes of the map have been taken note of when the bits for `k` of them have been read: rows that are not marked are
      left out as a whole. */
  function Noted(rows: seq<bool>, k: nat): (r: nat)
    requires |rows| == 16 && k <= 256
    ensures r <= k
  {
    if k % 16 != 0 && !rows[k / 16] then k - k % 16 else k
  }

  lemma {:induction false} RowsLead(h: Head, rows: seq<bool>, used: seq<bool>, k: nat, dec: Decoder)
    requires HeadOk(h) && InRows(rows, used) && |used| == 256 && k <= 256 && |dec.yy| == 256
    ensures Leads(Conf(MappingNext(h, rows, []), dec), RowsOf(rows, used[..k]), Conf(MappingNext(h, rows, used[..Noted(rows, k)]), dec))
    decreases k
  {
    hide Leads, MappingNext;
    var x := Conf(MappingNext(h, rows, []), dec);
    if k == 0 {
      MappingNextOk(h, rows, []);
      assert used[..0] == [];
      Stays(x);
    } else {
      var c := k - 1;
      RowsLead(h, rows, used, c, dec);
      assert used[..k][..c] == used[..c] && used[..k][c] == used[c];
      var y, z := Conf(MappingNext(h, rows, used[..Noted(rows, c)]), dec), Conf(MappingNext(h, rows, used[..Noted(rows, k)]), dec);
      if rows[c / 16] {
        MarkedByte(h, rows, used, c, dec);
        ThenBits(x, RowsOf(rows, used[..c]), y, [used[c]], z);
      } else {
        UnmarkedByte(h, rows, used, c);
        assert RowsOf(rows, used[..c]) + [] == RowsOf(rows, used[..c]);
      }
    }
  }

  lemma MarkedByte(h: Head, rows: seq<bool>, used: seq<bool>, c: nat, dec: Decoder)
    requires HeadOk(h) && InRows(rows, used) && c < |used| == 256 && rows[c / 16] && |dec.yy| == 256
    ensures Noted(rows, c) == c && Noted(rows, c + 1) == c + 1
    ensures var y := Conf(MappingNext(h, rows, used[..c]), dec);
            && Ok(y) && !Stopped(y.ctl) && Need(y.ctl) == 1 && Handle(y, [used[c]]) == Conf(MappingNext(h, rows, used[..c + 1]), dec)
  {
    MappingNextOk(h, rows, used[..c]);
    assert used[..c] + [used[c]] == used[..c + 1];
  }

  lemma UnmarkedByte(h: Head, rows: seq<bool>, used: seq<bool>, c: nat)
    requires InRows(rows, used) && c < |used| == 256 && !rows[c / 16]
    ensures MappingNext(h, rows, used[..Noted(rows, c)]) == MappingNext(h, rows, used[..Noted(rows, c + 1)])
  {
    hide MappingNext;
    if (c + 1) % 16 == 0 {
      var i := c - 15;
      assert i / 16 == c / 16 && Noted(rows, c) == i;
      RowLeftOut(h, rows, used, i);
    }
  }

  lemma RowLeftOut(h: Head, rows: seq<bool>, used: seq<bool>, i: nat)
    requires InRows(rows, used) && i + 16 <= |used| == 256 && i % 16 == 0 && !rows[i / 16]
    ensures MappingNext(h, rows, used[..i]) == MappingNext(h, rows, used[..i + 16])
  {
    forall c | i <= c < i + 16
      ensures !used[c]
    {
      assert c / 16 == i / 16;
    }
    assert used[..i] + Zeros(16) == used[..i + 16];
  }

  lemma MapLeads(h: Head, m: Bits, used: seq<bool>, dec: Decoder)
    requires HeadOk(h) && MapText(m, used) && |dec.yy| == 256
    ensures Leads(Conf(Mapping1(h, []), dec), m, Conf(Selector1(h, used), dec))
  {
    hide RowsOf, Leads;
    var rows :| InRows(rows, used) && m == rows + RowsOf(rows, used);
    AllMarksLead(h, rows, dec);
    RowsLead(h, rows, used, 256, dec);
    assert used[..256] == used;
    LeadsThen(Conf(Mapping1(h, []), dec), rows, Conf(MappingNext(h, rows, []), dec), RowsOf(rows, used), Conf(Selector1(h, used), dec));
  }

  // ----- The selectors.

  lemma {:induction false} OnesLead(h: Head, used: seq<bool>, nGroups: nat, nSel: nat, mtf: seq<nat>, j: nat, dec: Decoder)
    requires CtlOk(Selector3(h, used, nGroups, nSel, mtf, 0)) && j < nGroups && |dec.yy| == 256
    ensures Leads(Conf(Selector3(h, used, nGroups, nSel, mtf, 0), dec), Ones(j), Conf(Selector3(h, used, nGroups, nSel, mtf, j), dec))
    decreases j
  {
    var x, y := Conf(Selector3(h, used, nGroups, nSel, mtf, 0), dec), Conf(Selector3(h, used, nGroups, nSel, mtf, j), dec);
    if j == 0 {
      Stays(x);
    } else {
      OnesLead(h, used, nGroups, nSel, mtf, j - 1, dec);
      ThenBits(x, Ones(j - 1), Conf(Selector3(h, used, nGroups, nSel, mtf, j - 1), dec), [true], y);
      assert Ones(j - 1) + [true] == Ones(j);
    }
  }

  lemma UnaryLeads(h: Head, used: seq<bool>, nGroups: nat, nSel: nat, mtf: seq<nat>, j: nat, dec: Decoder)
    requires CtlOk(Selector3(h, used, nGroups, nSel, mtf, 0)) && j < nGroups && |dec.yy| == 256
    ensures Leads(Conf(Selector3(h, used, nGroups, nSel, mtf, 0), dec), Unary(j),
                  Conf(HandleSelector3(h, used, nGroups, nSel, mtf, j, false), dec))
  {
    OnesLead(h, used, nGroups, nSel, mtf, j, dec);
    ThenBits(Conf(Selector3(h, used, nGroups, nSel, mtf, 0), dec), Ones(j), Conf(Selector3(h, used, nGroups, nSel, mtf, j), dec),
             [false], Conf(HandleSelector3(h, used, nGroups, nSel, mtf, j, false), dec));
  }

  lemma {:induction false} UnaryAllLead(h: Head, used: seq<bool>, nGroups: nat, nSel: nat, vals: seq<nat>, k: nat, dec: Decoder)
    requires CtlOk(Selector3(h, used, nGroups, nSel, [], 0)) && k <= |vals| && k < nSel && MtfOk(vals, nGroups) && |dec.yy| == 256
    ensures Leads(Conf(Selector3(h, used, nGroups, nSel, [], 0), dec), UnaryAll(vals, k), Conf(Selector3(h, used, nGroups, nSel, vals[..k], 0), dec))
    decreases k
  {
    var x := Conf(Selector3(h, used, nGroups, nSel, [], 0), dec);
    if k == 0 {
      assert vals[..0] == [];
      Stays(x);
    } else {
      UnaryAllLead(h, used, nGroups, nSel, vals, k - 1, dec);
      UnaryLeads(h, used, nGroups, nSel, vals[..k - 1], vals[k - 1], dec);
      assert vals[..k - 1] + [vals[k - 1]] == vals[..k];
      LeadsThen(x, UnaryAll(vals, k - 1), Conf(Selector3(h, used, nGroups, nSel, vals[..k - 1], 0), dec),
                Unary(vals[k - 1]), Conf(Selector3(h, used, nGroups, nSel, vals[..k], 0), dec));
    }
  }

  lemma SelectorCountsLead(h: Head, used: seq<bool>, nGroups: nat, nSel: nat, dec: Decoder)
    requires HeadOk(h) && UsedOk(used) && 2 <= nGroups <= 6 && 1 <= nSel < 32_768 && |dec.yy| == 256
    ensures Leads(Conf(Selector1(h, used), dec), ToBits(3, nGroups) + ToBits(15, nSel), Conf(Selector3(h, used, nGroups, nSel, [], 0), dec))
  {
    var a, b := ToBits(3, nGroups), ToBits(15, nSel);
    assert Val(a) == nGroups && Val(b) == nSel by {
      Powers();
      assert Pow2(3) == 8;
      ValToBits(3, nGroups);
      ValToBits(15, nSel);
    }
    BitsLead(Conf(Selector1(h, used), dec), a, Conf(Selector2(h, used, nGroups), dec));
    ThenBits(Conf(Selector1(h, used), dec), a, Conf(Selector2(h, used, nGroups), dec), b, Conf(Selector3(h, used, nGroups, nSel, [], 0), dec));
  }

  lemma SelectorsLead(h: Head, used: seq<bool>, n: nat, s: Bits, sel: seq<nat>, dec: Decoder)
    requires HeadOk(h) && UsedOk(used) && SelectorsText(s, n, sel) && |dec.yy| == 256
    ensures Leads(Conf(Selector1(h, used), dec), s, Conf(Coding1(h, used, n, sel, []), dec))
  {
    hide ToBits, Leads, UsedOk, SelDecode, Groups, Unary;
    var vals :| SelectorValues(vals, n) && sel == SelDecode(Groups(n), Usable(vals)) && s == SelectorBits(vals, n);
    var k := |vals| - 1;
    var x, y := Conf(Selector1(h, used), dec), Conf(Selector3(h, used, n, |vals|, [], 0), dec);
    var z, w := Conf(Selector3(h, used, n, |vals|, vals[..k], 0), dec), Conf(Coding1(h, used, n, sel, []), dec);
    SelectorCountsLead(h, used, n, |vals|, dec);
    UnaryAllLead(h, used, n, |vals|, vals, k, dec);
    UnaryLeads(h, used, n, |vals|, vals[..k], vals[k], dec);
    assert vals[..k] + [vals[k]] == vals;
    LeadsThen(y, UnaryAll(vals, k), z, Unary(vals[k]), w);
    LeadsThen(x, ToBits(3, n) + ToBits(15, |vals|), y, UnaryAll(vals, |vals|), w);
  }

  // ----- The code lengths.

  lemma {:induction false} StepsLead(h: Head, used: seq<bool>, n: nat, sel: seq<nat>, lens: seq<seq<nat>>, len: seq<nat>,
                                     s: Bits, from: nat, to: nat)
    requires CodingOk(h, used, n, sel, lens) && |len| < Alpha(used) && LenOk(len, |len|) && Steps(s, from, to)
    ensures Leads(Started(CodingNext(h, used, n, sel, lens, len, from)), s, Started(CodingNext(h, used, n, sel, lens, len, to)))
    decreases |s|
  {
    hide Leads, Used;
    var x, z := Started(CodingNext(h, used, n, sel, lens, len, from)), Started(CodingNext(h, used, n, sel, lens, len, to));
    CodingNextOk(h, used, n, sel, lens, len, from);
    if s == [] {
      Stays(x);
    } else {
      var from' := if s[1] then from - 1 else from + 1;
      StepsLead(h, used, n, sel, lens, len, s[2..], from', to);
      var y, y' := Started(Coding3(h, used, n, sel, lens, len, from)), Started(CodingNext(h, used, n, sel, lens, len, from'));
      BitsLead(x, [true], y);
      ThenBits(x, [true], y, [s[1]], y');
      LeadsThen(x, [true] + [s[1]], y', s[2..], z);
      assert [true] + [s[1]] + s[2..] == s;
    }
  }

  lemma LengthLeads(h: Head, used: seq<bool>, n: nat, sel: seq<nat>, lens: seq<seq<nat>>, len: seq<nat>, b: Bits, from: nat, to: nat)
    requires CodingOk(h, used, n, sel, lens) && |len| < Alpha(used) && LenOk(len, |len|) && LengthText(b, from, to)
    ensures Leads(Started(CodingNext(h, used, n, sel, lens, len, from)), b, Started(CodingNext(h, used, n, sel, lens, len + [to], to)))
  {
    hide Leads, Used, Steps;
    var s :| Steps(s, from, to) && b == s + [false];
    StepsLead(h, used, n, sel, lens, len, s, from, to);
    var y := Started(CodingNext(h, used, n, sel, lens, len, to));
    ThenBits(Started(CodingNext(h, used, n, sel, lens, len, from)), s, y, [false], Started(CodingNext(h, used, n, sel, lens, len + [to], to)));
  }

  lemma {:induction false} LengthsLead(h: Head, used: seq<bool>, n: nat, sel: seq<nat>, lens: seq<seq<nat>>, start: nat, b: Bits, len: seq<nat>)
    requires CodingOk(h, used, n, sel, lens) && |len| <= Alpha(used) && LengthsText(b, start, len)
    ensures LenOk(len, |len|)
    ensures Leads(Started(CodingNext(h, used, n, sel, lens, [], start)), b, Started(CodingNext(h, used, n, sel, lens, len, LastOf(start, len))))
    decreases |len|
  {
    hide Leads, Used, LengthText, CodingNext;
    var x := Started(CodingNext(h, used, n, sel, lens, [], start));
    if len == [] {
      CodingNextOk(h, used, n, sel, lens, [], start);
      Stays(x);
    } else {
      var k := |len| - 1;
      var a, c :| LengthsText(a, start, len[..k]) && LengthText(c, LastOf(start, len[..k]), len[k]) && b == a + c;
      LengthsLead(h, used, n, sel, lens, start, a, len[..k]);
      LengthLeads(h, used, n, sel, lens, len[..k], c, LastOf(start, len[..k]), len[k]);
      assert len[..k] + [len[k]] == len;
      LengthOkPush(len, k, c, LastOf(start, len[..k]));
      LeadsThen(x, a, Started(CodingNext(h, used, n, sel, lens, len[..k], LastOf(start, len[..k]))), c,
                Started(CodingNext(h, used, n, sel, lens, len, LastOf(start, len))));
    }
  }

  lemma LengthOkPush(len: seq<nat>, k: nat, c: Bits, from: nat)
    requires |len| == k + 1 && LenOk(len[..k], k) && LengthText(c, from, len[k])
    ensures LenOk(len, |len|)
  {
    forall i | 0 <= i < k
      ensures 1 <= len[i] <= LONGEST_CODE
    {
      assert len[..k][i] == len[i];
    }
  }

  lemma TableLeads(h: Head, used: seq<bool>, n: nat, sel: seq<nat>, lens: seq<seq<nat>>, b: Bits, len: seq<nat>, dec: Decoder)
    requires CodingOk(h, used, n, sel, lens) && |len| == Alpha(used) && TableText(b, len) && |dec.yy| == 256
    ensures LenOk(len, |len|) && len != []
    ensures Leads(Conf(Coding1(h, used, n, sel, lens), dec), b, Started(CodingNext(h, used, n, sel, lens, len, LastOf(0, len))))
  {
    hide Leads, ToBits, Val, Used, CodingNext;
    var start, c :| start < 32 && LengthsText(c, start, len) && b == ToBits(5, start) + c;
    FiveBits(start);
    var x, y := Conf(Coding1(h, used, n, sel, lens), dec), Started(CodingNext(h, used, n, sel, lens, [], start));
    BitsLead(x, ToBits(5, start), y);
    LengthsLead(h, used, n, sel, lens, start, c, len);
    LeadsThen(x, ToBits(5, start), y, c, Started(CodingNext(h, used, n, sel, lens, len, LastOf(start, len))));
  }

  lemma FiveBits(v: nat)
    requires v < 32
    ensures Val(ToBits(5, v)) == v
  {
    assert Pow2(5) == 32;
    ValToBits(5, v);
  }

  /** Where the parser is after `k` tables. */
  ghost function AfterTables(h: Head, tb: Tables, k: nat, dec: Decoder): (x: Conf)
    requires HeadOk(h) && TablesOk(tb) && k <= |tb.lens| && |dec.yy| == 256
    ensures Ok(x)
  {
    if k < |tb.lens| then Conf(Coding1(h, tb.used, |tb.lens|, tb.sel, tb.lens[..k]), if k == 0 then dec else StartDecoder())
    else
      GetMtfOk(h, tb, -1, 0);
      Started(GetMtf(h, tb, -1, 0))
  }

  lemma OneTableLeads(h: Head, tb: Tables, k: nat, b: Bits, dec: Decoder)
    requires HeadOk(h) && TablesOk(tb) && k < |tb.lens| && |dec.yy| == 256 && TableText(b, tb.lens[k])
    ensures Leads(AfterTables(h, tb, k, dec), b, AfterTables(h, tb, k + 1, dec))
  {
    hide Leads, TableText, Used;
    var len := tb.lens[k];
    assert LenOk(len, Alpha(tb.used));
    var x := AfterTables(h, tb, k, dec);
    TableLeads(h, tb.used, |tb.lens|, tb.sel, tb.lens[..k], b, len, x.dec);
    assert tb.lens[..k] + [len] == tb.lens[..k + 1];
    assert tb.lens[..|tb.lens|] == tb.lens;
  }

  lemma {:induction false} TablesLead(h: Head, tb: Tables, k: nat, l: Bits, dec: Decoder)
    requires HeadOk(h) && TablesOk(tb) && k <= |tb.lens| && |dec.yy| == 256 && TablesText(l, tb.lens[..k], Alpha(tb.used))
    ensures Leads(AfterTables(h, tb, 0, dec), l, AfterTables(h, tb, k, dec))
    decreases k
  {
    hide Leads, TableText, Used, AfterTables;
    var x := AfterTables(h, tb, 0, dec);
    if k == 0 {
      Stays(x);
    } else {
      var i := k - 1;
      assert tb.lens[..k][..i] == tb.lens[..i] && tb.lens[..k][i] == tb.lens[i];
      var a, b :| TablesText(a, tb.lens[..i], Alpha(tb.used)) && TableText(b, tb.lens[i]) && l == a + b;
      TablesLead(h, tb, i, a, dec);
      OneTableLeads(h, tb, i, b, dec);
      LeadsThen(x, a, AfterTables(h, tb, i, dec), b, AfterTables(h, tb, k, dec));
    }
  }

  // ----- The symbols.

  lemma CodePart(len: seq<nat>, z: Bits, sym: nat, n: nat)
    requires LenOk(len, |len|) && 0 < |len| <= MAX_ALPHA_SIZE && CodeText(z, len, sym) && MinLen(len) <= n <= |z|
    ensures n < |z| ==> LookUp(len, z[..n]) == More
    ensures n == |z| ==> LookUp(len, z[..n]) == Found(sym)
    ensures |z| == len[sym]
  {
    hide WithinCodes, Val, Limit, First;
    assert NoneBefore(len, z[..n]) by {
      forall i | 0 <= i < n
        ensures !WithinCodes(len, z[..n][..i])
      {
        assert z[..n][..i] == z[..i];
      }
    }
    CodeWithin(z, len, sym);
    assert n == |z| ==> z[..n] == z;
    LookUpExact(len, z[..n], sym);
  }

  /** Reading on from `n` bits of a code leads to its symbol. */
  lemma {:induction false} RestOfCodeLeads(h: Head, tb: Tables, groupNo: nat, groupPos: nat, z: Bits, sym: nat, n: nat, dec: Decoder)
    requires HeadOk(h) && TablesOk(tb) && groupNo < |tb.sel| && |dec.yy| == 256
    requires CodeText(z, tb.lens[tb.sel[groupNo]], sym) && MinLen(tb.lens[tb.sel[groupNo]]) <= n <= |z|
    ensures Ok(OnSymbol(h, tb, groupNo, groupPos, sym, dec))
    ensures Leads(CheckCode(h, tb, groupNo, groupPos, z[..n], dec), z[n..], OnSymbol(h, tb, groupNo, groupPos, sym, dec))
    decreases |z| - n
  {
    hide OnSymbol, LookUp, HandleCtl, Leads, CodeText, MinLen;
    var len := tb.lens[tb.sel[groupNo]];
    TableInRange(tb, groupNo);
    CheckCodeOk(h, tb, groupNo, groupPos, z[..n], dec);
    CodePart(len, z, sym, n);
    if n == |z| {
      assert z[n..] == [];
      Stays(OnSymbol(h, tb, groupNo, groupPos, sym, dec));
    } else {
      var x, b := Conf(Mtf2(h, tb, groupNo, groupPos, z[..n]), dec), [z[n]];
      assert z[..n] + b == z[..n + 1] && z[n..] == b + z[n + 1..];
      BitsLead(x, b, CheckCode(h, tb, groupNo, groupPos, z[..n + 1], dec));
      RestOfCodeLeads(h, tb, groupNo, groupPos, z, sym, n + 1, dec);
      LeadsThen(x, b, CheckCode(h, tb, groupNo, groupPos, z[..n + 1], dec), z[n + 1..], OnSymbol(h, tb, groupNo, groupPos, sym, dec));
    }
  }

  lemma CodeLeads(h: Head, tb: Tables, groupNo: nat, groupPos: nat, z: Bits, sym: nat, dec: Decoder)
    requires HeadOk(h) && TablesOk(tb) && groupNo < |tb.sel| && |dec.yy| == 256 && CodeText(z, tb.lens[tb.sel[groupNo]], sym)
    ensures Ok(OnSymbol(h, tb, groupNo, groupPos, sym, dec))
    ensures Leads(Conf(Mtf1(h, tb, groupNo, groupPos), dec), z, OnSymbol(h, tb, groupNo, groupPos, sym, dec))
  {
    hide OnSymbol, CheckCode, Leads, LensOk, UsedOk, CodeText;
    var len := tb.lens[tb.sel[groupNo]];
    var n := MinLen(len);
    MinLenInRange(tb, groupNo);
    TableInRange(tb, groupNo);
    CodeWithin(z, len, sym);
    var x := Conf(Mtf1(h, tb, groupNo, groupPos), dec);
    BitsLead(x, z[..n], CheckCode(h, tb, groupNo, groupPos, z[..n], dec));
    RestOfCodeLeads(h, tb, groupNo, groupPos, z, sym, n, dec);
    LeadsThen(x, z[..n], CheckCode(h, tb, groupNo, groupPos, z[..n], dec), z[n..], OnSymbol(h, tb, groupNo, groupPos, sym, dec));
    assert z[..n] + z[n..] == z;
  }

  /** Where the parser is before symbol number `k`. */
  ghost function BeforeSymbol(h: Head, tb: Tables, k: nat): Ctl {
    if k == 0 then GetMtf(h, tb, -1, 0) else GetMtf(h, tb, (k - 1) / 50, 49 - (k - 1) % 50)
  }

  lemma BeforeSymbolIs(h: Head, tb: Tables, k: nat)
    requires k / 50 < |tb.sel|
    ensures BeforeSymbol(h, tb, k) == Mtf1(h, tb, k / 50, 49 - k % 50)
  {
    if k > 0 {
      NextInGroup(k);
    }
  }

  lemma FedPrefix(m: seq<Byte>, d: Decoder, syms: seq<Symbol>, k: nat, max: nat)
    requires |m| == |d.yy| == 256 && k < |syms| && FedOk(m, d, syms[..k + 1], max)
    ensures FedOk(m, d, syms[..k], max) && StepOk(Fed(m, d, syms[..k]), syms[k], max)
    ensures Fed(m, d, syms[..k + 1]) == DecoderStep(m, Fed(m, d, syms[..k]), syms[k])
  {
    assert syms[..k + 1][..k] == syms[..k];
  }

  /** All symbols up to `k`, none of them the end-of-block symbol. */
  lemma {:induction false} SymbolsLead(h: Head, tb: Tables, syms: seq<Symbol>, k: nat, c: Bits)
    requires HeadOk(h) && TablesOk(tb) && k <= |syms| && SymbolsText(c, tb, syms[..k])
    requires forall i :: 0 <= i < k ==> syms[i] < Alpha(tb.used) - 1
    requires FedOk(SeqToUnseq(tb.used), StartDecoder(), syms[..k], 100_000 * h.level)
    ensures Leads(Conf(BeforeSymbol(h, tb, 0), StartDecoder()), c,
                  Conf(BeforeSymbol(h, tb, k), Fed(SeqToUnseq(tb.used), StartDecoder(), syms[..k])))
    decreases k
  {
    hide Leads, CodeText, SeqToUnseq, FedOk, Fed, DecoderStep, Used, SelOk, LensOk;
    var m, max := SeqToUnseq(tb.used), 100_000 * h.level;
    var x := Conf(BeforeSymbol(h, tb, 0), StartDecoder());
    if k == 0 {
      NothingFed(m, syms);
      GetMtfOk(h, tb, -1, 0);
      Stays(x);
    } else {
      var i := k - 1;
      assert syms[..k][..i] == syms[..i] && syms[..k][i] == syms[i];
      var a, z :| SymbolsText(a, tb, syms[..i]) && CodeText(z, tb.lens[tb.sel[i / 50]], syms[i]) && c == a + z;
      FedPrefix(m, StartDecoder(), syms, i, max);
      SymbolsLead(h, tb, syms, i, a);
      var d := Fed(m, StartDecoder(), syms[..i]);
      BeforeSymbolIs(h, tb, i);
      CodeLeads(h, tb, i / 50, 49 - i % 50, z, syms[i], d);
      LeadsThen(x, a, Conf(BeforeSymbol(h, tb, i), d), z, Conf(BeforeSymbol(h, tb, k), DecoderStep(m, d, syms[i])));
    }
  }

  lemma NothingFed(m: seq<Byte>, syms: seq<Symbol>)
    requires |m| == 256
    ensures Fed(m, StartDecoder(), syms[..0]) == StartDecoder()
  {
    assert syms[..0] == [];
  }

  lemma AllSymbolsLead(h: Head, tb: Tables, column: seq<Byte>, c: Bits) returns (dec: Decoder)
    requires HeadOk(h) && TablesOk(tb) && AllUsed(tb.used, column) && h.orig < |column| <= 100_000 * h.level
    requires SymbolsText(c, tb, SymbolsFor(tb.used, column))
    ensures Leads(Started(GetMtf(h, tb, -1, 0)), c, Conf(Output(h, column), dec)) && |dec.yy| == 256
  {
    hide Leads, CodeText, SeqToUnseq, FedOk, Fed, DecoderStep, Flushed, StepOk, SymbolsFor;
    var syms, m := SymbolsFor(tb.used, column), SeqToUnseq(tb.used);
    var k := |syms| - 1;
    SymbolsDecode(tb.used, column, 100_000 * h.level);
    var a, z :| SymbolsText(a, tb, syms[..k]) && CodeText(z, tb.lens[tb.sel[k / 50]], syms[k]) && c == a + z;
    SymbolsLead(h, tb, syms, k, a);
    var d := Fed(m, StartDecoder(), syms[..k]);
    dec := Flushed(m, d);
    BeforeSymbolIs(h, tb, k);
    CodeLeads(h, tb, k / 50, 49 - k % 50, z, syms[k], d);
    LeadsThen(Started(GetMtf(h, tb, -1, 0)), a, Conf(BeforeSymbol(h, tb, k), d), z, Conf(Output(h, column), dec));
  }

  // ----- A whole block.

  lemma BlockHeadLeads(h: Head, dec: Decoder)
    requires HeadOk(h) && |dec.yy| == 256 && h.orig <= 10 + 100_000 * h.level
    ensures Leads(Conf(BlkHdr(h.level, 0), dec), HeadText(h), Conf(Mapping1(h, []), dec))
  {
    hide Leads, BlockMagic, ToBits;
    var x0, x1 := Conf(BlkHdr(h.level, 0), dec), Conf(BCrc(h.level, []), dec);
    var x2, x3 := Conf(RandBit(h.level, h.crc), dec), Conf(OrigPtr(h.level, h.crc, []), dec);
    BlockMagicLeads(h.level, dec);
    BlockCrcLeads(h.level, h.crc, dec);
    OrigPtrLeads(h.level, h.crc, h.orig, dec);
    LeadsThen(x0, BlockMagic(), x1, h.crc, x2);
    ThenBits(x0, BlockMagic() + h.crc, x2, [false], x3);
    LeadsThen(x0, BlockMagic() + h.crc + [false], x3, ToBits(24, h.orig), Conf(Mapping1(h, []), dec));
  }

  lemma FrontLeads(h: Head, tb: Tables, f: Bits, dec: Decoder)
    requires HeadOk(h) && TablesOk(tb) && FrontText(f, h, tb) && h.orig <= 10 + 100_000 * h.level && |dec.yy| == 256
    ensures Leads(Conf(BlkHdr(h.level, 0), dec), f, Started(GetMtf(h, tb, -1, 0)))
  {
    hide Leads, HeadText, MapText, SelectorsText, TablesText, Used;
    var m, s, l :| MapText(m, tb.used) && SelectorsText(s, |tb.lens|, tb.sel) && TablesText(l, tb.lens, Alpha(tb.used))
      && f == HeadText(h) + m + s + l;
    var x0, x1, x2 := Conf(BlkHdr(h.level, 0), dec), Conf(Mapping1(h, []), dec), Conf(Selector1(h, tb.used), dec);
    var x3, x4 := AfterTables(h, tb, 0, dec), AfterTables(h, tb, |tb.lens|, dec);
    BlockHeadLeads(h, dec);
    MapLeads(h, m, tb.used, dec);
    SelectorsLead(h, tb.used, |tb.lens|, s, tb.sel, dec);
    assert tb.lens[..0] == [] && tb.lens[..|tb.lens|] == tb.lens;
    TablesLead(h, tb, |tb.lens|, l, dec);
    LeadsThen(x0, HeadText(h), x1, m, x2);
    LeadsThen(x0, HeadText(h) + m, x2, s, x3);
    LeadsThen(x0, HeadText(h) + m + s, x3, l, x4);
  }

  /** The text of a block leads to exactly its head and its column. */
  lemma BlockLeads(t: Bits, h: Head, tb: Tables, column: seq<Byte>, dec: Decoder) returns (dec': Decoder)
    requires BlockText(t, h, tb, column) && |dec.yy| == 256
    ensures Leads(Conf(BlkHdr(h.level, 0), dec), t, Conf(Output(h, column), dec')) && |dec'.yy| == 256
  {
    hide Leads, FrontText, SymbolsText, AllUsed, SymbolsFor;
    var f, c :| FrontText(f, h, tb) && SymbolsText(c, tb, SymbolsFor(tb.used, column)) && t == f + c;
    FrontLeads(h, tb, f, dec);
    dec' := AllSymbolsLead(h, tb, column, c);
    LeadsThen(Conf(BlkHdr(h.level, 0), dec), f, Started(GetMtf(h, tb, -1, 0)), c, Conf(Output(h, column), dec'));
  }
}
