/** The decoder's parser as an object: head and tables, then the symbols, which are undone on the fly and received into
    the column, up to the point where the block can be written out.
 */
module BlockReader {
  import opened Bits
  import opened BlockParser
  import opened Crc
  import opened DecodeTables
  import opened DecoderStore
  import opened HuffmanCodes
  import opened InverseBwt
  import opened MoveToFront
  import opened MtfEncoder
  import opened Rotations
  import opened SmallDecoder
  import opened TableReader
  import opened TwoLevelMtf

  /** The first `n` entries of the list are below `n`: the others, and what the map says of them, are never looked at. */
  ghost predicate Low(yy: seq<Byte>, n: nat) {
    |yy| == 256 && n <= 256 && forall k :: 0 <= k < n ==> yy[k] < n
  }

  lemma MoveKeepsLow(yy: seq<Byte>, n: nat, j: nat)
    requires Low(yy, n) && j < n
    ensures Low(MoveFront(yy, j), n)
  {
  }

  /** Where the map is looked up, the array says the same as the function. */
  lemma SameByte(used: seq<bool>, map0: seq<Byte>, n: nat, uc: Byte)
    requires |used| == 256 && |map0| == 256 && n == Used(used, 256) && map0[..n] == UsedList(used, 256) && uc < n
    ensures map0[uc] == SeqToUnseq(used)[uc]
  {
    assert map0[uc] == map0[..n][uc] && SeqToUnseq(used)[uc] == SeqToUnseq(used)[..n][uc];
  }

  /** A symbol can only be next after a coding table or a symbol. */
  lemma SymbolsAfterTables(c: Ctl, bs: Bits)
    requires CtlOk(c) && !Stopped(c) && !c.Mtf1? && !c.Mtf2? && |bs| == Need(c)
    ensures !HandleCtl(c, bs).Mtf2? && !HandleCtl(c, bs).Output?
    ensures HandleCtl(c, bs).Mtf1? ==> InTables(c)
  {
    if c.Mapping2? {
      MappingNoSymbols(c.h, c.used16, c.used + bs);
    } else if c.Mapping1? && |c.used16| == 15 {
      MappingNoSymbols(c.h, c.used16 + bs, []);
    }
  }

  lemma {:induction false} MappingNoSymbols(h: Head, used16: seq<bool>, used: seq<bool>)
    requires |used16| == 16 && |used| <= 256
    ensures var c := MappingNext(h, used16, used); c.Failed? || c.Selector1? || c.Mapping2?
    decreases 256 - |used|
  {
    if |used| < 256 && |used| % 16 == 0 && !used16[|used| / 16] {
      MappingNoSymbols(h, used16, used + Zeros(16));
    }
  }

  /** Where the parser goes after a symbol. */
  function After(c: Ctl): Ctl
    requires CtlOk(c) && (c.Mtf1? || c.Mtf2?)
  {
    GetMtf(c.h, c.tb, c.groupNo, c.groupPos)
  }

  ghost function OnSymbolAt(c: Ctl, sym: nat, dec: Decoder): Conf
    requires CtlOk(c) && (c.Mtf1? || c.Mtf2?) && |dec.yy| == 256
  {
    OnSymbol(c.h, c.tb, c.groupNo, c.groupPos, sym, dec)
  }

  lemma AfterOk(c: Ctl)
    requires CtlOk(c) && (c.Mtf1? || c.Mtf2?)
    ensures CtlOk(After(c)) && (After(c).Failed? || (After(c).Mtf1? && After(c).tb == c.tb))
  {
    GetMtfOk(c.h, c.tb, c.groupNo, c.groupPos);
  }

  lemma OnDigit(c: Ctl, sym: nat, dec: Decoder)
    requires CtlOk(c) && (c.Mtf1? || c.Mtf2?) && |dec.yy| == 256 && sym <= RUNB
    ensures OnSymbolAt(c, sym, dec) ==
            if dec.weight >= RUN_GUARD then Conf(Failed(BadData), dec)
            else Conf(After(c), Decoder(dec.yy, dec.run + (sym + 1) * dec.weight, 2 * dec.weight, dec.out))
  {
    hide Used, UsedList;
  }

  lemma OnPosition(c: Ctl, sym: nat, dec: Decoder)
    requires CtlOk(c) && (c.Mtf1? || c.Mtf2?) && |dec.yy| == 256 && RUNB < sym < Alpha(c.tb.used) - 1
    ensures var m := SeqToUnseq(c.tb.used);
            var f := Flushed(m, dec);
            OnSymbolAt(c, sym, dec) ==
            if |dec.out| + dec.run + 1 > 100_000 * c.h.level then Conf(Failed(BadData), dec)
            else Conf(After(c), Decoder(MoveFront(f.yy, sym - 1), 0, 1, f.out + [m[f.yy[sym - 1]]]))
  {
    hide Used, UsedList, MoveFront;
  }

  lemma OnEnd(c: Ctl, dec: Decoder)
    requires CtlOk(c) && (c.Mtf1? || c.Mtf2?) && |dec.yy| == 256
    ensures var f := Flushed(SeqToUnseq(c.tb.used), dec);
            OnSymbolAt(c, Alpha(c.tb.used) - 1, dec) ==
            if |f.out| > 100_000 * c.h.level || c.h.orig >= |f.out| then Conf(Failed(BadData), dec) else Conf(Output(c.h, f.out), f)
  {
    hide Used, UsedList;
  }

  class Receiver {
    const rd: Reader
    const list: MtfList
    const col: Column
    /** The run of zeros being read: its value so far, and the weight of the next digit. */
    var run: nat
    var weight: nat
    var tables: seq<DecodeTable>

    /** The list, the run and the column, once there are symbols. */
    ghost var dec: Decoder

    ghost function Own(): set<object> {
      {this as object, rd, list, list.mtfa, list.mtfbase, col} + rd.Arrays() + col.Arrays()
    }

    ghost predicate Apart() {
      Distinct(rd, list, col)
    }

    static ghost predicate Distinct(rd: Reader, list: MtfList, col: Column) {
      && rd.Shape() && col.Fixed()
      && rd.Arrays() !! {list.mtfa as object, list.mtfbase} && rd.Arrays() !! col.Arrays()
      && {list.mtfa as object, list.mtfbase} !! col.Arrays()
    }

    ghost predicate InMtf()
      reads rd
    {
      rd.ctl.Mtf1? || rd.ctl.Mtf2?
    }

    /** The symbols read so far, with `n` bytes in use. */
    ghost predicate InSymbols(tb: Tables, n: nat)
      reads this, list, list.mtfa, list.mtfbase, col, col.Arrays()
    {
      && dec == Decoder(list.yy, run, weight, col.s) && col.Receiving() && TablesFor(tables, tb.lens) && Low(list.yy, n)
    }

    ghost predicate Place()
      reads rd, rd.Arrays(), this`dec
    {
      rd.Valid() && Ok(Conf(rd.ctl, dec)) == true
    }

    ghost predicate Valid()
      reads this, Own()
    {
      && Apart() && list.Valid() && Place()
      && (InMtf() ==> InSymbols(rd.ctl.tb, rd.nInUse))
      && (rd.ctl.Output? ==>
            col.Walking() && rd.ctl.column == col.s && rd.ctl.h.orig == col.orig && |col.s| <= 100_000 * rd.ctl.h.level)
    }

    constructor (small: bool)
      ensures Valid() && rd.ctl == Magic(0) && dec == StartDecoder() && col.small == small && fresh(Own())
    {
      var rd0, list0, col0 := NewParts(small);
      rd, list, col := rd0, list0, col0;
      run, weight, tables, dec := 0, 1, [], StartDecoder();
      new;
      hide TwoLevel, Reader.Shows, Used, Count, Low, TablesFor, InSymbols, Reader.Arrays, Column.Arrays;
    }

    static method NewParts(small: bool) returns (rd: Reader, list: MtfList, col: Column)
      ensures Distinct(rd, list, col) && rd.Valid() && rd.ctl == Magic(0) && list.Valid() && col.small == small
      ensures fresh({rd as object, list, list.mtfa, list.mtfbase, col}) && fresh(rd.Arrays()) && fresh(col.Arrays())
    {
      hide TwoLevel, Reader.Shows;
      rd := new Reader();
      list := new MtfList();
      col := new Column(small);
    }

    // ----- Head and tables.

    /** Makes the tables and clears the counts and the list. */
    method StartSymbols(ghost tb: Tables)
      requires Apart() && list.Valid() && rd.Valid() && CtlOk(rd.ctl) && rd.ctl.Mtf1? && rd.ctl.tb == tb && dec == StartDecoder()
      modifies this`run, this`weight, this`tables, list, list.mtfa, list.mtfbase, col`nblock, col`s, col.unzftab
      ensures list.Valid() && InSymbols(tb, rd.nInUse)
    {
      hide TableFor, Count, Used, UsedList, TwoLevel, Reader.BytesKnown;
      RowsKnown(tb);
      tables := MakeDecodeTables(rd.len, rd.nGroups, rd.alphaSize, tb.lens);
      list.Init();
      run, weight := 0, 1;
      col.Clear();
    }

    lemma RowsKnown(tb: Tables)
      requires rd.Valid() && CtlOk(rd.ctl) && InMtf() && rd.ctl.tb == tb
      ensures rd.Shape() && |tb.lens| == rd.nGroups && 0 < rd.alphaSize <= MAX_ALPHA_SIZE && LensOk(tb.lens, rd.alphaSize)
      ensures forall t :: 0 <= t < |tb.lens| ==> IsRow(rd.len, t, tb.lens[t])
      ensures rd.alphaSize == Alpha(tb.used) && rd.nInUse == Used(tb.used, 256) <= 256
    {
      hide UsedList, SelOk;
      forall t | 0 <= t < |tb.lens|
        ensures IsRow(rd.len, t, tb.lens[t])
      {
        assert rd.RowIs(t, tb.lens[t]);
      }
    }

    /** The reader's turn. */
    method ReaderTurn(v: nat, ghost bs: Bits)
      requires Apart() && list.Valid() && Place() && !Stopped(rd.ctl) && !InMtf() && |bs| == Need(rd.ctl) && v == Val(bs)
      modifies this`dec, rd, rd.Arrays()
      ensures Place() && Conf(rd.ctl, dec) == Handle(old(Conf(rd.ctl, dec)), bs)
      ensures !rd.ctl.Mtf2? && !rd.ctl.Output? && (rd.ctl.Mtf1? ==> dec == StartDecoder())
    {
      hide HandleCtl, Reader.Shows, Val;
      ghost var x := Conf(rd.ctl, dec);
      HandleOk(x, bs);
      SymbolsAfterTables(rd.ctl, bs);
      rd.Turn(v, bs);
      dec := if InTables(x.ctl) then StartDecoder() else dec;
    }

    /** A turn outside the symbols. */
    method CtlTurn(v: nat, ghost bs: Bits)
      requires Valid() && !Stopped(rd.ctl) && !InMtf() && |bs| == Need(rd.ctl) && v == Val(bs)
      modifies Own()
      ensures Valid() && Conf(rd.ctl, dec) == Handle(old(Conf(rd.ctl, dec)), bs) && !rd.ctl.Output?
    {
      hide TablesFor, Count, Handle, HandleCtl, TwoLevel, Reader.Shows, Val, InSymbols, Column.Walking, Column.Receiving,
           Reader.Valid, Column.Fixed;
      ReaderTurn(v, bs);
      rd.Labels();
      if rd.state == X_MTF_1 {
        StartSymbols(rd.ctl.tb);
      }
    }

    // ----- Symbols.

    /** The pending run as copies of the byte at the front. */
    method FlushRun(ghost tb: Tables)
      requires Valid() && InMtf() && rd.ctl.tb == tb && col.nblock + run <= LARGEST
      modifies this`run, this`weight, this`dec, col`nblock, col`s, col.tt, col.ll16, col.unzftab
      ensures col.nblock == old(col.nblock + run)
      ensures list.Valid() && InSymbols(tb, rd.nInUse) && run == 0 && |old(dec).yy| == 256 && dec == Flushed(SeqToUnseq(tb.used), old(dec))
    {
      hide TablesFor, SeqToUnseq, Count, Used, UsedList, Reader.Shows, TwoLevel, Column.Fixed;
      KnownBytes(tb);
      var uc := list.First();
      SameByte(tb.used, rd.seqToUnseq[..], rd.nInUse, uc);
      col.PutRun(rd.seqToUnseq[uc], run);
      dec := Flushed(SeqToUnseq(tb.used), dec);
      run, weight := 0, 1;
    }

    lemma KnownBytes(tb: Tables)
      requires rd.Valid() && CtlOk(rd.ctl) && InMtf() && rd.ctl.tb == tb
      ensures rd.Shape() && |tb.used| == 256 && 0 < rd.nInUse == Used(tb.used, 256) <= 256
      ensures |rd.seqToUnseq[..]| == 256 && rd.seqToUnseq[..][..rd.nInUse] == UsedList(tb.used, 256)
    {
      hide Used, UsedList;
      assert rd.seqToUnseq[..][..rd.nInUse] == rd.seqToUnseq[..rd.nInUse];
    }

    lemma HeadKnown()
      requires rd.Valid() && (InMtf() || rd.ctl.Output?)
      ensures rd.blockSize100k == rd.ctl.h.level && rd.origPtr == rd.ctl.h.orig && rd.storedBlockCRC == rd.ctl.h.crc
    {
      hide Used, UsedList;
    }

    /** The byte at a position of the list, which moves to the front. */
    method PutNext(ghost tb: Tables, sym: nat)
      requires Apart() && list.Valid() && rd.Valid() && CtlOk(rd.ctl) && InMtf() && rd.ctl.tb == tb && InSymbols(tb, rd.nInUse)
      requires run == 0 && RUNB < sym < Alpha(tb.used) - 1 && col.nblock < LARGEST
      modifies this`dec, list, list.mtfa, list.mtfbase, col`nblock, col`s, col.tt, col.ll16, col.unzftab
      ensures list.Valid() && InSymbols(tb, rd.nInUse)
      ensures dec == old(Decoder(MoveFront(dec.yy, sym - 1), 0, dec.weight, dec.out + [SeqToUnseq(tb.used)[dec.yy[sym - 1]]]))
    {
      hide TablesFor, SeqToUnseq, Count, Used, UsedList, TwoLevel, Reader.Shows, Column.Fixed;
      KnownBytes(tb);
      MoveKeepsLow(list.yy, rd.nInUse, sym - 1);
      SameByte(tb.used, rd.seqToUnseq[..], rd.nInUse, list.yy[sym - 1]);
      hide MoveFront;
      var uc := list.Move(sym - 1);
      col.Put(rd.seqToUnseq[uc]);
      dec := Decoder(list.yy, 0, dec.weight, col.s);
    }

    /** On to the next symbol. */
    method GoOn(ghost c: Ctl)
      requires Apart() && list.Valid() && rd.Valid() && rd.ctl == c && CtlOk(c) && InMtf() && InSymbols(c.tb, rd.nInUse)
      modifies rd`state, rd`groupNo, rd`groupPos, rd`ctl
      ensures Valid() && rd.ctl == After(c) && !rd.ctl.Output?
    {
      hide InSymbols, Reader.Shows, GetMtf, Used;
      assert |dec.yy| == 256 by {
        DecoderLength(c.tb);
      }
      AfterOk(c);
      rd.NextIn();
    }

    lemma Amounts()
      requires Valid() && InMtf()
      ensures col.nblock == |dec.out| && run == dec.run && |dec.yy| == 256
      ensures rd.blockSize100k == rd.ctl.h.level <= 9
    {
      hide TablesFor, Count, Used, UsedList, TwoLevel, Low;
    }

    lemma DecoderLength(tb: Tables)
      requires InSymbols(tb, rd.nInUse)
      ensures |dec.yy| == 256
    {
    }

    /** Something is wrong. */
    method Bad()
      requires Apart() && list.Valid() && |dec.yy| == 256
      modifies rd`state, rd`ctl
      ensures Valid() && rd.ctl == Failed(BadData)
    {
      hide Reader.Shows;
      rd.Fail();
    }

    /** A run digit. */
    method TakeDigit(ghost c: Ctl, sym: nat)
      requires Valid() && InMtf() && rd.ctl == c && sym <= RUNB
      modifies this`run, this`weight, this`dec, rd
      ensures Valid() && Conf(rd.ctl, dec) == OnSymbolAt(c, sym, old(dec)) && !rd.ctl.Output?
    {
      hide TablesFor, SeqToUnseq, Count, Used, UsedList, TwoLevel, Reader.Shows, OnSymbolAt, After, Own;
      OnDigit(c, sym, dec);
      // The digit's weight is bounded so that the run cannot overflow.
      if weight >= RUN_GUARD {
        Bad();
      } else {
        run := run + (sym + 1) * weight;
        weight := weight * 2;
        dec := Decoder(dec.yy, run, weight, dec.out);
        GoOn(c);
      }
    }

    /** A position in the list. */
    method TakePosition(ghost c: Ctl, sym: nat)
      requires Valid() && InMtf() && rd.ctl == c && RUNB < sym < Alpha(c.tb.used) - 1
      modifies Own()
      ensures Valid() && Conf(rd.ctl, dec) == OnSymbolAt(c, sym, old(dec)) && !rd.ctl.Output?
    {
      hide TablesFor, SeqToUnseq, Count, Used, UsedList, TwoLevel, Reader.Shows, OnSymbolAt, After, MoveFront, InSymbols,
           Column.Receiving;
      OnPosition(c, sym, dec);
      Amounts();
      if col.nblock + run + 1 > 100_000 * rd.blockSize100k {
        Bad();
      } else {
        PutPosition(c, sym);
        GoOn(c);
      }
    }

    method PutPosition(ghost c: Ctl, sym: nat)
      requires Valid() && InMtf() && rd.ctl == c && RUNB < sym < Alpha(c.tb.used) - 1 && col.nblock + run < LARGEST
      modifies this`run, this`weight, this`dec, list, list.mtfa, list.mtfbase, col`nblock, col`s, col.tt, col.ll16, col.unzftab
      ensures list.Valid() && InSymbols(c.tb, rd.nInUse) && |old(dec).yy| == 256
      ensures var m, d := SeqToUnseq(c.tb.used), old(dec);
              var f := Flushed(m, d);
              dec == Decoder(MoveFront(f.yy, sym - 1), 0, 1, f.out + [m[f.yy[sym - 1]]])
    {
      hide TablesFor, SeqToUnseq, Count, Used, UsedList, TwoLevel, Reader.Shows, MoveFront, InSymbols, Column.Receiving;
      FlushRun(c.tb);
      PutNext(c.tb, sym);
    }

    /** The end of the block: its column is complete. */
    method TakeEnd(ghost c: Ctl)
      requires Valid() && InMtf() && rd.ctl == c
      modifies Own()
      ensures Valid() && Conf(rd.ctl, dec) == OnSymbolAt(c, Alpha(c.tb.used) - 1, old(dec))
      ensures rd.ctl.Output? ==> col.readCount == 0
    {
      hide TablesFor, SeqToUnseq, Count, Used, UsedList, TwoLevel, Reader.Shows, OnSymbolAt, After, InSymbols,
           Column.Receiving;
      OnEnd(c, dec);
      Amounts();
      HeadKnown();
      if col.nblock + run > 100_000 * rd.blockSize100k {
        Bad();
        return;
      }
      ghost var dec0 := dec;
      FlushRun(c.tb);
      if rd.origPtr >= col.nblock {
        dec := dec0;
        Bad();
        return;
      }
      BeginOutput(c);
    }

    method BeginOutput(ghost c: Ctl)
      requires Apart() && list.Valid() && rd.Valid() && rd.ctl == c && CtlOk(c) && InMtf() &&
               InSymbols(c.tb, rd.nInUse) && rd.origPtr < col.nblock <= 100_000 * rd.blockSize100k
      modifies rd`state, rd`ctl, col, col.tt, col.ll16, col.ll4, col.cftab, col.cftabCopy
      ensures Valid() && rd.ctl == Output(c.h, dec.out) && col.readCount == 0
    {
      hide TablesFor, Count, Used, UsedList, TwoLevel, Reader.Shows, Column.Walking, Reader.InSymbols;
      HeadKnown();
      rd.ToOutput(col.s);
      col.Prepare(rd.origPtr);
    }

    /** What the bits of a symbol read so far lead to: GET_MTF_VAL's comparison with the limits. */
    method SymbolTurn(ghost c: Ctl, n: nat, v: nat, ghost z: Bits)
      requires Valid() && InMtf() && rd.ctl == c && n == |z| && v == Val(z)
      modifies Own()
      ensures Valid() && Conf(rd.ctl, dec) == CheckCode(c.h, c.tb, c.groupNo, c.groupPos, z, old(dec))
      ensures rd.ctl.Output? ==> col.readCount == 0
    {
      hide TableFor, SeqToUnseq, Count, Used, UsedList, TwoLevel, Reader.Shows, OnSymbol, Val, Column.Walking, Apart;
      TableInRange(c.tb, c.groupNo);
      CurrentTable(c);
      var r := FindSymbol(tables[rd.selector[rd.groupNo]], n, v, z, c.tb.lens[c.tb.sel[c.groupNo]]);
      match r {
        case Found(sym) =>
          FoundInAlphabet(c.tb.lens[c.tb.sel[c.groupNo]], z);
          TakeSymbol(c, sym);
        case More =>
          Wait(c, n, v, z);
        case Bad =>
          Bad();
      }
    }

    /** More bits are needed for the symbol. */
    method Wait(ghost c: Ctl, n: nat, v: nat, ghost z: Bits)
      requires Valid() && InMtf() && rd.ctl == c && n == |z| && v == Val(z)
      modifies rd`state, rd`zn, rd`zvec, rd`ctl
      ensures Valid() && rd.ctl == Mtf2(c.h, c.tb, c.groupNo, c.groupPos, z)
    {
      hide InSymbols, Reader.Shows, Used, UsedList, TwoLevel, Val;
      rd.WaitForMore(n, v, z);
    }

    lemma CurrentTable(c: Ctl)
      requires Valid() && InMtf() && rd.ctl == c
      ensures 0 <= rd.groupNo == c.groupNo < |c.tb.sel| && rd.groupNo < rd.selector.Length
      ensures rd.selector[rd.groupNo] == c.tb.sel[c.groupNo] < |tables|
      ensures TableFor(tables[c.tb.sel[c.groupNo]], c.tb.lens[c.tb.sel[c.groupNo]])
    {
      hide TableFor, Count, Used, UsedList, TwoLevel, Column.Receiving;
      assert rd.selector[rd.groupNo] == rd.selector[..rd.nSelectors][rd.groupNo];
    }

    method TakeSymbol(ghost c: Ctl, sym: nat)
      requires Valid() && InMtf() && rd.ctl == c && sym < Alpha(c.tb.used)
      modifies Own()
      ensures Valid() && Conf(rd.ctl, dec) == OnSymbolAt(c, sym, old(dec))
      ensures rd.ctl.Output? ==> col.readCount == 0
    {
      hide OnSymbolAt, Used, UsedList, TwoLevel, Reader.Shows, InSymbols, Column.Receiving, Column.Walking;
      KnownBytes(c.tb);
      if sym == rd.nInUse + 1 {
        TakeEnd(c);
      } else if sym <= RUNB {
        TakeDigit(c, sym);
      } else {
        TakePosition(c, sym);
      }
    }

    // ----- Any turn.

    /** How many bits are asked for. */
    function Asks(): (n: nat)
      requires Valid() && !Stopped(rd.ctl)
      reads this, Own()
      ensures n == Need(rd.ctl)
    {
      rd.Labels();
      if rd.state == X_MTF_1 then
        CurrentTable(rd.ctl);
        tables[rd.selector[rd.groupNo]].minLen
      else rd.Asks()
    }

    /** What follows a request for bits. */
    method Turn(n: nat, v: nat, ghost bs: Bits)
      requires Valid() && !Stopped(rd.ctl) && n == |bs| == Need(rd.ctl) && v == Val(bs)
      modifies Own()
      ensures Valid() && Conf(rd.ctl, dec) == Handle(old(Conf(rd.ctl, dec)), bs)
      ensures rd.ctl.Output? ==> col.readCount == 0
    {
      hide Reader.Shows, Used, UsedList, Column.Receiving, Column.Walking, TwoLevel, InSymbols, CheckCode, HandleCtl, Val;
      rd.Labels();
      if rd.state == X_MTF_1 {
        SymbolTurn(rd.ctl, n, v, bs);
      } else if rd.state == X_MTF_2 {
        BitsSoFar(bs);
        SymbolTurn(rd.ctl, rd.zn + 1, rd.zvec * 2 + v, rd.ctl.zvec + bs);
      } else {
        CtlTurn(v, bs);
      }
    }

    lemma BitsSoFar(bs: Bits)
      requires rd.Valid() && rd.ctl.Mtf2? && |bs| == 1
      ensures rd.zn == |rd.ctl.zvec| && rd.zvec * 2 + Val(bs) == Val(rd.ctl.zvec + bs)
    {
      hide Used, UsedList;
      BitValue(bs);
      ValPush(rd.ctl.zvec, bs[0]);
    }

    // ----- The output stage.

    lemma Size()
      requires Valid() && rd.ctl.Output?
      ensures col.nblock == |col.s| && rd.ctl.column == col.s && rd.ctl.h.orig == col.orig < |col.s|
    {
      hide TwoLevel, Reader.Shows, Packs, WalksFrom, IsCumTable, IsWalkTable, RowAfter, InSymbols;
    }

    lemma Stored()
      requires Valid()
      ensures rd.ctl.Output? ==> rd.storedBlockCRC == rd.ctl.h.crc
      ensures rd.ctl.End? ==> rd.storedCombinedCRC == rd.ctl.stored
    {
      hide TwoLevel, Used, UsedList, InSymbols, Column.Walking;
    }

    lemma RowInRange()
      requires Valid() && rd.ctl.Output?
      ensures col.tPos < 100_000 * rd.blockSize100k
    {
      hide TwoLevel, Packs, WalksFrom, IsCumTable, IsWalkTable, InSymbols, Used, UsedList;
    }

    /** The next byte of the block.  The code's check that the row is in range cannot fail, on damaged input either. */
    method GetByte() returns (c: Byte)
      requires Valid() && rd.ctl.Output?
      modifies col`tPos, col`readCount
      ensures old(col.tPos) < 100_000 * rd.blockSize100k
      ensures Valid() && col.orig < |col.s| && c == ReadAt(col.s, col.orig, old(col.readCount)) && col.readCount == old(col.readCount) + 1
    {
      hide TwoLevel, Reader.Shows, Column.Walking, Column.Receiving, InSymbols;
      RowInRange();
      c := col.Get();
    }

    /** The block has been written out. */
    method ToNextBlock()
      requires Valid() && rd.ctl.Output? && HeadOk(rd.ctl.h)
      modifies rd`state, rd`ctl
      ensures Valid() && rd.ctl == BlkHdr(old(rd.ctl.h.level), 0)
    {
      hide TwoLevel, Reader.Shows, Column.Walking, Column.Receiving, InSymbols;
      rd.ToNextBlock();
    }

    /** The block turned out to be damaged. */
    method Damaged()
      requires Valid()
      modifies rd`state, rd`ctl
      ensures Valid() && rd.ctl == Failed(BadData)
    {
      hide TwoLevel, Reader.Shows, Column.Walking, Column.Receiving, InSymbols;
      Bad();
    }
  }
}
