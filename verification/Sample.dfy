/** The format on one file: that these bytes stand for that text is worked out piece by piece, so that none of the conventions
    (the order of bits, the checksum, the direction of the sort, the symbols, the codes) can be another one.
 */
module Sample {
  import opened BitIO
  import opened Bits
  import opened BlockParser
  import opened BlockPrinter
  import opened Crc
  import opened Format
  import opened FormatPrinted
  import opened HuffmanCodes
  import opened InverseBwt
  import opened MoveToFront
  import opened MtfEncoder
  import opened Rotations
  import opened RunLength
  import opened Verified

  /** aaaabbb */
  const TEXT: seq<Byte> := [97, 97, 97, 97, 98, 98, 98]

  const HEADER: seq<Byte> := [0x42, 0x5a, 0x68, 0x31]
  const BLOCK_START: seq<Byte> := [0x31, 0x41, 0x59, 0x26, 0x53, 0x59]
  const BODY: seq<Byte> :=
    [0x00, 0x00, 0x02, 0x41, 0x00, 0x40, 0x00, 0x30, 0x00, 0x20, 0x00, 0x21, 0x26, 0x41, 0x98, 0x42, 0xd7]
  const TRAILER: seq<Byte> := [0x17, 0x72, 0x45, 0x38, 0x50, 0x90]

  // ----- Bits as numbers.

  lemma {:induction false} Join(m: nat, x: nat, n: nat, y: nat, p: nat)
    requires Pow2(n) == p && y < p
    ensures ToBits(m, x) + ToBits(n, y) == ToBits(m + n, x * p + y)
    decreases n
  {
    if n == 0 {
      assert ToBits(m, x) + [] == ToBits(m, x);
    } else {
      var q := Pow2(n - 1);
      Halves(x, y, p, q);
      Join(m, x, n - 1, y / 2, q);
      Assoc(ToBits(m, x), ToBits(n - 1, y / 2), [y % 2 == 1]);
    }
  }

  lemma Halves(x: nat, y: nat, p: nat, q: nat)
    requires p == 2 * q
    ensures (x * p + y) / 2 == x * q + y / 2 && (x * p + y) % 2 == y % 2
  {
    assert x * p == 2 * (x * q);
  }

  lemma SmallPowers()
    ensures Pow2(1) == 2 && Pow2(2) == 4 && Pow2(3) == 8 && Pow2(5) == 32 && Pow2(9) == 512
    ensures Pow2(12) == 0x1000 && Pow2(13) == 0x2000
  {
    assert Pow2(4) == 16 && Pow2(6) == 64 && Pow2(8) == 0x100 && Pow2(10) == 0x400;
    assert Pow2(7) == 128 && Pow2(11) == 2048;
  }

  /** The bytes as one number. */
  function NumberOf(s: seq<Byte>, k: nat): nat
    requires k <= |s|
  {
    if k == 0 then 0 else 0x100 * NumberOf(s, k - 1) + s[k - 1]
  }

  lemma {:induction false} BytesAreNumber(s: seq<Byte>, k: nat)
    requires k <= |s|
    ensures BytesToBits(s[..k]) == ToBits(8 * k, NumberOf(s, k))
    decreases k
  {
    hide ToBits;
    if k == 0 {
      assert ToBits(0, 0) == [];
      assert s[..0] == [];
    } else {
      BytesAreNumber(s, k - 1);
      BytesToBitsPush(s[..k - 1], s[k - 1]);
      assert s[..k - 1] + [s[k - 1]] == s[..k];
      Powers();
      Join(8 * (k - 1), NumberOf(s, k - 1), 8, s[k - 1], 0x100);
    }
  }

  lemma BodyNumber()
    ensures BytesToBits(BODY) == ToBits(136, 0x0000_0241_0040_0030_0020_0021_2641_9842_d7)
  {
    hide ToBits, BytesToBits;
    assert NumberOf(BODY, 4) == 0x0241 && NumberOf(BODY, 6) == 0x0241_0040 && NumberOf(BODY, 8) == 0x0241_0040_0030;
    assert NumberOf(BODY, 10) == 0x0241_0040_0030_0020 && NumberOf(BODY, 12) == 0x0241_0040_0030_0020_0021;
    assert NumberOf(BODY, 14) == 0x0241_0040_0030_0020_0021_2641;
    assert NumberOf(BODY, 16) == 0x0241_0040_0030_0020_0021_2641_9842;
    assert BODY[..17] == BODY;
    BytesAreNumber(BODY, 17);
  }

  lemma MapField()
    ensures ToBits(16, 0x8200) + (ToBits(16, 0x8000) + ToBits(16, 0x6000)) == ToBits(48, 0x8200_8000_6000)
  {
    hide ToBits;
    Powers();
    Join(16, 0x8000, 16, 0x6000, 0x1_0000);
    Join(16, 0x8200, 32, 0x8000_6000, 0x1_0000_0000);
  }

  lemma SelectorField()
    ensures ToBits(3, 2) + ToBits(15, 1) + ToBits(1, 0) == ToBits(19, 0x2_0002)
  {
    hide ToBits;
    SmallPowers();
    Powers();
    Join(3, 2, 15, 1, 0x8000);
    Join(18, 0x1_0001, 1, 0, 2);
  }

  /** The fields of the block, from the bit behind the checksum on. */
  lemma BodyFields(a: Bits, m: Bits, s: Bits, l: Bits, c: Bits)
    requires a == ToBits(25, 4) && m == ToBits(48, 0x8200_8000_6000) && s == ToBits(19, 0x2_0002)
    requires l == ToBits(28, 0x126_4198) && c == ToBits(16, 0x42d7)
    ensures a + m + s + l + c == ToBits(136, 0x0000_0241_0040_0030_0020_0021_2641_9842_d7)
  {
    hide ToBits;
    Powers();
    PowersOfFields();
    Join(25, 4, 48, 0x8200_8000_6000, 0x1_0000_0000_0000);
    Join(73, 0x4_8200_8000_6000, 19, 0x2_0002, 0x8_0000);
    Join(92, 0x24_1004_0003_0002_0002, 28, 0x126_4198, 0x1000_0000);
    Join(120, 0x2_4100_4000_3000_2000_2126_4198, 16, 0x42d7, 0x1_0000);
  }

  lemma PowersOfFields()
    ensures Pow2(48) == 0x1_0000_0000_0000 && Pow2(19) == 0x8_0000 && Pow2(28) == 0x1000_0000
  {
    Powers();
    ScaleScale(1, 16, 32);
    ScaleIsTimes(0x1_0000, 32);
    assert Pow2(20) == 2 * Pow2(19) && Pow2(32) == 2 * Pow2(31) && Pow2(31) == 2 * Pow2(30) && Pow2(30) == 2 * Pow2(29);
    assert Pow2(29) == 2 * Pow2(28);
  }

  lemma {:induction false} ScaleIsTimes(a: nat, k: nat)
    ensures Scale(a, k) == a * Pow2(k)
  {
    if k > 0 {
      ScaleIsTimes(a, k - 1);
      assert a * (2 * Pow2(k - 1)) == 2 * (a * Pow2(k - 1));
    }
  }

  // ----- The block.

  const BLOCK: seq<Byte> := [97, 97, 97, 97, 0, 98, 98, 98]
  const COLUMN: seq<Byte> := [97, 97, 97, 97, 98, 98, 98, 0]

  lemma NextByte(k: nat)
    requires k < 8
    ensures UnRle(BLOCK[..k + 1]) == RleStep(UnRle(BLOCK[..k]), BLOCK[k])
  {
    UnRlePush(BLOCK[..k], BLOCK[k]);
    assert BLOCK[..k] + [BLOCK[k]] == BLOCK[..k + 1];
  }

  /** Four equal bytes and a count. */
  lemma BlockOfText()
    ensures Complete(BLOCK) && UnRle(BLOCK).out == TEXT
  {
    assert UnRle(BLOCK[..0]) == Rle(NO_BYTE, 0, []);
    hide UnRle;
    NextByte(0);
    NextByte(1);
    NextByte(2);
    NextByte(3);
    assert UnRle(BLOCK[..4]) == Rle(97, 4, [97, 97, 97, 97]);
    NextByte(4);
    assert UnRle(BLOCK[..5]) == Rle(NO_BYTE, 0, [97, 97, 97, 97]);
    NextByte(5);
    NextByte(6);
    NextByte(7);
    assert BLOCK[..8] == BLOCK;
  }

  // ----- The sorted order.

  lemma {:induction false} Below(s: seq<int>, c: nat, k: nat)
    requires k <= |s| && forall i :: 0 <= i < |s| ==> 0 <= s[i]
    ensures Cum(s[..k], c) == NumberBelow(s, c, k)
    decreases k
  {
    if k == 0 {
      assert s[..0] == [];
      CumEmpty(c);
    } else {
      Below(s, c, k - 1);
      CumPush(s[..k - 1], s[k - 1], c);
      assert s[..k - 1] + [s[k - 1]] == s[..k];
    }
  }

  function NumberBelow(s: seq<int>, c: nat, k: nat): nat
    requires k <= |s|
  {
    if k == 0 then 0 else NumberBelow(s, c, k - 1) + if s[k - 1] < c then 1 else 0
  }

  function NumberOfSame(s: seq<int>, c: int, k: nat): nat
    requires k <= |s|
  {
    if k == 0 then 0 else NumberOfSame(s, c, k - 1) + if s[k - 1] == c then 1 else 0
  }

  lemma {:induction false} Same(s: seq<int>, c: int, k: nat)
    requires k <= |s|
    ensures Count(s[..k], c) == NumberOfSame(s, c, k)
    decreases k
  {
    if k > 0 {
      Same(s, c, k - 1);
      InverseBwt.CountPush(s, c, k - 1);
    } else {
      assert s[..0] == [];
    }
  }

  /** Where the row that a row leads to in the encoder is found. */
  lemma Link(i: nat, r: nat)
    requires i < 8 && r == if i == 7 then 0 else i + 1
    ensures LF(COLUMN, i) == r && Back(COLUMN)[r] == i
  {
    hide Count, Cum, Back;
    Below(COLUMN, COLUMN[i], 8);
    assert COLUMN[..8] == COLUMN;
    Same(COLUMN, COLUMN[i], i);
    Ranks(i);
    BackOfLF(COLUMN, i);
  }

  lemma Ranks(i: nat)
    requires i < 8
    ensures NumberBelow(COLUMN, COLUMN[i], 8) == (if i < 4 then 1 else if i < 7 then 5 else 0)
    ensures NumberOfSame(COLUMN, COLUMN[i], i) == (if i < 4 then i else if i < 7 then i - 4 else 0)
  {
    var c := COLUMN[i];
    assert NumberBelow(COLUMN, c, 4) == if c > 97 then 4 else 0;
    assert NumberBelow(COLUMN, c, 6) == if c > 97 then 4 else 0;
    assert NumberOfSame(COLUMN, c, 2) == if c == 97 then 2 else 0;
    assert NumberOfSame(COLUMN, c, 4) == if c == 97 then 4 else 0;
    assert NumberOfSame(COLUMN, c, 6) == if c == 97 then 4 else if c == 98 then 2 else 0;
  }

  lemma BlockOfColumn()
    ensures Unsorted(COLUMN, 4) == BLOCK
  {
    hide Back;
    Link(0, 1);
    Link(1, 2);
    Link(2, 3);
    Link(3, 4);
    Link(4, 5);
    Link(5, 6);
    Link(6, 7);
    Link(7, 0);
    assert RowAfter(COLUMN, 4, 0) == 4;
    assert RowAfter(COLUMN, 4, 1) == 3;
    assert RowAfter(COLUMN, 4, 2) == 2;
    assert RowAfter(COLUMN, 4, 3) == 1;
    assert RowAfter(COLUMN, 4, 4) == 0;
    assert RowAfter(COLUMN, 4, 5) == 7;
    assert RowAfter(COLUMN, 4, 6) == 6;
    assert RowAfter(COLUMN, 4, 7) == 5;
    assert RowAfter(COLUMN, 4, 8) == 4;
    var u := Unsorted(COLUMN, 4);
    assert u[0] == 97 && u[1] == 97 && u[2] == 97 && u[3] == 97 && u[4] == 0 && u[5] == 98 && u[6] == 98 && u[7] == 98;
  }

  // ----- The bytes in use.

  function InUse(): (r: seq<bool>)
    ensures |r| == 256
  {
    seq(256, i => i == 0 || i == 97 || i == 98)
  }

  lemma {:induction false} UsedUpTo(c: nat)
    requires c <= 256
    ensures Used(InUse(), c) == (if c > 0 then 1 else 0) + (if c > 97 then 1 else 0) + (if c > 98 then 1 else 0)
  {
    if c > 0 {
      UsedUpTo(c - 1);
    }
  }

  lemma {:induction false} NoBits(n: nat)
    ensures ToBits(n, 0) == Zeros(n)
  {
    if n > 0 {
      NoBits(n - 1);
      assert Zeros(n - 1) + [false] == Zeros(n);
    }
  }

  lemma SmallNumbers()
    ensures ToBits(1, 1) == [true] && ToBits(3, 3) == [false, true, true] && ToBits(7, 0x41) == ToBits(6, 0x20) + [true]
  {
    assert ToBits(2, 1) == [false, true];
  }

  lemma MarkNumber()
    ensures ToBits(16, 0x8200) == [true] + Zeros(5) + [true] + Zeros(9)
  {
    hide ToBits, Zeros;
    SmallNumbers();
    SmallPowers();
    NoBits(5);
    NoBits(9);
    Join(1, 1, 5, 0, 0x20);
    Join(7, 0x41, 9, 0, 0x200);
  }

  lemma RowNumbers()
    ensures ToBits(16, 0x8000) == [true] + Zeros(15) && ToBits(16, 0x6000) == [false, true, true] + Zeros(13)
  {
    hide ToBits, Zeros;
    SmallNumbers();
    SmallPowers();
    Powers();
    NoBits(13);
    NoBits(15);
    Join(1, 1, 15, 0, 0x8000);
    Join(3, 3, 13, 0, 0x2000);
  }

  lemma RowsInUse()
    ensures Map16(InUse()) == [true] + Zeros(5) + [true] + Zeros(9)
    ensures InUse()[0..16] == [true] + Zeros(15) && InUse()[96..112] == [false, true, true] + Zeros(13)
  {
    var u := InUse();
    forall i | 0 <= i < 16
      ensures GroupUsed(u, i) == (i == 0 || i == 6)
    {
      var row := u[16 * i..16 * i + 16];
      assert i == 0 ==> row[0];
      assert i == 6 ==> row[1];
      assert i != 0 && i != 6 ==> forall j :: 0 <= j < 16 ==> !row[j];
    }
  }

  lemma MapBits()
    ensures PrintMap(InUse()) == ToBits(16, 0x8200) + (ToBits(16, 0x8000) + ToBits(16, 0x6000))
  {
    MarkNumber();
    RowNumbers();
    RowsInUse();
    RowsUpTo(16);
    hide ToBits, Map16, MapRows, InUse;
  }

  lemma {:induction false} RowsUpTo(k: nat)
    requires k <= 16
    ensures MapRows(InUse(), k) == (if k > 0 then InUse()[0..16] else []) + if k > 6 then InUse()[96..112] else []
  {
    var u := InUse();
    if k > 0 {
      RowsUpTo(k - 1);
      var row := u[16 * (k - 1)..16 * (k - 1) + 16];
      assert k == 1 ==> row[0];
      assert k == 7 ==> row[1];
      assert k != 1 && k != 7 ==> forall j :: 0 <= j < 16 ==> !row[j];
    }
  }

  // ----- The symbols.

  const POSITIONS: seq<Byte> := [1, 1, 1, 1, 2, 2, 2, 0]

  lemma ColumnPositions()
    ensures AllUsed(InUse(), COLUMN) && Seqs(InUse(), COLUMN) == POSITIONS && Used(InUse(), 256) == 3
  {
    UsedUpTo(0);
    UsedUpTo(97);
    UsedUpTo(98);
    UsedUpTo(256);
  }

  lemma NextPosition(k: nat)
    requires k < 8
    ensures Positions(POSITIONS[..k], 3) && Positions(POSITIONS[..k + 1], 3)
    ensures Coded(3, POSITIONS[..k + 1]) == CoderStep(Coded(3, POSITIONS[..k]), POSITIONS[k])
  {
    assert POSITIONS[..k + 1][..k] == POSITIONS[..k];
  }

  lemma Runs()
    ensures Run(0) == [] && Run(2) == [1] && Run(3) == [0, 0]
  {
    assert Run(1) == [0];
  }

  lemma NothingCoded()
    ensures Positions(POSITIONS[..0], 3) && Coded(3, POSITIONS[..0]) == Coder([0, 1, 2], 0, [])
  {
    assert Identity(3) == [0, 1, 2] && POSITIONS[..0] == [];
  }

  lemma OneCoded()
    ensures Positions(POSITIONS[..1], 3) && Coded(3, POSITIONS[..1]) == Coder([1, 0, 2], 0, [2])
  {
    Runs();
    NothingCoded();
    hide Run, Coded, Positions;
    NextPosition(0);
    assert Pos([0, 1, 2], 1) == 1 && MoveFront([0, 1, 2], 1) == [1, 0, 2];
  }

  lemma FirstCoded()
    ensures Positions(POSITIONS[..4], 3) && Coded(3, POSITIONS[..4]) == Coder([1, 0, 2], 3, [2])
  {
    OneCoded();
    hide Run, Coded, Pos, MoveFront, Positions;
    NextPosition(1);
    NextPosition(2);
    NextPosition(3);
  }

  lemma MiddleCoded()
    ensures Positions(POSITIONS[..7], 3) && Coded(3, POSITIONS[..7]) == Coder([2, 1, 0], 2, [2, 0, 0, 3])
  {
    Runs();
    FirstCoded();
    hide Run, Coded;
    NextPosition(4);
    assert Pos([1, 0, 2], 2) == 2 && MoveFront([1, 0, 2], 2) == [2, 1, 0];
    hide Pos, MoveFront;
    assert Coded(3, POSITIONS[..5]) == Coder([2, 1, 0], 0, [2, 0, 0, 3]);
    NextPosition(5);
    NextPosition(6);
  }

  lemma LastCoded()
    ensures Positions(POSITIONS, 3) && Coded(3, POSITIONS) == Coder([0, 2, 1], 0, [2, 0, 0, 3, 1, 3])
  {
    Runs();
    MiddleCoded();
    hide Run, Coded;
    NextPosition(7);
    assert Pos([2, 1, 0], 0) == 2 && MoveFront([2, 1, 0], 2) == [0, 2, 1];
    assert POSITIONS[..8] == POSITIONS;
  }

  lemma SymbolsOfColumn()
    ensures AllUsed(InUse(), COLUMN) && SymbolsFor(InUse(), COLUMN) == [2, 0, 0, 3, 1, 3, 4]
  {
    ColumnPositions();
    LastCoded();
    Runs();
    hide Coded, Run, Used, Seqs;
  }

  // ----- The tables.

  const LENGTHS: seq<nat> := [2, 3, 2, 2, 3]
  const UNUSED: seq<nat> := [3, 3, 2, 2, 2]

  function TablesOfFile(): Tables {
    Tables(InUse(), [0], [LENGTHS, UNUSED])
  }

  lemma DeltaNumbers()
    ensures Delta(2, 2) == ToBits(1, 0) == Delta(3, 3) && Delta(2, 3) == ToBits(3, 4) && Delta(3, 2) == ToBits(3, 6)
  {
    assert ToBits(1, 2) == [false] && ToBits(1, 3) == [true] && ToBits(2, 2) == [true, false] && ToBits(2, 3) == [true, true];
  }

  lemma LengthsBits()
    ensures TablePart(LENGTHS, 5) == ToBits(16, 0x1264)
  {
    DeltaNumbers();
    SmallPowers();
    hide ToBits, Delta;
    Join(5, 2, 1, 0, 2);
    assert TablePart(LENGTHS, 1) == ToBits(6, 4);
    Join(6, 4, 3, 4, 8);
    assert TablePart(LENGTHS, 2) == ToBits(9, 36);
    Join(9, 36, 3, 6, 8);
    assert TablePart(LENGTHS, 3) == ToBits(12, 294);
    Join(12, 294, 1, 0, 2);
    assert TablePart(LENGTHS, 4) == ToBits(13, 588);
    Join(13, 588, 3, 4, 8);
  }

  lemma UnusedBits()
    ensures TablePart(UNUSED, 5) == ToBits(12, 0x198)
  {
    DeltaNumbers();
    SmallPowers();
    hide ToBits, Delta;
    Join(5, 3, 1, 0, 2);
    assert TablePart(UNUSED, 1) == ToBits(6, 6);
    Join(6, 6, 1, 0, 2);
    assert TablePart(UNUSED, 2) == ToBits(7, 12);
    Join(7, 12, 3, 6, 8);
    assert TablePart(UNUSED, 3) == ToBits(10, 102);
    Join(10, 102, 1, 0, 2);
    assert TablePart(UNUSED, 4) == ToBits(11, 204);
    Join(11, 204, 1, 0, 2);
  }

  // ----- The codes.

  lemma {:induction false} SameLength(len: seq<nat>, n: int, k: nat)
    requires k <= |len|
    ensures CountLen(len[..k], n) == NumberOfSame(len, n, k)
    decreases k
  {
    if k > 0 {
      SameLength(len, n, k - 1);
      HuffmanCodes.CountPush(len, n, k - 1);
    } else {
      assert len[..0] == [];
    }
  }

  lemma NumbersOfLengths()
    ensures forall n :: NumberOfSame(LENGTHS, n, 5) == if n == 2 then 3 else if n == 3 then 2 else 0
    ensures NumberOfSame(LENGTHS, 2, 0) == 0 && NumberOfSame(LENGTHS, 2, 2) == 1 && NumberOfSame(LENGTHS, 2, 3) == 2
    ensures NumberOfSame(LENGTHS, 3, 1) == 0 && NumberOfSame(LENGTHS, 3, 4) == 1
  {
    forall n
      ensures NumberOfSame(LENGTHS, n, 5) == if n == 2 then 3 else if n == 3 then 2 else 0
    {
      assert NumberOfSame(LENGTHS, n, 1) == if n == 2 then 1 else 0;
      assert NumberOfSame(LENGTHS, n, 2) == if n == 2 || n == 3 then 1 else 0;
      assert NumberOfSame(LENGTHS, n, 4) == if n == 2 then 3 else if n == 3 then 1 else 0;
    }
    assert NumberOfSame(LENGTHS, 2, 1) == 1 && NumberOfSame(LENGTHS, 3, 2) == 1;
  }

  lemma FirstCodes()
    ensures First(LENGTHS, 2) == 0 && First(LENGTHS, 3) == 6
  {
    hide CountLen;
    NumbersOfLengths();
    assert LENGTHS[..5] == LENGTHS;
    SameLength(LENGTHS, 0, 5);
    SameLength(LENGTHS, 1, 5);
    SameLength(LENGTHS, 2, 5);
    assert First(LENGTHS, 0) == 0;
    assert First(LENGTHS, 1) == 0;
  }

  lemma Codes()
    ensures CodeBits(LENGTHS, 0) == ToBits(2, 0) && CodeBits(LENGTHS, 2) == ToBits(2, 1) && CodeBits(LENGTHS, 3) == ToBits(2, 2)
    ensures CodeBits(LENGTHS, 1) == ToBits(3, 6) && CodeBits(LENGTHS, 4) == ToBits(3, 7)
  {
    hide CountLen, First, ToBits;
    NumbersOfLengths();
    FirstCodes();
    SameLength(LENGTHS, 2, 0);
    SameLength(LENGTHS, 3, 1);
    SameLength(LENGTHS, 2, 2);
    SameLength(LENGTHS, 2, 3);
    SameLength(LENGTHS, 3, 4);
  }

  lemma {:induction false} KraftPart(len: seq<nat>, k: nat)
    requires k <= |len| && forall i :: 0 <= i < |len| ==> len[i] == 2 || len[i] == 3
    ensures Kraft(len[..k], 3) == 2 * NumberOfSame(len, 2, k) + NumberOfSame(len, 3, k)
    decreases k
  {
    SmallPowers();
    if k > 0 {
      KraftPart(len, k - 1);
      assert len[..k][..k - 1] == len[..k - 1];
    }
  }

  lemma TablesDecodable()
    ensures Decodable(LENGTHS) && Decodable(UNUSED)
  {
    SmallPowers();
    KraftPart(LENGTHS, 5);
    KraftPart(UNUSED, 5);
    NumbersOfLengths();
    assert NumberOfSame(UNUSED, 2, 2) == 0 && NumberOfSame(UNUSED, 3, 2) == 2;
    assert NumberOfSame(UNUSED, 2, 4) == 2 && NumberOfSame(UNUSED, 3, 4) == 2;
    assert LENGTHS[..5] == LENGTHS && UNUSED[..5] == UNUSED;
    assert KraftHolds(LENGTHS, 3) && KraftHolds(UNUSED, 3);
  }

  const SYMBOLS: seq<Symbol> := [2, 0, 0, 3, 1, 3, 4]

  lemma TablesFit()
    ensures Used(InUse(), 256) == 3 && TablesOk(TablesOfFile()) && CodesComplete(TablesOfFile()) && Coverable(TablesOfFile(), SYMBOLS)
  {
    UsedUpTo(256);
    TablesDecodable();
    hide Used, Decodable, InUse;
    assert LenOk(LENGTHS, 5) && LenOk(UNUSED, 5);
  }

  lemma SymbolBits()
    ensures Coverable(TablesOfFile(), SYMBOLS) && PrintSymbols(TablesOfFile(), SYMBOLS, 7) == ToBits(16, 0x42d7)
  {
    TablesFit();
    Codes();
    SmallPowers();
    hide ToBits, CodeBits, Coverable, Used;
    var tb := TablesOfFile();
    assert PrintSymbols(tb, SYMBOLS, 1) == ToBits(2, 1);
    Join(2, 1, 2, 0, 4);
    assert PrintSymbols(tb, SYMBOLS, 2) == ToBits(4, 4);
    Join(4, 4, 2, 0, 4);
    assert PrintSymbols(tb, SYMBOLS, 3) == ToBits(6, 16);
    Join(6, 16, 2, 2, 4);
    assert PrintSymbols(tb, SYMBOLS, 4) == ToBits(8, 66);
    Join(8, 66, 3, 6, 8);
    assert PrintSymbols(tb, SYMBOLS, 5) == ToBits(11, 534);
    Join(11, 534, 2, 2, 4);
    assert PrintSymbols(tb, SYMBOLS, 6) == ToBits(13, 2138);
    Join(13, 2138, 3, 7, 8);
  }

  // ----- The whole file.

  function HeadOfFile(): Head {
    Head(1, OfBytes(TEXT), 4)
  }

  lemma SelectorBitsOfFile()
    ensures PrintSelectors(2, [0]) == ToBits(3, 2) + ToBits(15, 1) + ToBits(1, 0)
  {
    SelInGroups([0], 2);
    assert Groups(2)[0] == 0 && Pos(Groups(2), 0) == 0;
    assert ToBits(1, 0) == [false] == Unary(0);
    assert SelEncode(MoveFront(Groups(2), 0), []) == [];
    assert SelEncode(Groups(2), [0]) == [0];
    assert UnaryAll([0], 1) == [] + Unary(0);
  }

  lemma TableBits()
    ensures PrintTables([LENGTHS, UNUSED], 2) == ToBits(28, 0x126_4198)
  {
    LengthsBits();
    UnusedBits();
    SmallPowers();
    hide ToBits, TablePart;
    assert PrintTables([LENGTHS, UNUSED], 1) == TablePart(LENGTHS, 5);
    Join(16, 0x1264, 12, 0x198, 0x1000);
  }

  lemma FrontPieces()
    ensures [false] + ToBits(24, 4) == ToBits(25, 4)
    ensures PrintMap(InUse()) == ToBits(48, 0x8200_8000_6000) && PrintSelectors(2, [0]) == ToBits(19, 0x2_0002)
  {
    MapBits();
    MapField();
    SelectorBitsOfFile();
    SelectorField();
    assert [false] == ToBits(1, 0);
    hide ToBits, PrintMap, PrintSelectors, InUse;
    Powers();
    Join(1, 0, 24, 4, 0x100_0000);
  }

  lemma PiecesOfBody()
    ensures Coverable(TablesOfFile(), SYMBOLS)
    ensures [false] + ToBits(24, 4) + PrintMap(InUse()) + PrintSelectors(2, [0]) + PrintTables([LENGTHS, UNUSED], 2)
            + PrintSymbols(TablesOfFile(), SYMBOLS, 7) == BytesToBits(BODY)
  {
    FrontPieces();
    TableBits();
    SymbolBits();
    BodyNumber();
    hide ToBits, BytesToBits, PrintMap, PrintSelectors, PrintTables, PrintSymbols, Coverable, InUse, TablesOfFile;
    BodyFields([false] + ToBits(24, 4), PrintMap(InUse()), PrintSelectors(2, [0]), PrintTables([LENGTHS, UNUSED], 2),
               PrintSymbols(TablesOfFile(), SYMBOLS, 7));
  }

  lemma BlockFitsFormat()
    ensures AllUsed(InUse(), COLUMN) && SymbolsFor(InUse(), COLUMN) == SYMBOLS && BlockOk(HeadOfFile(), TablesOfFile(), COLUMN)
  {
    SymbolsOfColumn();
    TablesFit();
    hide SymbolsFor, Used, TablesOk, CodesComplete, Coverable, OfBytes, InUse;
  }

  lemma BlockPrinted()
    ensures BlockOk(HeadOfFile(), TablesOfFile(), COLUMN)
    ensures PrintBlock(HeadOfFile(), TablesOfFile(), COLUMN) == BlockMagic() + OfBytes(TEXT) + BytesToBits(BODY)
  {
    BlockFitsFormat();
    PiecesOfBody();
    hide ToBits, BytesToBits, PrintMap, PrintSelectors, PrintTables, PrintSymbols, SymbolsFor, BlockOk, Coverable, BlockMagic, OfBytes, InUse;
    Inner(BlockMagic() + OfBytes(TEXT), [false], ToBits(24, 4), PrintMap(InUse()), PrintSelectors(2, [0]), PrintTables([LENGTHS, UNUSED], 2),
          PrintSymbols(TablesOfFile(), SYMBOLS, 7));
  }

  lemma Inner(x: Bits, a: Bits, b: Bits, m: Bits, s: Bits, l: Bits, c: Bits)
    ensures x + a + b + m + s + l + c == x + (a + b + m + s + l + c)
  {
  }

  lemma Bytes4(a: Byte, b: Byte, c: Byte, d: Byte)
    ensures BytesToBits([a, b, c, d]) == ByteBits(a) + ByteBits(b) + ByteBits(c) + ByteBits(d)
  {
    hide ByteBits;
    BytesToBitsPush([], a);
    BytesToBitsPush([a], b);
    BytesToBitsPush([a, b], c);
    BytesToBitsPush([a, b, c], d);
    assert [] + [a] == [a] && [a] + [b] == [a, b] && [a, b] + [c] == [a, b, c] && [a, b, c] + [d] == [a, b, c, d];
    assert [] + ByteBits(a) == ByteBits(a);
  }

  lemma Bytes6(a: Byte, b: Byte, c: Byte, d: Byte, e: Byte, f: Byte)
    ensures BytesToBits([a, b, c, d, e, f]) == ByteBits(a) + ByteBits(b) + ByteBits(c) + ByteBits(d) + ByteBits(e) + ByteBits(f)
  {
    hide ByteBits;
    Bytes4(a, b, c, d);
    BytesToBitsPush([a, b, c, d], e);
    BytesToBitsPush([a, b, c, d, e], f);
    assert [a, b, c, d] + [e] == [a, b, c, d, e] && [a, b, c, d, e] + [f] == [a, b, c, d, e, f];
  }

  lemma Magics()
    ensures BytesToBits(HEADER) == MagicBits(1) && BytesToBits(BLOCK_START) == BlockMagic() && BytesToBits(TRAILER) == EndMagic()
  {
    hide ByteBits, BytesToBits;
    Bytes4(0x42, 0x5a, 0x68, 0x31);
    Bytes6(0x31, 0x41, 0x59, 0x26, 0x53, 0x59);
    Bytes6(0x17, 0x72, 0x45, 0x38, 0x50, 0x90);
  }

  lemma OneCombined()
    ensures IsCombined(OfBytes(TEXT), [Part(HeadOfFile(), COLUMN)])
  {
    hide OfBytes;
    NoneCombined();
    var p := Part(HeadOfFile(), COLUMN);
    CombinedPush(Zeros(32), [], p, OfBytes(TEXT));
    assert Combine(Zeros(32), OfBytes(TEXT)) == OfBytes(TEXT);
    assert [] + [p] == [p];
  }

  lemma FileBits(checksum: seq<Byte>, t: Bits)
    requires t == BytesToBits(BLOCK_START) + BytesToBits(checksum) + BytesToBits(BODY)
    ensures BytesToBits(HEADER + BLOCK_START + checksum + BODY + TRAILER + checksum)
            == BytesToBits(HEADER) + t + (BytesToBits(TRAILER) + BytesToBits(checksum)) + []
  {
    hide BytesToBits;
    var a := HEADER + BLOCK_START;
    BytesToBitsConcat(HEADER, BLOCK_START);
    BytesToBitsConcat(a, checksum);
    BytesToBitsConcat(a + checksum, BODY);
    BytesToBitsConcat(a + checksum + BODY, TRAILER);
    BytesToBitsConcat(a + checksum + BODY + TRAILER, checksum);
    Pieces(BytesToBits(HEADER), BytesToBits(BLOCK_START), BytesToBits(checksum), BytesToBits(BODY), BytesToBits(TRAILER));
  }

  lemma Pieces(a: Bits, b: Bits, c: Bits, d: Bits, e: Bits)
    ensures a + b + c + d + e + c == a + (b + c + d) + (e + c) + []
  {
  }

  lemma PartOfFile()
    ensures var p := Part(HeadOfFile(), COLUMN); Intact(p) && PartData(p) == TEXT
  {
    BlockOfText();
    BlockOfColumn();
    hide OfBytes, UnRle, Unsorted, Complete;
  }

  lemma TextOfFile()
    ensures IsTextOf(BytesToBits(BLOCK_START) + OfBytes(TEXT) + BytesToBits(BODY), Part(HeadOfFile(), COLUMN), 1)
  {
    BlockPrinted();
    Magics();
    hide BytesToBits, OfBytes, BlockMagic, PrintBlock, BlockOk, BlockText;
    PrintedBlock(HeadOfFile(), TablesOfFile(), COLUMN);
  }

  lemma OneOfEach(p: Part, t: Bits)
    requires Intact(p) && IsTextOf(t, p, 1)
    ensures AllIntact([p]) && DataOfAll([p]) == PartData(p) && AreTexts([t], [p], 1) && Joined([t]) == t
  {
    hide IsTextOf, UnRle, Unsorted, OfBytes, Complete;
    assert [p][..0] == [] && [t][..0] == [];
    assert [] + t == t && [] + PartData(p) == PartData(p);
  }

  lemma TextOfWhole(checksum: seq<Byte>)
    requires BytesToBits(checksum) == OfBytes(TEXT)
    ensures var t := BytesToBits(BLOCK_START) + OfBytes(TEXT) + BytesToBits(BODY);
            StreamText(BytesToBits(HEADER + BLOCK_START + checksum + BODY + TRAILER + checksum), 1, [Part(HeadOfFile(), COLUMN)], [t],
                       OfBytes(TEXT), [])
  {
    PartOfFile();
    TextOfFile();
    OneCombined();
    Magics();
    hide BytesToBits, OfBytes, EndMagic, MagicBits, IsCombined, AllIntact, DataOfAll, AreTexts, Joined, PartData, Intact, IsTextOf;
    var p, t := Part(HeadOfFile(), COLUMN), BytesToBits(BLOCK_START) + OfBytes(TEXT) + BytesToBits(BODY);
    OneOfEach(p, t);
    FileBits(checksum, t);
  }

  lemma DataOfFile()
    ensures AllIntact([Part(HeadOfFile(), COLUMN)]) && DataOfAll([Part(HeadOfFile(), COLUMN)]) == TEXT
  {
    PartOfFile();
    TextOfFile();
    hide BytesToBits, OfBytes, AreTexts, Joined, PartData, Intact, IsTextOf;
    OneOfEach(Part(HeadOfFile(), COLUMN), BytesToBits(BLOCK_START) + OfBytes(TEXT) + BytesToBits(BODY));
  }

  /** With the checksum of the text in the two places where it belongs, these bytes are a compressed file of it. */
  lemma FileStandsForText(checksum: seq<Byte>)
    requires BytesToBits(checksum) == OfBytes(TEXT)
    ensures StandsFor(HEADER + BLOCK_START + checksum + BODY + TRAILER + checksum, TEXT)
  {
    TextOfWhole(checksum);
    DataOfFile();
    hide *;
    Stands(HEADER + BLOCK_START + checksum + BODY + TRAILER + checksum, 1, [Part(HeadOfFile(), COLUMN)],
           [BytesToBits(BLOCK_START) + OfBytes(TEXT) + BytesToBits(BODY)], OfBytes(TEXT), []);
  }
}
