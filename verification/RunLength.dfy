/** The first stage: runs of four to 255 equal bytes are written as four of them and a count.

    `UnRle` is the decoder's reading of a block.  What the encoder has taken in is always what its block decodes to,
    followed by the pending run; the checksum and the table of bytes in use follow along.
 */
module RunLength {
  import opened Arrays
  import opened Crc
  import opened MoveToFront
  import opened Rotations

  /** No byte. */
  const NO_BYTE := 256

  /** The last byte, how often it was seen in a row (up to four), and the bytes decoded so far. */
  datatype Rle = Rle(last: nat, cnt: nat, out: seq<Byte>)

  function RleStep(r: Rle, x: Byte): (r': Rle)
    requires r.last < 256 || r.cnt < 4
    ensures r'.last < 256 || r'.cnt < 4
  {
    if r.cnt == 4 && r.last < 256 then Rle(NO_BYTE, 0, r.out + Repeat(r.last, x))
    else if r.last == x then Rle(x, r.cnt + 1, r.out + [x])
    else Rle(x, 1, r.out + [x])
  }

  /** The state of decoding after the block bytes `b`. */
  function UnRle(b: seq<Byte>): (r: Rle)
    ensures r.last < 256 || r.cnt < 4
  {
    if b == [] then Rle(NO_BYTE, 0, []) else RleStep(UnRle(b[..|b| - 1]), b[|b| - 1])
  }

  lemma UnRlePush(b: seq<Byte>, x: Byte)
    ensures UnRle(b + [x]) == RleStep(UnRle(b), x)
  {
    assert (b + [x])[..|b|] == b;
  }

  /** A block that does not stop between the fourth byte of a run and its count. */
  ghost predicate Complete(b: seq<Byte>) {
    UnRle(b).cnt < 4
  }

  lemma {:induction false} CopiesOut(b: seq<Byte>)
    ensures UnRle(b).cnt <= |UnRle(b).out|
    decreases |b|
  {
    if b != [] {
      CopiesOut(b[..|b| - 1]);
    }
  }

  /** What is written for a run. */
  function Pair(ch: Byte, len: nat): (s: seq<Byte>)
    requires 1 <= len <= 255
    ensures 1 <= |s| <= 5
  {
    if len < 4 then Repeat(ch, len) else Repeat(ch, 4) + [len - 4]
  }

  lemma {:induction false} UnRleCopies(b: seq<Byte>, ch: Byte, k: nat)
    requires UnRle(b).cnt < 4 && UnRle(b).last != ch && k <= 4
    ensures UnRle(b + Repeat(ch, k)).out == UnRle(b).out + Repeat(ch, k)
    ensures k > 0 ==> UnRle(b + Repeat(ch, k)).last == ch && UnRle(b + Repeat(ch, k)).cnt == k
    decreases k
  {
    if k == 0 {
      assert b + Repeat(ch, 0) == b;
    } else {
      UnRleCopies(b, ch, k - 1);
      assert b + Repeat(ch, k) == b + Repeat(ch, k - 1) + [ch];
      UnRlePush(b + Repeat(ch, k - 1), ch);
      assert UnRle(b).out + Repeat(ch, k - 1) + [ch] == UnRle(b).out + Repeat(ch, k);
    }
  }

  /** A run written after a complete block decodes to the run, provided it does not continue the last one. */
  lemma UnRlePair(b: seq<Byte>, ch: Byte, len: nat)
    requires Complete(b) && UnRle(b).last != ch && 1 <= len <= 255
    ensures Complete(b + Pair(ch, len)) && UnRle(b + Pair(ch, len)).out == UnRle(b).out + Repeat(ch, len)
    ensures UnRle(b + Pair(ch, len)).last == if len < 4 then ch else NO_BYTE
  {
    if len < 4 {
      UnRleCopies(b, ch, len);
    } else {
      UnRleCopies(b, ch, 4);
      var c := b + Repeat(ch, 4);
      UnRlePush(c, len - 4);
      assert b + Pair(ch, len) == c + [len - 4];
      assert UnRle(b).out + Repeat(ch, 4) + Repeat(ch, len - 4) == UnRle(b).out + Repeat(ch, len);
    }
  }

  // ----- The block being built.

  class BlockBuilder {
    const block: array<int>
    const inUse: array<bool>
    const nblockMAX: nat
    var nblock: nat
    var blockCRC: Word
    /** The pending run: its byte, or 256 for none, and its length. */
    var stateInCh: nat
    var stateInLen: nat

    /** The bytes of the block so far. */
    ghost var bytes: seq<Byte>

    ghost predicate Fixed()
      reads this
    {
      inUse.Length == 256 && nblockMAX + 53 <= block.Length
    }

    ghost predicate PendingOk()
      reads this
    {
      && stateInCh <= NO_BYTE && stateInLen <= 255
      && (stateInCh == NO_BYTE ==> stateInLen == 0 && bytes == [])
      && (stateInCh < NO_BYTE ==> 1 <= stateInLen && UnRle(bytes).last != stateInCh)
    }

    ghost predicate BlockOk()
      reads this, block, inUse
    {
      && Fixed() && nblock == |bytes| <= block.Length && block[..nblock] == bytes
      && (forall c :: 0 <= c < 256 ==> (inUse[c] <==> c in bytes))
      && Complete(bytes) && IsRunning(blockCRC, UnRle(bytes).out)
    }

    ghost predicate Valid()
      reads this, block, inUse
    {
      BlockOk() && PendingOk()
    }

    /** All input is in the block; nothing may be added to it. */
    ghost predicate Flushed()
      reads this, block, inUse
    {
      BlockOk() && stateInCh == NO_BYTE && stateInLen == 0
    }

    /** The pending run. */
    ghost function Pending(): (s: seq<Byte>)
      requires stateInCh <= NO_BYTE
      reads this
    {
      if stateInCh < NO_BYTE then Repeat(stateInCh, stateInLen) else []
    }

    /** What the pending run will be written as. */
    ghost function PendingPair(): seq<Byte>
      requires stateInCh <= NO_BYTE && stateInLen <= 255 && (stateInCh < NO_BYTE ==> 1 <= stateInLen)
      reads this
    {
      if stateInCh < NO_BYTE then Pair(stateInCh, stateInLen) else []
    }

    /** The input since the block was begun, the run left over from before included. */
    ghost function Taken(): seq<Byte>
      requires stateInCh <= NO_BYTE
      reads this
    {
      UnRle(bytes).out + Pending()
    }

    constructor (level: nat)
      requires 1 <= level <= 9
      ensures Valid() && fresh(this) && fresh(block) && fresh(inUse) && Taken() == [] && nblock == 0 && stateInCh == NO_BYTE
      ensures nblockMAX == 100_000 * level - 19
    {
      block := new int[100_000 * level + 34];
      inUse := new bool[256](_ => false);
      nblockMAX := 100_000 * level - 19;
      nblock, bytes, blockCRC := 0, [], Initial();
      stateInCh, stateInLen := NO_BYTE, 0;
    }

    /** prepare_new_block, as far as the block is concerned: the pending run stays. */
    method PrepareNewBlock()
      requires Valid() || Flushed()
      modifies this`nblock, this`blockCRC, this`bytes, inUse
      ensures Valid() && nblock == 0 && bytes == []
    {
      hide IsEmptyRL;
      nblock, bytes := 0, [];
      blockCRC := Initial();
      RunningStart();
      var i := 0;
      while i < 256
        modifies inUse
        invariant 0 <= i <= 256 && forall c :: 0 <= c < i ==> !inUse[c]
      {
        inUse[i] := false;
        i := i + 1;
      }
    }

    /** init_RL */
    method InitRL()
      requires BlockOk()
      modifies this`stateInCh, this`stateInLen
      ensures Flushed()
    {
      stateInCh := NO_BYTE;
      stateInLen := 0;
    }

    /** isempty_RL */
    predicate IsEmptyRL()
      reads this
    {
      !(stateInCh < NO_BYTE && stateInLen > 0)
    }

    method PutByte(c: Byte)
      requires Fixed() && nblock < block.Length && nblock == |bytes| && block[..nblock] == bytes
      modifies this`nblock, this`bytes, block
      ensures nblock == |bytes| == old(nblock) + 1 && bytes == old(bytes) + [c] && block[..nblock] == bytes
    {
      block[nblock] := c;
      nblock := nblock + 1;
      bytes := bytes + [c];
    }

    method UpdateCrc(ch: Byte, ghost s: seq<Byte>)
      requires IsRunning(blockCRC, s)
      modifies this`blockCRC
      ensures IsRunning(blockCRC, s + Repeat(ch, stateInLen))
    {
      var i := 0;
      assert s + Repeat(ch, 0) == s;
      while i < stateInLen
        invariant 0 <= i <= stateInLen && IsRunning(blockCRC, s + Repeat(ch, i))
      {
        RunningCopy(blockCRC, s, ch, i);
        blockCRC := Update(blockCRC, ch);
        i := i + 1;
      }
    }

    /** The bytes of the pending run, counted out. */
    method PutPair(ch: Byte)
      requires Fixed() && nblock + 5 <= block.Length && nblock == |bytes| && block[..nblock] == bytes && 1 <= stateInLen <= 255
      modifies this`nblock, this`bytes, block
      ensures nblock == |bytes| && bytes == old(bytes) + Pair(ch, stateInLen) && block[..nblock] == bytes
    {
      ghost var b := bytes;
      FewCopies(b, ch);
      if stateInLen == 1 {
        PutByte(ch);
      } else if stateInLen == 2 {
        PutByte(ch);
        PutByte(ch);
      } else if stateInLen == 3 {
        PutByte(ch);
        PutByte(ch);
        PutByte(ch);
      } else {
        PutByte(ch);
        PutByte(ch);
        PutByte(ch);
        PutByte(ch);
        PutByte(stateInLen - 4);
        assert b + Repeat(ch, 4) + [stateInLen - 4] == b + Pair(ch, stateInLen);
      }
    }

    method MarkUsed()
      requires inUse.Length == 256 && stateInCh < NO_BYTE && 1 <= stateInLen <= 255
      modifies inUse
      ensures forall c :: 0 <= c < 256 ==> (inUse[c] <==> old(inUse[c]) || c in Pair(stateInCh, stateInLen))
    {
      PairMembers(stateInCh, stateInLen);
      inUse[stateInCh] := true;
      if stateInLen >= 4 {
        inUse[stateInLen - 4] := true;
      }
    }

    /** add_pair_to_block: writes the pending run. */
    method AddPairToBlock()
      requires Valid() && stateInCh < NO_BYTE && nblock + 5 <= block.Length
      modifies this`nblock, this`bytes, this`blockCRC, block, inUse
      ensures BlockOk() && old(nblock) < nblock <= old(nblock) + 5
      ensures UnRle(bytes).out == old(Taken()) && bytes == old(bytes + PendingPair())
      ensures UnRle(bytes).last == if stateInLen < 4 then stateInCh else NO_BYTE
    {
      hide UnRle;
      ghost var b := bytes;
      var ch: Byte := stateInCh;
      UnRlePair(b, ch, stateInLen);
      UpdateCrc(ch, UnRle(b).out);
      MarkUsed();
      PutPair(ch);
    }

    /** flush_RL */
    method FlushRL()
      requires Valid() && nblock + 5 <= block.Length
      modifies this`nblock, this`bytes, this`blockCRC, this`stateInCh, this`stateInLen, block, inUse
      ensures Flushed() && old(nblock) <= nblock <= old(nblock) + 5
      ensures UnRle(bytes).out == old(Taken())
      ensures bytes == old(bytes) + old(PendingPair())
    {
      if stateInCh < 256 {
        AddPairToBlock();
      }
      InitRL();
    }

    /** ADD_CHAR_TO_BLOCK */
    method AddCharToBlock(zchh: Byte)
      requires Valid() && nblock + 5 <= block.Length
      modifies this`nblock, this`bytes, this`blockCRC, this`stateInCh, this`stateInLen, block, inUse
      ensures Valid() && old(nblock) <= nblock <= old(nblock) + 5
      ensures Taken() == old(Taken()) + [zchh]
      ensures stateInCh == zchh
      ensures if zchh == old(stateInCh) && old(stateInLen) < 255 then bytes == old(bytes) && stateInLen == old(stateInLen) + 1
              else bytes == old(bytes + PendingPair()) && stateInLen == 1
    {
      hide Pair, IsRunning, Complete;
      if zchh != stateInCh && stateInLen == 1 {
        // The common case: a run of one is written directly.
        PutSingle();
        StartRun(zchh);
      } else if zchh != stateInCh || stateInLen == 255 {
        if stateInCh < 256 {
          AddPairToBlock();
        }
        StartRun(zchh);
      } else {
        stateInLen := stateInLen + 1;
        assert Pending() == old(Pending()) + [zchh];
      }
    }

    method StartRun(zchh: Byte)
      requires BlockOk() && UnRle(bytes).last != zchh
      modifies this`stateInCh, this`stateInLen
      ensures Valid() && Taken() == UnRle(bytes).out + [zchh] && stateInCh == zchh && stateInLen == 1
    {
      stateInCh := zchh;
      stateInLen := 1;
      assert Pending() == [zchh];
    }

    method PutSingle()
      requires Valid() && nblock + 5 <= block.Length && stateInCh < NO_BYTE && stateInLen == 1
      modifies this`nblock, this`bytes, this`blockCRC, block, inUse
      ensures BlockOk() && nblock == old(nblock) + 1
      ensures UnRle(bytes).out == old(Taken()) && UnRle(bytes).last == stateInCh && bytes == old(bytes + PendingPair())
    {
      ghost var b := bytes;
      var ch: Byte := stateInCh;
      UnRlePair(b, ch, 1);
      FewCopies(b, ch);
      FewCopies(UnRle(b).out, ch);
      RunningPush(blockCRC, UnRle(b).out, ch);
      blockCRC := Update(blockCRC, ch);
      inUse[stateInCh] := true;
      PutByte(ch);
    }
  }

  lemma RunningCopy(w: Word, s: seq<Byte>, ch: Byte, i: nat)
    requires IsRunning(w, s + Repeat(ch, i))
    ensures IsRunning(Update(w, ch), s + Repeat(ch, i + 1))
  {
    RunningPush(w, s + Repeat(ch, i), ch);
    assert s + Repeat(ch, i + 1) == s + Repeat(ch, i) + [ch];
  }

  lemma FewCopies(b: seq<Byte>, ch: Byte)
    ensures b + [ch] == b + Repeat(ch, 1)
    ensures b + [ch] + [ch] == b + Repeat(ch, 2)
    ensures b + [ch] + [ch] + [ch] == b + Repeat(ch, 3)
    ensures b + [ch] + [ch] + [ch] + [ch] == b + Repeat(ch, 4)
  {
  }

  lemma PairMembers(ch: Byte, len: nat)
    requires 1 <= len <= 255
    ensures forall c :: c in Pair(ch, len) <==> c == ch || (len >= 4 && c == len - 4)
  {
    var p := Pair(ch, len);
    assert p[0] == ch;
    if len >= 4 {
      assert p[4] == len - 4;
    }
  }
}
