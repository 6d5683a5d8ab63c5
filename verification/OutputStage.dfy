/** The decoder's last stage on values: runs are taken from the walk through the sorted rows, one byte ahead of what
    has been used, and written out byte by byte.
 */
module OutputStage {
  import opened InverseBwt
  import opened MoveToFront
  import opened Rotations
  import opened RunLength

  /** How many bytes have been read (nblock_used), and the run being written. */
  datatype OutState = OutState(used: nat, ch: Byte, len: nat)

  /** With one byte read ahead and no run. */
  function StartOutput(): OutState {
    OutState(1, 0, 0)
  }

  /** The next run: up to three equal bytes, or four of them and a count.  It ends with the block at the latest,
      except that a count is read without looking. */
  ghost function NextRun(col: seq<Byte>, orig: nat, o: OutState): (r: OutState)
    requires orig < |col| && 1 <= o.used <= |col|
    ensures r.used > o.used && r.len > 0
  {
    var n, u := |col|, o.used;
    var k0 := ReadAt(col, orig, u - 1);
    if u == n || ReadAt(col, orig, u) != k0 then OutState(u + 1, k0, 1)
    else if u + 1 == n || ReadAt(col, orig, u + 1) != k0 then OutState(u + 2, k0, 2)
    else if u + 2 == n || ReadAt(col, orig, u + 2) != k0 then OutState(u + 3, k0, 3)
    else OutState(u + 5, k0, ReadAt(col, orig, u + 3) as int + 4)
  }

  /** Whether the run of `k0` ends before the byte read next, the u-th one. */
  ghost predicate EndsAt(col: seq<Byte>, orig: nat, k0: Byte, u: nat)
    requires orig < |col|
  {
    u == |col| || ReadAt(col, orig, u) != k0
  }

  lemma NextRunCases(col: seq<Byte>, orig: nat, o: OutState, k0: Byte)
    requires orig < |col| && 1 <= o.used <= |col| && k0 == ReadAt(col, orig, o.used - 1)
    ensures EndsAt(col, orig, k0, o.used) ==> NextRun(col, orig, o) == OutState(o.used + 1, k0, 1)
    ensures !EndsAt(col, orig, k0, o.used) && EndsAt(col, orig, k0, o.used + 1) ==> NextRun(col, orig, o) == OutState(o.used + 2, k0, 2)
    ensures !EndsAt(col, orig, k0, o.used) && !EndsAt(col, orig, k0, o.used + 1) && EndsAt(col, orig, k0, o.used + 2) ==>
              NextRun(col, orig, o) == OutState(o.used + 3, k0, 3)
    ensures !EndsAt(col, orig, k0, o.used) && !EndsAt(col, orig, k0, o.used + 1) && !EndsAt(col, orig, k0, o.used + 2) ==>
              NextRun(col, orig, o) == OutState(o.used + 5, k0, ReadAt(col, orig, o.used + 3) as int + 4)
  {
    hide ReadAt;
  }

  /** The byte before position `u` starts a new run. */
  ghost predicate AtRunStart(b: seq<Byte>, u: nat) {
    && 1 <= u <= |b| + 1 && UnRle(b[..u - 1]).cnt < 4
    && (u <= |b| ==> UnRle(b[..u - 1]).last != b[u - 1])
  }

  /** Where the output stage can stand between two runs: where a run starts or the block ends, or, when the block ends
      between the four bytes of a run and its count, two bytes past it. */
  ghost predicate BetweenRuns(b: seq<Byte>, u: nat) {
    AtRunStart(b, u) || (u == |b| + 2 && !Complete(b))
  }

  lemma CopiesIn(b: seq<Byte>, u: nat, k: nat)
    requires 1 <= u && k >= 1 && u - 1 + k <= |b| && forall i :: u - 1 <= i < u - 1 + k ==> b[i] == b[u - 1]
    ensures b[..u - 1 + k] == b[..u - 1] + Repeat(b[u - 1], k)
  {
  }

  /** A run of one to three bytes. */
  lemma ShortRun(b: seq<Byte>, u: nat, k: nat)
    requires AtRunStart(b, u) && u <= |b| && 1 <= k <= 3 && u - 1 + k <= |b|
    requires forall i :: u - 1 <= i < u - 1 + k ==> b[i] == b[u - 1]
    requires u - 1 + k < |b| ==> b[u - 1 + k] != b[u - 1]
    ensures AtRunStart(b, u + k) && UnRle(b[..u + k - 1]).out == UnRle(b[..u - 1]).out + Repeat(b[u - 1], k)
  {
    CopiesIn(b, u, k);
    UnRleCopies(b[..u - 1], b[u - 1], k);
    assert u - 1 + k == u + k - 1;
  }

  /** Four bytes and a count. */
  lemma LongRun(b: seq<Byte>, u: nat)
    requires AtRunStart(b, u) && u + 3 < |b|
    requires forall i :: u - 1 <= i < u + 3 ==> b[i] == b[u - 1]
    ensures AtRunStart(b, u + 5)
    ensures UnRle(b[..u + 4]).out == UnRle(b[..u - 1]).out + Repeat(b[u - 1], b[u + 3] as int + 4)
  {
    var a, ch := b[..u - 1], b[u - 1];
    CopiesIn(b, u, 4);
    UnRleCopies(a, ch, 4);
    assert b[..u + 3] == a + Repeat(ch, 4);
    UnRlePush(b[..u + 3], b[u + 3]);
    assert b[..u + 4] == b[..u + 3] + [b[u + 3]];
    assert UnRle(a).out + Repeat(ch, 4) + Repeat(ch, b[u + 3] as int) == UnRle(a).out + Repeat(ch, b[u + 3] as int + 4);
  }

  /** Four bytes at the end of the block, without a count. */
  lemma CutShort(b: seq<Byte>, u: nat, len: nat)
    requires AtRunStart(b, u) && u + 3 == |b| && len >= 4
    requires forall i :: u - 1 <= i < u + 3 ==> b[i] == b[u - 1]
    ensures !Complete(b) && UnRle(b[..u - 1]).out + Repeat(b[u - 1], len) == UnRle(b).out + Repeat(b[u - 1], len - 4)
  {
    hide UnRle;
    var a, ch := b[..u - 1], b[u - 1];
    CopiesIn(b, u, 4);
    UnRleCopies(a, ch, 4);
    assert b == a + Repeat(ch, 4);
    SplitRepeat(UnRle(a).out, ch, len);
  }

  lemma SplitRepeat(a: seq<Byte>, ch: Byte, len: nat)
    requires len >= 4
    ensures a + Repeat(ch, len) == a + Repeat(ch, 4) + Repeat(ch, len - 4)
  {
  }

  /** What is written for a block that ends without the count of its last run: the byte read past the end is the count. */
  ghost function OverrunOutput(col: seq<Byte>, orig: nat): seq<Byte>
    requires orig < |col|
  {
    var b := Unsorted(col, orig);
    UnRle(b).out + Repeat(b[|b| - 1], ReadAt(col, orig, |b|))
  }

  /** What the runs up to the byte before position `used` stand for. */
  ghost function RunsOut(col: seq<Byte>, orig: nat, used: nat): seq<Byte>
    requires orig < |col| && used >= 1
  {
    var b := Unsorted(col, orig);
    if used <= |b| + 1 then UnRle(b[..used - 1]).out else OverrunOutput(col, orig)
  }

  /** Every run the decoder takes is a run of the block, except that a block which is not complete has its last run
      counted by a byte read past its end. */
  lemma NextRunRight(col: seq<Byte>, orig: nat, b: seq<Byte>, o: OutState)
    requires orig < |col| && b == Unsorted(col, orig) && AtRunStart(b, o.used) && o.used <= |b|
    ensures var r := NextRun(col, orig, o);
            && BetweenRuns(b, r.used) && (r.used > |b| + 1 ==> r.len >= 4)
            && RunsOut(col, orig, r.used) == RunsOut(col, orig, o.used) + Repeat(r.ch, r.len)
  {
    hide ReadAt, NextRun, UnRle, Complete;
    var n, u := |b|, o.used;
    var ch := BlockByte(col, orig, b, u - 1);
    NextRunCases(col, orig, o, ch);
    if EndsAt(col, orig, ch, u) {
      NextByte(col, orig, b, ch, u);
      ShortRun(b, u, 1);
    } else if EndsAt(col, orig, ch, u + 1) {
      NextByte(col, orig, b, ch, u);
      NextByte(col, orig, b, ch, u + 1);
      ShortRun(b, u, 2);
    } else if EndsAt(col, orig, ch, u + 2) {
      NextByte(col, orig, b, ch, u);
      NextByte(col, orig, b, ch, u + 1);
      NextByte(col, orig, b, ch, u + 2);
      ShortRun(b, u, 3);
    } else {
      NextByte(col, orig, b, ch, u);
      NextByte(col, orig, b, ch, u + 1);
      NextByte(col, orig, b, ch, u + 2);
      if u + 3 < n {
        LongRun(b, u);
        var count := BlockByte(col, orig, b, u + 3);
      } else {
        CutShort(b, u, 4 + ReadAt(col, orig, n) as int);
      }
    }
  }

  /** Where the block ends, it is complete. */
  lemma EndComplete(b: seq<Byte>)
    ensures AtRunStart(b, |b| + 1) ==> Complete(b)
  {
    assert b[..|b|] == b;
  }

  lemma BlockByte(col: seq<Byte>, orig: nat, b: seq<Byte>, i: nat) returns (x: Byte)
    requires orig < |col| && b == Unsorted(col, orig) && i < |b|
    ensures x == b[i] == ReadAt(col, orig, i)
  {
    x := b[i];
  }

  lemma NextByte(col: seq<Byte>, orig: nat, b: seq<Byte>, k0: Byte, u: nat)
    requires orig < |col| && b == Unsorted(col, orig) && u <= |b|
    ensures EndsAt(col, orig, k0, u) <==> u == |b| || b[u] != k0
  {
  }
}
