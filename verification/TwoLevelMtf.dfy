/** The decoder's move-to-front list in sixteen segments of sixteen entries inside a larger array.

    Moving an entry to the front shifts one segment and moves the starts of the lower ones down by one; when the
    lowest start reaches 0, all segments are copied to the top of the array.  Segments never overlap, and the list
    they spell is the plain list.
 */
module TwoLevelMtf {
  import opened Arrays
  import opened MoveToFront
  import opened Rotations

  const MTFA_SIZE := 4096
  const MTFL_SIZE := 16

  /** Segment `l` of the list `y` starts at `at`. */
  ghost predicate Seg(a: seq<Byte>, at: int, y: seq<Byte>, l: nat) {
    0 <= at && at + 16 <= |a| && 16 * l + 16 <= |y| && a[at..at + 16] == y[16 * l..16 * l + 16]
  }

  ghost predicate Apart(base: seq<int>) {
    |base| == 16 && base[15] + 16 <= MTFA_SIZE && forall l :: 0 <= l < 15 ==> GapOk(base, l)
  }

  ghost predicate GapOk(base: seq<int>, l: nat) {
    l + 1 < |base| && base[l] + 16 <= base[l + 1]
  }

  ghost predicate Spells(a: seq<Byte>, base: seq<int>, y: seq<Byte>) {
    && |a| == MTFA_SIZE && |y| == 256 && Apart(base)
    && forall l :: 0 <= l < 16 ==> Seg(a, base[l], y, l)
  }

  /** The segments spell the list `y`, and there is room below them. */
  ghost predicate TwoLevel(a: seq<Byte>, base: seq<int>, y: seq<Byte>) {
    Spells(a, base, y) && base[0] > 0
  }

  // ----- Shifting inside a segment.

  /** a[pp..pp + n + 1] is shifted up by one, its last entry dropped. */
  ghost function Shifted(a: seq<Byte>, pp: nat, n: nat): (r: seq<Byte>)
    requires pp + n < |a|
    ensures |r| == |a|
  {
    a[..pp + 1] + a[pp..pp + n] + a[pp + n + 1..]
  }

  lemma ShiftedAll(a: seq<Byte>, pp: nat)
    requires pp < |a|
    ensures Shifted(a, pp, 0) == a
  {
  }

  /** Moving one more entry: shifting the lower `n` entries can be done after the upper ones. */
  lemma ShiftOne(a: seq<Byte>, a': seq<Byte>, pp: nat, n: nat)
    requires pp + n < |a| && n > 0 && a' == a[pp + n := a[pp + n - 1]]
    ensures Shifted(a', pp, n - 1) == Shifted(a, pp, n)
  {
    var s, t := Shifted(a', pp, n - 1), Shifted(a, pp, n);
    forall k | 0 <= k < |a|
      ensures s[k] == t[k]
    {
    }
  }

  method MoveOne(mtfa: array<Byte>, pp: nat, n: nat, ghost goal: seq<Byte>)
    requires n > 0 && pp + n < mtfa.Length && Shifted(mtfa[..], pp, n) == goal
    modifies mtfa
    ensures Shifted(mtfa[..], pp, n - 1) == goal
  {
    ShiftOne(mtfa[..], mtfa[..][pp + n := mtfa[pp + n - 1]], pp, n);
    Store(mtfa, pp + n, mtfa[pp + n - 1]);
  }

  /** The first segment, four entries at a time. */
  method ShiftFirst(mtfa: array<Byte>, pp: nat, nn0: nat)
    requires pp + nn0 < mtfa.Length
    modifies mtfa
    ensures mtfa[..] == Shifted(old(mtfa[..]), pp, nn0)
  {
    ghost var goal := Shifted(mtfa[..], pp, nn0);
    var nn := nn0;
    while nn > 3
      invariant 0 <= nn <= nn0 && Shifted(mtfa[..], pp, nn) == goal
    {
      MoveOne(mtfa, pp, nn, goal);
      MoveOne(mtfa, pp, nn - 1, goal);
      MoveOne(mtfa, pp, nn - 2, goal);
      MoveOne(mtfa, pp, nn - 3, goal);
      nn := nn - 4;
    }
    while nn > 0
      invariant 0 <= nn <= nn0 && Shifted(mtfa[..], pp, nn) == goal
    {
      MoveOne(mtfa, pp, nn, goal);
      nn := nn - 1;
    }
    ShiftedAll(mtfa[..], pp);
  }

  /** Another segment, one entry at a time. */
  method ShiftSegment(mtfa: array<Byte>, at: nat, off: nat)
    requires at + off < mtfa.Length
    modifies mtfa
    ensures mtfa[..] == Shifted(old(mtfa[..]), at, off)
  {
    ghost var goal := Shifted(mtfa[..], at, off);
    var pp := at + off;
    while pp > at
      invariant at <= pp <= at + off && Shifted(mtfa[..], at, pp - at) == goal
    {
      MoveOne(mtfa, at, pp - at, goal);
      pp := pp - 1;
    }
    ShiftedAll(mtfa[..], at);
  }

  // ----- A position in the first segment.

  lemma FirstSegmentMoved(a: seq<Byte>, base: seq<int>, y: seq<Byte>, nn: nat)
    requires Spells(a, base, y) && nn < 16 && base[0] >= 0
    ensures a[base[0] + nn] == y[nn]
    ensures Spells(Shifted(a, base[0], nn)[base[0] := y[nn]], base, MoveFront(y, nn))
  {
    var r, y' := Shifted(a, base[0], nn)[base[0] := y[nn]], MoveFront(y, nn);
    assert Seg(a, base[0], y, 0);
    assert a[base[0]..base[0] + 16][nn] == y[0..16][nn];
    forall l | 0 <= l < 16
      ensures Seg(r, base[l], y', l)
    {
      assert Seg(a, base[l], y, l);
      if l == 0 {
        FirstSegmentEntries(a, base[0], y, nn, r, y');
      } else {
        BaseBound(base, 0, l);
        assert r[base[l]..base[l] + 16] == a[base[l]..base[l] + 16];
        assert y'[16 * l..16 * l + 16] == y[16 * l..16 * l + 16];
      }
    }
  }

  lemma FirstSegmentEntries(a: seq<Byte>, at: nat, y: seq<Byte>, nn: nat, r: seq<Byte>, y': seq<Byte>)
    requires Seg(a, at, y, 0) && nn < 16 && |y| == 256 && r == Shifted(a, at, nn)[at := y[nn]] && y' == MoveFront(y, nn)
    ensures r[at..at + 16] == y'[0..16]
  {
    var s := a[at..at + 16];
    assert y[0..16] == s;
    assert forall o :: 0 <= o < 16 ==> y[o] == s[o];
    assert forall o :: 0 <= o < 16 ==> a[at + o] == s[o];
    assert y'[0..16] == MoveFront(s, nn);
    forall o | 0 <= o < 16
      ensures r[at..at + 16][o] == MoveFront(s, nn)[o]
    {
      if 0 < o <= nn {
        assert r[at + o] == a[at + o - 1] == s[o - 1];
      } else if nn < o {
        assert r[at + o] == a[at + o];
      }
    }
  }

  lemma {:induction false} BaseBound(base: seq<int>, l: nat, m: nat)
    requires Apart(base) && l <= m < 16
    ensures base[l] + 16 * (m - l) <= base[m]
    decreases m
  {
    if l < m {
      BaseBound(base, l, m - 1);
      assert GapOk(base, m - 1);
    }
  }

  // ----- A position in another segment: every lower segment passes its last entry up and moves down by one.

  /** The starts while segment `k` is the next to take an entry at its front, for a position in segment `lno`. */
  ghost function Starts(base: seq<int>, k: nat, lno: nat): (r: seq<int>)
    requires |base| == 16
    ensures |r| == 16
  {
    seq(16, l requires 0 <= l < 16 =>
      if l == k && k == lno then base[l] + 1 else if k < l < lno then base[l] - 1 else base[l])
  }

  /** All but the first entry of segment `l` of `y` are in place, the second one at `at`. */
  ghost predicate Tail(a: seq<Byte>, at: int, y: seq<Byte>, l: nat) {
    0 <= at && at + 15 <= |a| && 16 * l + 16 <= |y| && a[at..at + 15] == y[16 * l + 1..16 * l + 16]
  }

  ghost predicate Passing(a: seq<Byte>, base0: seq<int>, y: seq<Byte>, y': seq<Byte>, k: nat, lno: nat) {
    && |a| == MTFA_SIZE && |y| == |y'| == 256 && Apart(base0) && base0[0] > 0 && k <= lno < 16 && 0 < lno
    && (forall l :: k < l < 16 ==> Seg(a, Starts(base0, k, lno)[l], y', l))
    && Tail(a, Starts(base0, k, lno)[k], y', k)
    && (forall l :: 0 <= l < k ==> Seg(a, base0[l], y, l))
  }

  /** What makes `y'` the list with an entry of segment `lno` moved to the front. */
  ghost predicate MovedUpTo(y: seq<Byte>, y': seq<Byte>, lno: nat) {
    |y| == |y'| == 256 && lno < 16 && forall i :: 0 < i <= 16 * lno ==> y'[i] == y[i - 1]
  }

  lemma TailOfLower(a: seq<Byte>, at: int, y: seq<Byte>, y': seq<Byte>, k: nat, lno: nat)
    requires Seg(a, at, y, k) && MovedUpTo(y, y', lno) && k < lno
    ensures Tail(a, at, y', k) && a[at + 15] == y'[16 * k + 16]
  {
    var s, t, t' := a[at..at + 16], a[at..at + 15], y'[16 * k + 1..16 * k + 16];
    assert s == y[16 * k..16 * k + 16];
    forall o | 0 <= o < 16
      ensures y'[16 * k + 1 + o] == s[o] == a[at + o] && (o < 15 ==> t[o] == t'[o])
    {
      assert y'[16 * k + 1 + o] == y[16 * k + o];
    }
  }

  /** Segment `k` takes the last entry of the segment below it. */
  lemma PassOne(a: seq<Byte>, base0: seq<int>, y: seq<Byte>, y': seq<Byte>, k: nat, lno: nat)
    requires Passing(a, base0, y, y', k, lno) && MovedUpTo(y, y', lno) && k > 0
    ensures var to, from := Starts(base0, k, lno)[k] - 1, base0[k - 1] + 15;
            && 0 <= from <= to < MTFA_SIZE
            && Starts(base0, k, lno)[k := to] == Starts(base0, k - 1, lno)
            && Starts(base0, k - 1, lno)[k - 1] == base0[k - 1]
            && Passing(a[to := a[from]], base0, y, y', k - 1, lno)
  {
    var to, from := Starts(base0, k, lno)[k] - 1, base0[k - 1] + 15;
    assert GapOk(base0, k - 1) && Seg(a, base0[k - 1], y, k - 1);
    BaseBound(base0, k, 15);
    BaseBound(base0, 0, k - 1);
    var r := a[to := a[from]];
    TailOfLower(a, base0[k - 1], y, y', k - 1, lno);
    assert y'[16 * (k - 1) + 16] == y'[16 * k];
    TailFrame(a, r, to, base0[k - 1], y', k - 1);
    var st := Starts(base0, k - 1, lno);
    forall l | k - 1 < l < 16
      ensures Seg(r, st[l], y', l)
    {
      if l == k {
        FrontFilled(a, to, y', k, r);
      } else {
        BaseBound(base0, k, l);
        SegFrame(a, r, to, Starts(base0, k, lno)[l], y', l);
      }
    }
    forall l | 0 <= l < k - 1
      ensures Seg(r, base0[l], y, l)
    {
      BaseBound(base0, l, k - 1);
      SegFrame(a, r, to, base0[l], y, l);
    }
    assert Starts(base0, k, lno)[k := to] == Starts(base0, k - 1, lno);
  }

  lemma SegFrame(a: seq<Byte>, r: seq<Byte>, to: nat, at: int, y: seq<Byte>, l: nat)
    requires to < |a| == |r| && r == a[to := r[to]] && Seg(a, at, y, l) && !(at <= to < at + 16)
    ensures Seg(r, at, y, l)
  {
    assert r[at..at + 16] == a[at..at + 16];
  }

  lemma TailFrame(a: seq<Byte>, r: seq<Byte>, to: nat, at: int, y: seq<Byte>, l: nat)
    requires to < |a| == |r| && r == a[to := r[to]] && Tail(a, at, y, l) && !(at <= to < at + 15)
    ensures Tail(r, at, y, l)
  {
    assert r[at..at + 15] == a[at..at + 15];
  }

  lemma FrontFilled(a: seq<Byte>, to: nat, y: seq<Byte>, l: nat, r: seq<Byte>)
    requires to + 1 <= |a| && Tail(a, to + 1, y, l) && r == a[to := y[16 * l]]
    ensures Seg(r, to, y, l)
  {
    assert r[to..to + 16] == [y[16 * l]] + a[to + 1..to + 16];
    assert y[16 * l..16 * l + 16] == [y[16 * l]] + y[16 * l + 1..16 * l + 16];
  }

  /** After the shift inside segment `lno` only its front is missing. */
  lemma PassStart(a: seq<Byte>, base: seq<int>, y: seq<Byte>, lno: nat, off: nat)
    requires TwoLevel(a, base, y) && 0 < lno < 16 && off < 16
    ensures 0 <= base[lno] && base[lno] + off < |a| && a[base[lno] + off] == y[16 * lno + off]
    ensures Passing(Shifted(a, base[lno], off), base, y, MoveFront(y, 16 * lno + off), lno, lno)
    ensures MovedUpTo(y, MoveFront(y, 16 * lno + off), lno)
  {
    var at, nn := base[lno], 16 * lno + off;
    var r, y' := Shifted(a, at, off), MoveFront(y, nn);
    assert Seg(a, at, y, lno);
    assert a[at..at + 16][off] == y[16 * lno..16 * lno + 16][off];
    StartTail(a, at, y, lno, off);
    var st := Starts(base, lno, lno);
    forall l | lno < l < 16
      ensures Seg(r, st[l], y', l)
    {
      assert Seg(a, base[l], y, l);
      BaseBound(base, lno, l);
      assert r[base[l]..base[l] + 16] == a[base[l]..base[l] + 16];
      assert y'[16 * l..16 * l + 16] == y[16 * l..16 * l + 16];
    }
    forall l | 0 <= l < lno
      ensures Seg(r, base[l], y, l)
    {
      assert Seg(a, base[l], y, l);
      BaseBound(base, l, lno);
      assert r[base[l]..base[l] + 16] == a[base[l]..base[l] + 16];
    }
  }

  lemma StartTail(a: seq<Byte>, at: int, y: seq<Byte>, lno: nat, off: nat)
    requires Seg(a, at, y, lno) && lno < 16 && off < 16 && |y| == 256
    ensures Tail(Shifted(a, at, off), at + 1, MoveFront(y, 16 * lno + off), lno)
  {
    var r, y' := Shifted(a, at, off), MoveFront(y, 16 * lno + off);
    var s, t, t' := a[at..at + 16], r[at + 1..at + 16], y'[16 * lno + 1..16 * lno + 16];
    assert s == y[16 * lno..16 * lno + 16];
    forall o | 0 <= o < 15
      ensures t[o] == t'[o]
    {
      if o < off {
        assert t[o] == a[at + o] == s[o] && t'[o] == y[16 * lno + o] == s[o];
      } else {
        assert t[o] == a[at + (1 + o)] == s[1 + o] && t'[o] == y[16 * lno + (1 + o)] == s[1 + o];
      }
    }
  }

  /** The entry itself goes to the front of the lowest segment. */
  lemma PassEnd(a: seq<Byte>, base0: seq<int>, y: seq<Byte>, y': seq<Byte>, lno: nat, uc: Byte)
    requires Passing(a, base0, y, y', 0, lno) && y'[0] == uc
    ensures var at := Starts(base0, 0, lno)[0] - 1;
            0 <= at < |a| && Spells(a[at := uc], Starts(base0, 0, lno)[0 := at], y')
  {
    var s := Starts(base0, 0, lno);
    var at := s[0] - 1;
    BaseBound(base0, 0, 15);
    var r, e := a[at := uc], s[0 := at];
    forall l | 0 <= l < 15
      ensures GapOk(e, l)
    {
      assert GapOk(base0, l);
    }
    forall l | 0 <= l < 16
      ensures Seg(r, e[l], y', l)
    {
      if l == 0 {
        FrontFilled(a, at, y', 0, r);
      } else {
        BaseBound(base0, 0, l);
        SegFrame(a, r, at, s[l], y', l);
      }
    }
  }

  method MoveFirst(mtfa: array<Byte>, mtfbase: array<int>, nn: nat, ghost y: seq<Byte>) returns (uc: Byte)
    requires mtfa as object != mtfbase && TwoLevel(mtfa[..], mtfbase[..], y) && nn < 16
    modifies mtfa
    ensures uc == y[nn] && TwoLevel(mtfa[..], mtfbase[..], MoveFront(y, nn))
  {
    FirstSegmentMoved(mtfa[..], mtfbase[..], y, nn);
    assert Seg(mtfa[..], mtfbase[..][0], y, 0);
    var pp := mtfbase[0];
    uc := mtfa[pp + nn];
    ShiftFirst(mtfa, pp, nn);
    Store(mtfa, pp, uc);
  }

  method TakeFromLower(mtfa: array<Byte>, mtfbase: array<int>, lno: nat, ghost base0: seq<int>, ghost y: seq<Byte>, ghost y': seq<Byte>,
                       ghost lno0: nat)
    requires mtfa as object != mtfbase && 0 < lno <= lno0 < 16 && MovedUpTo(y, y', lno0)
    requires Passing(mtfa[..], base0, y, y', lno, lno0) && mtfbase[..] == Starts(base0, lno, lno0)
    modifies mtfa, mtfbase
    ensures Passing(mtfa[..], base0, y, y', lno - 1, lno0) && mtfbase[..] == Starts(base0, lno - 1, lno0)
  {
    PassOne(mtfa[..], base0, y, y', lno, lno0);
    Store(mtfbase, lno, mtfbase[lno] - 1);
    Store(mtfa, mtfbase[lno], mtfa[mtfbase[lno - 1] + MTFL_SIZE - 1]);
  }

  method TakeOut(mtfa: array<Byte>, mtfbase: array<int>, lno: nat, off: nat, ghost y: seq<Byte>) returns (uc: Byte)
    requires mtfa as object != mtfbase && TwoLevel(mtfa[..], mtfbase[..], y) && 0 < lno < 16 && off < 16
    modifies mtfa, mtfbase
    ensures uc == y[16 * lno + off] && mtfbase[..] == Starts(old(mtfbase[..]), lno, lno)
    ensures Passing(mtfa[..], old(mtfbase[..]), y, MoveFront(y, 16 * lno + off), lno, lno)
    ensures MovedUpTo(y, MoveFront(y, 16 * lno + off), lno)
  {
    ghost var base0 := mtfbase[..];
    PassStart(mtfa[..], base0, y, lno, off);
    uc := mtfa[mtfbase[lno] + off];
    ShiftSegment(mtfa, mtfbase[lno], off);
    Store(mtfbase, lno, mtfbase[lno] + 1);
    assert mtfbase[..] == Starts(base0, lno, lno);
  }

  method PutFirst(mtfa: array<Byte>, mtfbase: array<int>, uc: Byte, ghost base0: seq<int>, ghost y: seq<Byte>,
                  ghost y': seq<Byte>, ghost lno0: nat)
    requires mtfa as object != mtfbase && lno0 < 16 && |base0| == 16 && mtfbase[..] == Starts(base0, 0, lno0)
    requires Passing(mtfa[..], base0, y, y', 0, lno0) && y'[0] == uc
    modifies mtfa, mtfbase
    ensures Spells(mtfa[..], mtfbase[..], y') && mtfbase[0] >= 0
  {
    PassEnd(mtfa[..], base0, y, y', lno0, uc);
    Store(mtfbase, 0, mtfbase[0] - 1);
    Store(mtfa, mtfbase[0], uc);
  }

  method MoveOther(mtfa: array<Byte>, mtfbase: array<int>, nn: nat, ghost y: seq<Byte>) returns (uc: Byte)
    requires mtfa as object != mtfbase && TwoLevel(mtfa[..], mtfbase[..], y) && 16 <= nn < 256
    modifies mtfa, mtfbase
    ensures uc == y[nn] && Spells(mtfa[..], mtfbase[..], MoveFront(y, nn)) && mtfbase[0] >= 0
  {
    hide Seg;
    ghost var base0, y' := mtfbase[..], MoveFront(y, nn);
    assert y'[0] == y[nn];
    hide MoveFront;
    var lno0, off := nn / MTFL_SIZE, nn % MTFL_SIZE;
    uc := TakeOut(mtfa, mtfbase, lno0, off, y);
    var lno: nat := lno0;
    while lno > 0
      invariant 0 <= lno <= lno0 && mtfbase[..] == Starts(base0, lno, lno0)
      invariant Passing(mtfa[..], base0, y, y', lno, lno0)
    {
      TakeFromLower(mtfa, mtfbase, lno, base0, y, y', lno0);
      lno := lno - 1;
    }
    PutFirst(mtfa, mtfbase, uc, base0, y, y', lno0);
  }

  // ----- Starting and starting again.

  /** Entries from `kk` on hold the end of the list; those below are still the old ones. */
  ghost predicate Copying(a: seq<Byte>, a0: seq<Byte>, y: seq<Byte>, kk: int) {
    && |a| == |a0| == MTFA_SIZE && |y| == 256 && MTFA_SIZE - 256 <= kk <= MTFA_SIZE
    && (forall k :: kk <= k < MTFA_SIZE ==> a[k] == y[k - (MTFA_SIZE - 256)])
    && a[..kk] == a0[..kk]
  }

  lemma CopyOne(a: seq<Byte>, a0: seq<Byte>, y: seq<Byte>, kk: int, x: Byte)
    requires Copying(a, a0, y, kk + 1) && kk >= MTFA_SIZE - 256 && x == y[kk - (MTFA_SIZE - 256)]
    ensures Copying(a[kk := x], a0, y, kk)
  {
    assert a[kk := x][..kk] == a[..kk + 1][..kk] == a0[..kk + 1][..kk] == a0[..kk];
  }

  /** The next entry to copy has not been overwritten, because segments only move up. */
  lemma CopyReads(a: seq<Byte>, a0: seq<Byte>, base: seq<int>, y: seq<Byte>, ii: nat, jj: nat)
    requires Spells(a0, base, y) && ii < 16 && jj < 16 && base[0] >= 0
    requires Copying(a, a0, y, MTFA_SIZE - 256 + 16 * ii + jj + 1)
    ensures 0 <= base[ii] && base[ii] + jj < MTFA_SIZE && a[base[ii] + jj] == y[16 * ii + jj]
  {
    BaseBound(base, 0, ii);
    BaseBound(base, ii, 15);
    var kk := MTFA_SIZE - 256 + 16 * ii + jj + 1;
    assert a[..kk][base[ii] + jj] == a0[..kk][base[ii] + jj];
    assert Seg(a0, base[ii], y, ii);
    assert a0[base[ii]..base[ii] + 16][jj] == y[16 * ii..16 * ii + 16][jj];
  }

  ghost function TopBase(base: seq<int>, ii: nat): (r: seq<int>)
    requires |base| == 16
    ensures |r| == 16
  {
    seq(16, l requires 0 <= l < 16 => if l < ii then base[l] else MTFA_SIZE - 256 + 16 * l)
  }

  lemma TopSpells(a: seq<Byte>, a0: seq<Byte>, base: seq<int>, y: seq<Byte>)
    requires Copying(a, a0, y, MTFA_SIZE - 256) && |base| == 16
    ensures TwoLevel(a, TopBase(base, 0), y)
  {
    var b := TopBase(base, 0);
    forall l | 0 <= l < 15
      ensures GapOk(b, l)
    {
    }
    forall l | 0 <= l < 16
      ensures Seg(a, b[l], y, l)
    {
      assert a[b[l]..b[l] + 16] == y[16 * l..16 * l + 16];
    }
  }

  /** Copies all segments to the top. */
  method Rebuild(mtfa: array<Byte>, mtfbase: array<int>, ghost y: seq<Byte>)
    requires mtfa as object != mtfbase && Spells(mtfa[..], mtfbase[..], y) && mtfbase[0] >= 0
    modifies mtfa, mtfbase
    ensures TwoLevel(mtfa[..], mtfbase[..], y)
  {
    ghost var a0, base0 := mtfa[..], mtfbase[..];
    var kk := MTFA_SIZE - 1;
    var ii: int := 256 / MTFL_SIZE - 1;
    assert TopBase(base0, 16) == base0;
    while ii >= 0
      invariant -1 <= ii < 16 && kk == MTFA_SIZE - 256 + 16 * (ii + 1) - 1
      invariant mtfbase[..] == TopBase(base0, ii + 1) && Copying(mtfa[..], a0, y, kk + 1)
    {
      kk := CopySegment(mtfa, mtfbase, kk, ii, a0, base0, y);
      Store(mtfbase, ii, kk + 1);
      assert TopBase(base0, ii + 1)[ii := kk + 1] == TopBase(base0, ii);
      ii := ii - 1;
    }
    TopSpells(mtfa[..], a0, base0, y);
  }

  method CopySegment(mtfa: array<Byte>, mtfbase: array<int>, kk0: int, ii: nat, ghost a0: seq<Byte>,
                     ghost base0: seq<int>, ghost y: seq<Byte>)
    returns (kk: int)
    requires mtfa as object != mtfbase && Spells(a0, base0, y) && base0[0] >= 0 && ii < 16
    requires kk0 == MTFA_SIZE - 256 + 16 * (ii + 1) - 1 && Copying(mtfa[..], a0, y, kk0 + 1)
    requires mtfbase.Length == 16 && mtfbase[ii] == base0[ii]
    modifies mtfa
    ensures kk == kk0 - 16 && Copying(mtfa[..], a0, y, kk + 1)
  {
    kk := kk0;
    var jj: int := MTFL_SIZE - 1;
    while jj >= 0
      invariant -1 <= jj < 16 && kk == MTFA_SIZE - 256 + 16 * ii + jj
      invariant Copying(mtfa[..], a0, y, kk + 1)
    {
      CopyReads(mtfa[..], a0, base0, y, ii, jj);
      CopyOne(mtfa[..], a0, y, kk, mtfa[mtfbase[ii] + jj]);
      Store(mtfa, kk, mtfa[mtfbase[ii] + jj]);
      kk := kk - 1;
      jj := jj - 1;
    }
  }

  /** The list in which every position holds itself. */
  method InitMtf(mtfa: array<Byte>, mtfbase: array<int>)
    requires mtfa as object != mtfbase && mtfa.Length == MTFA_SIZE && mtfbase.Length == 256 / MTFL_SIZE
    modifies mtfa, mtfbase
    ensures TwoLevel(mtfa[..], mtfbase[..], Identity(256))
  {
    ghost var a0, base0 := mtfa[..], mtfbase[..];
    var kk := MTFA_SIZE - 1;
    var ii: int := 256 / MTFL_SIZE - 1;
    assert TopBase(base0, 16) == base0;
    while ii >= 0
      invariant -1 <= ii < 16 && kk == MTFA_SIZE - 256 + 16 * (ii + 1) - 1
      invariant mtfbase[..] == TopBase(base0, ii + 1) && Copying(mtfa[..], a0, Identity(256), kk + 1)
    {
      var jj: int := MTFL_SIZE - 1;
      while jj >= 0
        invariant -1 <= jj < 16 && kk == MTFA_SIZE - 256 + 16 * ii + jj
        invariant mtfbase[..] == TopBase(base0, ii + 1) && Copying(mtfa[..], a0, Identity(256), kk + 1)
      {
        CopyOne(mtfa[..], a0, Identity(256), kk, ii * MTFL_SIZE + jj);
        Store(mtfa, kk, ii * MTFL_SIZE + jj);
        kk := kk - 1;
        jj := jj - 1;
      }
      Store(mtfbase, ii, kk + 1);
      assert TopBase(base0, ii + 1)[ii := kk + 1] == TopBase(base0, ii);
      ii := ii - 1;
    }
    TopSpells(mtfa[..], a0, base0, Identity(256));
  }

  /** Takes the entry at position `nn` to the front: the two-level list does what the plain list does. */
  method DecodeMtf(mtfa: array<Byte>, mtfbase: array<int>, nn: nat, ghost y: seq<Byte>) returns (uc: Byte)
    requires mtfa as object != mtfbase && TwoLevel(mtfa[..], mtfbase[..], y) && nn < 256
    modifies mtfa, mtfbase
    ensures uc == y[nn] && TwoLevel(mtfa[..], mtfbase[..], MoveFront(y, nn))
  {
    if nn < MTFL_SIZE {
      uc := MoveFirst(mtfa, mtfbase, nn, y);
    } else {
      uc := MoveOther(mtfa, mtfbase, nn, y);
      if mtfbase[0] == 0 {
        Rebuild(mtfa, mtfbase, MoveFront(y, nn));
      }
    }
  }

  /** The entry at the front, which runs repeat. */
  method Front(mtfa: array<Byte>, mtfbase: array<int>, ghost y: seq<Byte>) returns (uc: Byte)
    requires TwoLevel(mtfa[..], mtfbase[..], y)
    ensures uc == y[0]
  {
    ghost var a, base := mtfa[..], mtfbase[..];
    assert Seg(a, base[0], y, 0);
    assert a[base[0]..base[0] + 16][0] == y[0..16][0];
    uc := mtfa[mtfbase[0]];
  }
}
