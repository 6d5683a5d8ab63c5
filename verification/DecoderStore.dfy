/** The decompressor's arrays as two objects: the move-to-front list, and the column being received and then walked.

    The column is kept in one of two representations; callers see the same bytes with either.
 */
module DecoderStore {
  import opened Arrays
  import opened InverseBwt
  import opened MoveToFront
  import opened Permutations
  import opened Rotations
  import opened SmallDecoder
  import opened TwoLevelMtf

  class MtfList {
    const mtfa: array<Byte>
    const mtfbase: array<int>
    /** The list. */
    ghost var yy: seq<Byte>

    ghost predicate Valid()
      reads this, mtfa, mtfbase
    {
      TwoLevel(mtfa[..], mtfbase[..], yy)
    }

    constructor ()
      ensures Valid() && fresh(this) && fresh(mtfa) && fresh(mtfbase)
    {
      mtfa := new Byte[MTFA_SIZE];
      mtfbase := new int[256 / MTFL_SIZE];
      new;
      InitMtf(mtfa, mtfbase);
      yy := Identity(256);
    }

    method Init()
      requires Valid()
      modifies this, mtfa, mtfbase
      ensures Valid() && yy == Identity(256)
    {
      InitMtf(mtfa, mtfbase);
      yy := Identity(256);
    }

    /** Takes the entry at position `nn` to the front. */
    method Move(nn: nat) returns (uc: Byte)
      requires Valid() && nn < 256
      modifies this, mtfa, mtfbase
      ensures Valid() && uc == old(yy)[nn] && yy == MoveFront(old(yy), nn)
    {
      uc := DecodeMtf(mtfa, mtfbase, nn, yy);
      yy := MoveFront(yy, nn);
    }

    method First() returns (uc: Byte)
      requires Valid()
      ensures uc == yy[0]
    {
      uc := Front(mtfa, mtfbase, yy);
    }
  }

  /** Room for the largest block. */
  const LARGEST := 900_000

  class Column {
    const small: bool
    const tt: array<int>
    const ll16: array<UInt16>
    const ll4: array<Byte>
    const unzftab: array<int>
    const cftab: array<int>
    const cftabCopy: array<int>
    var nblock: nat
    var tPos: nat

    /** The column. */
    ghost var s: seq<Byte>
    /** Where the walk starts, how many bytes it has read, and, in the small representation, the vector it follows. */
    ghost var orig: nat
    ghost var readCount: nat
    ghost var v: seq<int>

    ghost function Arrays(): set<object> {
      {tt as object, ll16 as object, ll4 as object, unzftab as object, cftab as object, cftabCopy as object}
    }

    ghost predicate Fixed() {
      && tt != unzftab && tt != cftab && tt != cftabCopy && unzftab != cftab && unzftab != cftabCopy && cftab != cftabCopy
      && unzftab.Length == 256 && cftab.Length == cftabCopy.Length == 257
      && (if small then ll16.Length == LARGEST && 2 * ll4.Length >= LARGEST else tt.Length == LARGEST)
    }

    /** The column is being received. */
    ghost predicate Receiving()
      reads this, Arrays()
    {
      && Fixed() && nblock == |s| <= LARGEST
      && (forall c :: 0 <= c < 256 ==> unzftab[c] == Count(s, c))
      && (if small then ll16[..nblock] == s else tt[..nblock] == s)
    }

    /** The column is being walked. */
    ghost predicate Walking()
      reads this, Arrays()
    {
      && Fixed() && nblock == |s| <= LARGEST && orig < |s|
      && (if small then
            Packs(ll16[..], ll4[..], v) && WalksFrom(v, s, orig) && IsCumTable(cftab[..], s) && tPos == RowAfter(s, orig, readCount)
          else
            IsWalkTable(tt[..], s) && tPos == RowAfter(s, orig, readCount + 1))
    }

    constructor (small: bool)
      ensures Receiving() && this.small == small && fresh(this) && fresh(Arrays())
    {
      this.small := small;
      tt := new int[if small then 0 else LARGEST];
      ll16 := new UInt16[if small then LARGEST else 0];
      ll4 := new Byte[if small then (1 + LARGEST) / 2 else 0];
      unzftab := new int[256](_ => 0);
      cftab := new int[257];
      cftabCopy := new int[257];
      nblock, tPos, s := 0, 0, [];
    }

    method Clear()
      requires Fixed()
      modifies this`nblock, this`s, unzftab
      ensures Receiving() && s == []
    {
      var i := 0;
      while i <= 255
        invariant 0 <= i <= 256 && forall c :: 0 <= c < i ==> unzftab[c] == 0
      {
        unzftab[i] := 0;
        i := i + 1;
      }
      nblock, s := 0, [];
    }

    /** One byte into the next entry. */
    method Store(uc: Byte, ghost t: seq<Byte>)
      requires Fixed() && nblock == |t| < LARGEST && (if small then ll16[..nblock] == t else tt[..nblock] == t)
      modifies this`nblock, tt, ll16
      ensures nblock == |t| + 1 && (if small then ll16[..nblock] == t + [uc] else tt[..nblock] == t + [uc])
    {
      if small {
        ll16[nblock] := uc;
      } else {
        tt[nblock] := uc;
      }
      nblock := nblock + 1;
    }

    method Put(uc: Byte)
      requires Receiving() && nblock < LARGEST
      modifies this`nblock, this`s, tt, ll16, unzftab
      ensures Receiving() && s == old(s) + [uc]
    {
      CountsOne(s, uc);
      unzftab[uc] := unzftab[uc] + 1;
      Store(uc, s);
      s := s + [uc];
    }

    /** A run of `es` copies. */
    method PutRun(uc: Byte, es: nat)
      requires Receiving() && nblock + es <= LARGEST
      modifies this`nblock, this`s, tt, ll16, unzftab
      ensures Receiving() && s == old(s) + Repeat(uc, es)
    {
      CountsRun(s, uc, es);
      unzftab[uc] := unzftab[uc] + es;
      ghost var t := s;
      ghost var k := 0;
      var left := es;
      assert s + Repeat(uc, 0) == s;
      while left > 0
        invariant s == old(s) && left + k == es && t == s + Repeat(uc, k) && nblock == |t| && nblock + left <= LARGEST
        invariant if small then ll16[..nblock] == t else tt[..nblock] == t
        invariant forall c :: 0 <= c < 256 ==> unzftab[c] == Count(s + Repeat(uc, es), c)
      {
        Store(uc, t);
        assert s + Repeat(uc, k) + [uc] == s + Repeat(uc, k + 1);
        t := t + [uc];
        k := k + 1;
        left := left - 1;
      }
      s := t;
    }

    /** Builds the table or the vector to walk; the consistency checks on the counts cannot fail. */
    method Prepare(origPtr: nat)
      requires Receiving() && origPtr < nblock
      modifies this`tPos, this`orig, this`readCount, this`v, tt, ll16, ll4, cftab, cftabCopy
      ensures Walking() && orig == origPtr && readCount == 0
    {
      MakeCumTable(unzftab, cftab, s);
      var ok := CheckTables(unzftab, cftab, nblock, s);
      assert ok;
      orig, readCount := origPtr, 0;
      if small {
        var i := 0;
        while i <= 256
          invariant 0 <= i <= 257 && cftabCopy[..i] == cftab[..i]
          invariant ll16[..nblock] == s && IsCumTable(cftab[..], s) && nblock == |s| && orig == origPtr && readCount == 0
        {
          cftabCopy[i] := cftab[i];
          assert cftabCopy[..i + 1] == cftabCopy[..i] + [cftab[i]] && cftab[..i + 1] == cftab[..i] + [cftab[i]];
          i := i + 1;
        }
        assert cftabCopy[..] == cftabCopy[..257] && cftab[..] == cftab[..257];
        MakeT(ll16, ll4, cftabCopy, nblock, s);
        v := ReverseCycle(ll16, ll4, origPtr, s);
        tPos := origPtr;
      } else {
        MakeWalkTable(tt, cftab, nblock, s);
        WalkTableAt(tt[..], s, origPtr);
        tPos := tt[origPtr] / 256;
      }
    }

    /** The next byte of the walk: BZ_GET_FAST or BZ_GET_SMALL. */
    method Get() returns (c: Byte)
      requires Walking()
      modifies this`tPos, this`readCount
      ensures Walking() && c == ReadAt(s, orig, old(readCount)) && readCount == old(readCount) + 1
    {
      if small {
        c, tPos := GetSmall(ll16, ll4, cftab, tPos, s, orig, v, readCount);
      } else {
        c, tPos := GetFast(tt, tPos, s, orig, readCount);
      }
      readCount := readCount + 1;
    }
  }

  lemma CountsOne(s: seq<Byte>, uc: Byte)
    ensures forall c :: Count(s + [uc], c) == Count(s, c) + if c == uc then 1 else 0
  {
    assert (s + [uc])[..|s|] == s;
  }

  lemma {:induction false} CountsRun(s: seq<Byte>, uc: Byte, es: nat)
    ensures forall c :: Count(s + Repeat(uc, es), c) == Count(s, c) + if c == uc then es else 0
    decreases es
  {
    if es == 0 {
      assert s + Repeat(uc, 0) == s;
    } else {
      CountsRun(s, uc, es - 1);
      CountsOne(s + Repeat(uc, es - 1), uc);
      assert s + Repeat(uc, es) == s + Repeat(uc, es - 1) + [uc];
    }
  }
}
