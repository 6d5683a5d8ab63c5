/** The block sort as the compressor calls it: whichever algorithm runs, the order is weakly sorted and the block is
    as it was.
 */
module BlockSort {
  import opened FallbackQSort
  import Fallback = FallbackSort
  import opened MainCompare
  import Buckets = MainSort
  import opened Permutations
  import opened Rotations
  import opened TwoByteBuckets

  /** The arrays the sort works in. */
  class SortSpace {
    const ptr: array<int>
    const eclass: array<int>
    const bhtab: array<bool>
    const ftab: array<int>
    const quadrant: array<int>

    ghost predicate Fits(n: nat)
    {
      && ptr != eclass && ptr != ftab && ptr != quadrant && eclass != ftab && eclass != quadrant && ftab != quadrant
      && n <= ptr.Length && n <= eclass.Length && n + 96 <= bhtab.Length
      && ftab.Length == KEYS + 1 && n + N_OVERSHOOT <= quadrant.Length
    }

    ghost function Arrays(): set<object> {
      {ptr as object, eclass as object, bhtab as object, ftab as object, quadrant as object}
    }

    constructor (level: nat)
      requires 1 <= level <= 9
      ensures Fits(100_000 * level) && fresh(this) && fresh(Arrays())
    {
      ptr := new int[100_000 * level];
      eclass := new int[100_000 * level + N_OVERSHOOT];
      bhtab := new bool[65537 * 32];
      ftab := new int[KEYS + 1];
      quadrant := new int[100_000 * level + N_OVERSHOOT];
    }

    /** BZ2_blockSort: sorts the rotations of the block and finds the row of the block itself (the assertion with code
        1003 holds).  Short blocks, and blocks that use up the budget of the main sort, go to the fallback sort. */
    method Sort(block: array<int>, nblock: nat, workFactor: int, ghost b: seq<Byte>) returns (origPtr: nat)
      requires Fits(nblock) && block !in {ptr, eclass, ftab, quadrant}
      requires 0 < nblock == |b| <= MAX_BLOCK && nblock + N_OVERSHOOT <= block.Length && block[..nblock] == b
      modifies Arrays(), block
      ensures WeaklySorted(b, ptr[..nblock]) && block[..nblock] == b
      ensures origPtr < nblock && ptr[origPtr] == 0
    {
      hide WeaklySorted;
      if nblock < 10000 {
        Fallback.FallbackSort(ptr, eclass, block, bhtab, nblock, b);
      } else {
        var wfact := if workFactor < 1 then 1 else if workFactor > 100 then 100 else workFactor;
        var budgetInit := nblock * ((wfact - 1) / 3);
        var budget := Buckets.MainSort(ptr, block, quadrant, ftab, nblock, budgetInit, b);
        if budget < 0 {
          Fallback.FallbackSort(ptr, eclass, block, bhtab, nblock, b);
        }
      }
      origPtr := FindOrigin(nblock, b);
    }

    method FindOrigin(nblock: nat, ghost b: seq<Byte>) returns (origPtr: nat)
      requires 0 < nblock == |b| <= ptr.Length && WeaklySorted(b, ptr[..nblock])
      ensures origPtr < nblock && ptr[origPtr] == 0
    {
      PermSurjective(ptr[..nblock], nblock, 0);
      ghost var row :| 0 <= row < nblock && ptr[..nblock][row] == 0;
      assert ptr[row] == 0;
      origPtr := 0;
      while ptr[origPtr] != 0
        invariant 0 <= origPtr <= row
        decreases row - origPtr
      {
        origPtr := origPtr + 1;
      }
    }
  }
}
