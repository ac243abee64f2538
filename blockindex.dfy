/** The global element numbering: blocks own consecutive runs of element ids,
  * in file order, and an element id is mapped back to its block by counting
  * the block starts that lie below it. */
module BlockIndex {
  import opened Wrappers

  /** Total of the counts, added from the right. */
  function Sum(s: seq<nat>): nat
  {
    if s == [] then 0 else Sum(s[..|s| - 1]) + s[|s| - 1]
  }

  /** Reference definition of el_start_idx: entry i is the number of elements
    * held by the blocks before block i. */
  function Starts(counts: seq<nat>): (r: seq<nat>)
    ensures |r| == |counts|
  {
    seq(|counts|, i requires 0 <= i < |counts| => Sum(counts[..i]))
  }

  predicate NonDecreasing(a: seq<int>)
  {
    forall i, j :: 0 <= i <= j < |a| ==> a[i] <= a[j]
  }

  /** The recurrence the table is filled by: it starts at 0 and each entry
    * adds the previous block's count to the previous entry. */
  lemma StartsRecurrence(counts: seq<nat>, i: nat)
    requires 0 < i < |counts|
    ensures Starts(counts)[0] == 0
    ensures Starts(counts)[i] == Starts(counts)[i - 1] + counts[i - 1]
  {
    assert counts[..i][..i - 1] == counts[..i - 1];
  }

  /** The table never decreases, since every count is a natural number. */
  lemma {:induction false} StartsNonDecreasing(counts: seq<nat>)
    ensures NonDecreasing(Starts(counts))
  {
    var st := Starts(counts);
    forall i, j | 0 <= i <= j < |st|
      ensures st[i] <= st[j]
    {
      StepUp(counts, i, j);
    }
  }

  lemma {:induction false} StepUp(counts: seq<nat>, i: nat, j: nat)
    requires i <= j < |counts|
    ensures Starts(counts)[i] <= Starts(counts)[j]
    decreases j - i
  {
    if i < j {
      StepUp(counts, i, j - 1);
      StartsRecurrence(counts, j);
    }
  }

  /** The last block ends where the element count of all blocks ends. */
  lemma LastBlockEnd(counts: seq<nat>)
    requires |counts| > 0
    ensures Starts(counts)[|counts| - 1] + counts[|counts| - 1] == Sum(counts)
  {
    assert counts[..|counts| - 1] == counts[..|counts|][..|counts| - 1];
    assert counts[..|counts|] == counts;
  }

  /** np.searchsorted(a, x) with side 'left' on a sorted array: the number
    * of entries of a strictly below x. */
  function CountBelow(a: seq<int>, x: int): (r: nat)
    ensures r <= |a|
  {
    if a == [] then 0 else (if a[0] < x then 1 else 0) + CountBelow(a[1..], x)
  }

  /** On a non-decreasing array the count is the left insertion point of x:
    * every entry before it is below x and every entry from it on is not. */
  lemma {:induction false} SearchSortedLeft(a: seq<int>, x: int)
    requires NonDecreasing(a)
    ensures forall i :: 0 <= i < CountBelow(a, x) ==> a[i] < x
    ensures forall i :: CountBelow(a, x) <= i < |a| ==> x <= a[i]
  {
    if a != [] {
      assert NonDecreasing(a[1..]);
      SearchSortedLeft(a[1..], x);
      assert a[1..] != [] ==> a[0] <= a[1..][0];
    }
  }

  /** The owning block of a 1-based element id: an id in (start_k, start_k + count_k]
    * is located at ordinal k + 1. */
  lemma OwningBlock(counts: seq<nat>, k: nat, id: int)
    requires k < |counts|
    requires Starts(counts)[k] < id <= Starts(counts)[k] + counts[k]
    ensures CountBelow(Starts(counts), id) == k + 1
  {
    var st := Starts(counts);
    StartsNonDecreasing(counts);
    SearchSortedLeft(st, id);
    assert st[k] < id;
    if k + 1 < |counts| {
      StartsRecurrence(counts, k + 1);
      assert id <= st[k + 1];
    }
  }

  /** Conversely, a located ordinal r below the number of blocks names a block
    * whose 1-based range (start_{r-1}, start_{r-1} + count_{r-1}] holds the id. */
  lemma LocatedBlockContains(counts: seq<nat>, id: int)
    requires 0 < CountBelow(Starts(counts), id) < |counts|
    ensures var r := CountBelow(Starts(counts), id);
      Starts(counts)[r - 1] < id <= Starts(counts)[r - 1] + counts[r - 1]
  {
    var r := CountBelow(Starts(counts), id);
    StartsNonDecreasing(counts);
    SearchSortedLeft(Starts(counts), id);
    StartsRecurrence(counts, r);
  }

  /** An id past the last block is not rejected: every start lies below it, so
    * it is located at the last ordinal |counts|. */
  lemma PastLastBlock(counts: seq<nat>, id: int)
    requires Sum(counts) < id
    ensures CountBelow(Starts(counts), id) == |counts|
  {
    var st := Starts(counts);
    if |counts| > 0 {
      StartsNonDecreasing(counts);
      LastBlockEnd(counts);
      SearchSortedLeft(st, id);
      assert st[|counts| - 1] < id;
    }
  }

  /** dict((name, i + 1) for i, name in enumerate(names)): a later duplicate
    * overwrites an earlier one. */
  function Ordinals(names: seq<string>): map<string, nat>
  {
    if names == [] then map[]
    else Ordinals(names[..|names| - 1])[names[|names| - 1] := |names|]
  }

  /** The map's keys are the names; each name is sent to the 1-based position
    * of its last occurrence. */
  lemma {:induction false} OrdinalsLast(names: seq<string>)
    ensures Ordinals(names).Keys == set i | 0 <= i < |names| :: names[i]
    ensures forall k :: k in Ordinals(names) ==>
      1 <= Ordinals(names)[k] <= |names| && names[Ordinals(names)[k] - 1] == k
    ensures forall k, j :: k in Ordinals(names) && Ordinals(names)[k] <= j < |names| ==> names[j] != k
  {
    OrdinalsKeys(names);
    OrdinalsPositions(names);
  }

  lemma {:induction false} OrdinalsKeys(names: seq<string>)
    ensures Ordinals(names).Keys == set i | 0 <= i < |names| :: names[i]
  {
    if names != [] {
      var front := names[..|names| - 1];
      OrdinalsKeys(front);
      var last := names[|names| - 1];
      var all := set i | 0 <= i < |names| :: names[i];
      var before := set i | 0 <= i < |front| :: front[i];
      forall n | n in all
        ensures n in before + {last}
      {
        var i :| 0 <= i < |names| && names[i] == n;
        if i < |front| { assert front[i] == n; }
      }
      forall n | n in before
        ensures n in all
      {
        var i :| 0 <= i < |front| && front[i] == n;
        assert names[i] == n;
      }
      assert all == before + {last};
    }
  }

  lemma {:induction false} OrdinalsPositions(names: seq<string>)
    ensures forall k :: k in Ordinals(names) ==>
      1 <= Ordinals(names)[k] <= |names| && names[Ordinals(names)[k] - 1] == k
    ensures forall k, j :: k in Ordinals(names) && Ordinals(names)[k] <= j < |names| ==> names[j] != k
  {
    if names != [] {
      var front := names[..|names| - 1];
      OrdinalsPositions(front);
      assert forall i :: 0 <= i < |front| ==> front[i] == names[i];
    }
  }

  predicate DistinctNames(names: seq<string>)
  {
    forall i, j :: 0 <= i < j < |names| ==> names[i] != names[j]
  }

  /** With distinct names the map sends the i-th name to i + 1. */
  lemma OrdinalOfDistinct(names: seq<string>, i: nat)
    requires DistinctNames(names)
    requires i < |names|
    ensures names[i] in Ordinals(names) && Ordinals(names)[names[i]] == i + 1
  {
    OrdinalsLast(names);
  }

  /** The row offset ss_nodes subtracts from element ids, as written: 1 for the
    * first block and otherwise numel_blk[blkId - 1], the owning block's own
    * element count (for ordinal 0, numpy's index -1 reads the last count).
    * None where that index is out of range. */
  function RowOffset(blkId: nat, counts: seq<nat>): (r: Option<nat>)
    ensures blkId == 1 ==> r == Some(1)
    ensures 2 <= blkId <= |counts| ==> r == Some(counts[blkId - 1])
    ensures blkId == 0 && |counts| > 0 ==> r == Some(counts[|counts| - 1])
    ensures r.None? <==> (blkId == 0 && |counts| == 0) || (blkId > |counts| && blkId != 1)
  {
    if blkId == 1 then Some(1)
    else if 1 <= blkId <= |counts| then Some(counts[blkId - 1])
    else if blkId == 0 && |counts| > 0 then Some(counts[|counts| - 1])
    else None
  }

  /** The offset that turns a 1-based global element id into a 0-based row of
    * the owning block: the block's start plus one. */
  function IntendedRowOffset(blkId: nat, counts: seq<nat>): (r: Option<nat>)
    ensures r.Some? <==> 1 <= blkId <= |counts|
  {
    if 1 <= blkId <= |counts| then Some(Starts(counts)[blkId - 1] + 1) else None
  }

  /** With the intended offset, every id the search locates in block k lands on
    * a row of block k, and block 1 keeps the as-written offset of 1. */
  lemma IntendedRowInBlock(counts: seq<nat>, k: nat, id: int)
    requires k < |counts|
    requires Starts(counts)[k] < id <= Starts(counts)[k] + counts[k]
    ensures CountBelow(Starts(counts), id) == k + 1
    ensures IntendedRowOffset(k + 1, counts).Some?
    ensures 0 <= id - IntendedRowOffset(k + 1, counts).value < counts[k]
    ensures IntendedRowOffset(1, counts) == RowOffset(1, counts)
  {
    OwningBlock(counts, k, id);
    assert counts[..0] == [];
  }
}
