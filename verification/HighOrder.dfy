/**
 The free list for large blocks: `free` looks up where a block belongs, merges it
 into a touching neighbour or inserts it.
 */
module HighOrder {
  import opened Options
  import opened Blocks

  /** `FreeMem::new`: at least one unit long and aligned to the unit. */
  function NewFreeMem(addr: nat, len: nat, unit: nat): Option<Block>
    requires unit > 0
  {
    if len < unit then None
    else if addr % unit != 0 then None
    else Some(Block(addr, len))
  }

  /** `FreeMem::merge`: the joined block, if the two touch. */
  function Merge(b: Block, other: Block): (r: Option<Block>)
    ensures r.Some? <==> b.End() == other.base || other.End() == b.base
    ensures r.Some? ==>
              (forall x :: r.value.Has(x) <==> b.Has(x) || other.Has(x)) && r.value.size == b.size + other.size
  {
    if b.End() == other.base then Some(Block(b.base, b.size + other.size))
    else if other.End() == b.base then Some(Block(other.base, other.size + b.size))
    else None
  }

  /** Sorted by start, not empty, and no two overlap. */
  ghost predicate SortedFree(list: seq<Block>) {
    && (forall i :: 0 <= i < |list| ==> list[i].size > 0)
    && (forall i, j :: 0 <= i < j < |list| ==> list[i].End() <= list[j].base)
  }

  /** No byte of b is in the list. */
  ghost predicate Apart(list: seq<Block>, b: Block) {
    forall i :: 0 <= i < |list| ==> list[i].End() <= b.base || b.End() <= list[i].base
  }

  /** Everything before i starts below b, everything from i on above it. */
  predicate Belongs(list: seq<Block>, b: Block, i: nat) {
    && i <= |list|
    && (forall k :: 0 <= k < i ==> list[k].base < b.base)
    && (forall k :: i <= k < |list| ==> b.base < list[k].base)
  }

  lemma {:induction false} CoverReplace(x: nat, list: seq<Block>, i: nat, b: Block)
    requires i < |list|
    ensures Cover(x, list[i := b]) ==
            Cover(x, list) - (if list[i].Has(x) then 1 else 0) + (if b.Has(x) then 1 else 0)
  {
    if i == 0 {
      assert list[i := b][1..] == list[1..];
    } else {
      assert list[i := b][1..] == list[1..][i - 1 := b];
      CoverReplace(x, list[1..], i - 1, b);
    }
  }

  lemma CoverInsert(x: nat, list: seq<Block>, i: nat, b: Block)
    requires i <= |list|
    ensures Cover(x, list[..i] + [b] + list[i..]) == Cover(x, list) + (if b.Has(x) then 1 else 0)
  {
    var low, high := list[..i], list[i..];
    assert list == low + high;
    CoverConcat(x, low + [b], high);
    CoverConcat(x, low, [b]);
    CoverConcat(x, low, high);
    assert [b][1..] == [];
  }

  /** Disjoint from the list is the same as covered by nothing in it. */
  lemma ApartFromCover(list: seq<Block>, b: Block)
    requires SortedFree(list) && b.size > 0
    requires forall x :: b.Has(x) ==> Cover(x, list) == 0
    ensures Apart(list, b)
  {
    forall i | 0 <= i < |list| ensures list[i].End() <= b.base || b.End() <= list[i].base {
      if list[i].base < b.End() && b.base < list[i].End() {
        var x := if list[i].base < b.base then b.base else list[i].base;
        CoverPositive(x, list, i);
      }
    }
  }

  /** Only the two elements around its place can touch a block. */
  lemma FarFromPlace(list: seq<Block>, b: Block, i: nat, k: nat)
    requires SortedFree(list) && Apart(list, b) && b.size > 0 && Belongs(list, b, i)
    requires k < |list| && k != i && k + 1 != i
    ensures Merge(list[k], b).None?
  {
    if i < k {
      assert list[i].End() <= list[k].base;
    } else {
      assert list[k].End() <= list[i - 1].base;
    }
  }

  /** Growing a block over a neighbour that nobody else touches keeps the list sorted. */
  lemma GrowSorted(list: seq<Block>, b: Block, i: nat, k: nat)
    requires SortedFree(list) && Apart(list, b) && b.size > 0 && Belongs(list, b, i)
    requires k < |list| && Merge(list[k], b).Some?
    ensures SortedFree(list[k := Merge(list[k], b).value])
  {
    assert k == i || k + 1 == i by {
      if k != i && k + 1 != i {
        FarFromPlace(list, b, i, k);
      }
    }
    var list' := list[k := Merge(list[k], b).value];
    forall p, q | 0 <= p < q < |list'| ensures list'[p].End() <= list'[q].base {
      assert list[p].End() <= list[q].base;
      if p == k {
        assert b.base < list[q].base || q < i;
      }
    }
  }

  lemma InsertSorted(list: seq<Block>, b: Block, i: nat)
    requires SortedFree(list) && Apart(list, b) && b.size > 0 && Belongs(list, b, i)
    ensures SortedFree(list[..i] + [b] + list[i..])
  {
    var list' := list[..i] + [b] + list[i..];
    forall p, q | 0 <= p < q < |list'| ensures list'[p].End() <= list'[q].base {
      assert p < i ==> list'[p] == list[p];
      assert q > i ==> list'[q] == list[q - 1];
      assert p > i ==> list'[p] == list[p - 1];
      assert q < i ==> list'[q] == list[q];
    }
  }

  // ---------------------------------------------------------------- the list after a free

  /** The list after b was freed at its place i: merged into the element there, or into the
      one before, or into the one behind, or else inserted. */
  function FreeAt(list: seq<Block>, b: Block, i: nat): seq<Block>
    requires i <= |list|
  {
    if i < |list| && Merge(list[i], b).Some? then list[i := Merge(list[i], b).value]
    else if i > 0 && Merge(list[i - 1], b).Some? then list[i - 1 := Merge(list[i - 1], b).value]
    else if i + 1 < |list| && Merge(list[i + 1], b).Some? then list[i + 1 := Merge(list[i + 1], b).value]
    else list[..i] + [b] + list[i..]
  }

  lemma MergeCover(x: nat, list: seq<Block>, b: Block, k: nat)
    requires k < |list| && Merge(list[k], b).Some?
    ensures Cover(x, list[k := Merge(list[k], b).value]) == Cover(x, list) + (if b.Has(x) then 1 else 0)
  {
    CoverReplace(x, list, k, Merge(list[k], b).value);
    assert !(list[k].Has(x) && b.Has(x));
  }

  /** Exactly the bytes of b are added, even where the list had them already. */
  lemma FreeAtCover(x: nat, list: seq<Block>, b: Block, i: nat)
    requires i <= |list|
    ensures Cover(x, FreeAt(list, b, i)) == Cover(x, list) + (if b.Has(x) then 1 else 0)
  {
    if i < |list| && Merge(list[i], b).Some? {
      MergeCover(x, list, b, i);
    } else if i > 0 && Merge(list[i - 1], b).Some? {
      MergeCover(x, list, b, i - 1);
    } else if i + 1 < |list| && Merge(list[i + 1], b).Some? {
      MergeCover(x, list, b, i + 1);
    } else {
      CoverInsert(x, list, i, b);
    }
  }

  /** A block that is not in the list keeps it sorted and disjoint, and becomes a new element
      exactly when it touches no element. */
  lemma FreeAtSorted(list: seq<Block>, b: Block, i: nat)
    requires SortedFree(list) && Apart(list, b) && b.size > 0 && Belongs(list, b, i)
    ensures SortedFree(FreeAt(list, b, i))
    ensures |FreeAt(list, b, i)| == |list| +
            if exists k :: 0 <= k < |list| && Merge(list[k], b).Some? then 0 else 1
  {
    if i < |list| && Merge(list[i], b).Some? {
      GrowSorted(list, b, i, i);
    } else if i > 0 && Merge(list[i - 1], b).Some? {
      GrowSorted(list, b, i, i - 1);
    } else {
      forall k | 0 <= k < |list| ensures Merge(list[k], b).None? {
        if k != i && k + 1 != i {
          FarFromPlace(list, b, i, k);
        }
      }
      InsertSorted(list, b, i);
    }
  }

  // ---------------------------------------------------------------- touching neighbours

  predicate TouchAt(list: seq<Block>, k: nat) {
    k + 1 < |list| && list[k].End() == list[k + 1].base
  }

  /** Two neighbouring elements touch and could be one. */
  ghost predicate Touching(list: seq<Block>) {
    exists k: nat :: TouchAt(list, k)
  }

  predicate BridgeAt(list: seq<Block>, b: Block, k: nat) {
    k + 1 < |list| && list[k].End() == b.base && b.End() == list[k + 1].base
  }

  /** The block fills the gap between two neighbouring elements. */
  ghost predicate Bridges(list: seq<Block>, b: Block) {
    exists k: nat :: BridgeAt(list, b, k)
  }

  /** Where neighbours touch after the block was merged into the element at its place. */
  lemma TouchMergedAt(list: seq<Block>, b: Block, i: nat, k: nat)
    requires SortedFree(list) && Apart(list, b) && b.size > 0 && Belongs(list, b, i)
    requires i < |list| && Merge(list[i], b).Some?
    ensures TouchAt(FreeAt(list, b, i), k) <==> TouchAt(list, k) || BridgeAt(list, b, k)
  {
    assert b.End() == list[i].base && (i > 0 ==> list[i - 1].End() <= b.base);
    if k + 1 < |list| && k + 1 != i {
      assert list[k].End() <= list[k + 1].base;
    }
  }

  lemma TouchMergedBefore(list: seq<Block>, b: Block, i: nat, k: nat)
    requires SortedFree(list) && Apart(list, b) && b.size > 0 && Belongs(list, b, i)
    requires i > 0 && Merge(list[i - 1], b).Some? && (i < |list| ==> Merge(list[i], b).None?)
    ensures TouchAt(FreeAt(list, b, i), k) <==> TouchAt(list, k)
    ensures !BridgeAt(list, b, k)
  {
    assert list[i - 1].End() == b.base && (i < |list| ==> b.End() <= list[i].base);
  }

  /** `more` is the list with b put in at i. */
  ghost predicate PutIn(list: seq<Block>, more: seq<Block>, b: Block, i: nat) {
    && i <= |list| && |more| == |list| + 1 && more[i] == b
    && (forall m :: 0 <= m < i ==> more[m] == list[m])
    && (forall m :: i < m < |more| ==> more[m] == list[m - 1])
  }

  lemma TouchInserted(list: seq<Block>, more: seq<Block>, b: Block, i: nat, k: nat)
    requires SortedFree(list) && Apart(list, b) && b.size > 0 && Belongs(list, b, i)
    requires PutIn(list, more, b, i) && forall m :: 0 <= m < |list| ==> Merge(list[m], b).None?
    ensures TouchAt(list, k) ==> TouchAt(more, if k < i then k else k + 1)
    ensures TouchAt(more, k) ==> TouchAt(list, if k < i || k == 0 then k else k - 1)
    ensures !BridgeAt(list, b, k)
  {
    assert i > 0 ==> list[i - 1].End() <= b.base;
    assert i < |list| ==> b.End() <= list[i].base;
  }

  /** Only one neighbour takes the block: after the free two neighbours touch exactly when
      two touched before or the block filled the gap between two. */
  lemma TouchingIff(list: seq<Block>, b: Block, i: nat)
    requires SortedFree(list) && Apart(list, b) && b.size > 0 && Belongs(list, b, i)
    ensures Touching(FreeAt(list, b, i)) <==> Touching(list) || Bridges(list, b)
  {
    if i < |list| && Merge(list[i], b).Some? {
      forall k: nat ensures TouchAt(FreeAt(list, b, i), k) <==> TouchAt(list, k) || BridgeAt(list, b, k) {
        TouchMergedAt(list, b, i, k);
      }
    } else if i > 0 && Merge(list[i - 1], b).Some? {
      forall k: nat ensures (TouchAt(FreeAt(list, b, i), k) <==> TouchAt(list, k)) && !BridgeAt(list, b, k) {
        TouchMergedBefore(list, b, i, k);
      }
    } else {
      forall m | 0 <= m < |list| ensures Merge(list[m], b).None? {
        if m != i && m + 1 != i {
          FarFromPlace(list, b, i, m);
        }
      }
      InsertedTouching(list, b, i);
    }
  }

  lemma InsertedTouching(list: seq<Block>, b: Block, i: nat)
    requires SortedFree(list) && Apart(list, b) && b.size > 0 && Belongs(list, b, i)
    requires forall m :: 0 <= m < |list| ==> Merge(list[m], b).None?
    ensures Touching(list[..i] + [b] + list[i..]) <==> Touching(list) || Bridges(list, b)
  {
    var more := list[..i] + [b] + list[i..];
    assert PutIn(list, more, b, i);
    if k: nat :| TouchAt(list, k) {
      TouchInserted(list, more, b, i, k);
    }
    if k: nat :| TouchAt(more, k) {
      TouchInserted(list, more, b, i, k);
    }
    forall k: nat ensures !BridgeAt(list, b, k) {
      TouchInserted(list, more, b, i, k);
    }
  }

  /** Three units freed, the middle one last, stay two elements that touch. */
  lemma MiddleFreedLast(unit: nat)
    requires unit > 0
    ensures var list, b := [Block(0, unit), Block(2 * unit, unit)], Block(unit, unit);
            && SortedFree(list) && Apart(list, b) && Belongs(list, b, 1) && !Touching(list)
            && FreeAt(list, b, 1) == [Block(0, unit), Block(unit, 2 * unit)]
            && Touching(FreeAt(list, b, 1))
  {
    var list, b := [Block(0, unit), Block(2 * unit, unit)], Block(unit, unit);
    assert Merge(list[1], b) == Some(Block(unit, 2 * unit));
    assert TouchAt(FreeAt(list, b, 1), 0);
  }

  // ---------------------------------------------------------------- in place

  class HighOrderAlloc {
    var freeList: seq<Block>

    ghost predicate Valid()
      reads this
    {
      SortedFree(freeList)
    }

    constructor ()
      ensures Valid() && freeList == []
    {
      freeList := [];
    }

    /** `binary_search` by start: the index, or where the block belongs. */
    method Search(b: Block) returns (found: bool, i: nat)
      requires Valid()
      ensures found ==> i < |freeList| && freeList[i].base == b.base
      ensures !found ==> Belongs(freeList, b, i)
    {
      var lo, hi := 0, |freeList|;
      while lo < hi
        invariant lo <= hi <= |freeList|
        invariant forall k :: 0 <= k < lo ==> freeList[k].base < b.base
        invariant forall k :: hi <= k < |freeList| ==> b.base < freeList[k].base
      {
        var mid := (lo + hi) / 2;
        if freeList[mid].base == b.base {
          return true, mid;
        } else if freeList[mid].base < b.base {
          assert forall k :: 0 <= k < mid ==> freeList[k].End() <= freeList[mid].base;
          lo := mid + 1;
        } else {
          assert forall k :: mid < k < |freeList| ==> freeList[mid].End() <= freeList[k].base;
          hi := mid;
        }
      }
      return false, lo;
    }

    /** `free`: panics exactly on a block whose start is in the list already.  Otherwise
        exactly its bytes are added, and a block that was not in the list leaves it sorted
        and disjoint, with one element more exactly when nothing touches it, and with
        touching neighbours exactly when there were some or it filled a gap. */
    method Free(b: Block) returns (ok: bool)
      requires Valid() && b.size > 0
      modifies this`freeList
      ensures ok <==> forall k :: 0 <= k < |old(freeList)| ==> old(freeList)[k].base != b.base
      ensures !ok ==> freeList == old(freeList)
      ensures ok ==> exists i :: Belongs(old(freeList), b, i) && freeList == FreeAt(old(freeList), b, i)
      ensures ok ==> forall x :: Cover(x, freeList) == old(Cover(x, freeList)) + (if b.Has(x) then 1 else 0)
      ensures Apart(old(freeList), b) ==>
                && ok && Valid()
                && |freeList| == |old(freeList)| +
                   (if exists k :: 0 <= k < |old(freeList)| && Merge(old(freeList)[k], b).Some? then 0 else 1)
                && (Touching(freeList) <==> Touching(old(freeList)) || Bridges(old(freeList), b))
    {
      var found, i := Search(b);
      if found {
        return false;                     // "Duplicate FreeMem found"
      }
      forall x ensures Cover(x, FreeAt(freeList, b, i)) == Cover(x, freeList) + (if b.Has(x) then 1 else 0) {
        FreeAtCover(x, freeList, b, i);
      }
      if Apart(freeList, b) {
        FreeAtSorted(freeList, b, i);
        TouchingIff(freeList, b, i);
      }
      if i < |freeList| && Merge(freeList[i], b).Some? {
        freeList := freeList[i := Merge(freeList[i], b).value];
      } else if i > 0 && Merge(freeList[i - 1], b).Some? {   // `i - 1` wraps at zero and finds nothing
        freeList := freeList[i - 1 := Merge(freeList[i - 1], b).value];
      } else if i + 1 < |freeList| && Merge(freeList[i + 1], b).Some? {
        freeList := freeList[i + 1 := Merge(freeList[i + 1], b).value];
      } else {
        freeList := freeList[..i] + [b] + freeList[i..];
      }
      ok := true;
    }
  }
}
