/** Blocks of physical memory and how often they cover an address. */
module Blocks {

  /** The bytes base .. base + size - 1. */
  datatype Block = Block(base: nat, size: nat) {
    predicate Has(x: nat) { base <= x < base + size }
    function End(): nat { base + size }
  }

  /** How many of the blocks hold the byte at x.  Two collections that cover every address
      equally often hold the same memory, and one that covers none twice is disjoint. */
  function Cover(x: nat, bs: seq<Block>): nat {
    if bs == [] then 0 else (if bs[0].Has(x) then 1 else 0) + Cover(x, bs[1..])
  }

  lemma {:induction false} CoverConcat(x: nat, a: seq<Block>, b: seq<Block>)
    ensures Cover(x, a + b) == Cover(x, a) + Cover(x, b)
  {
    if a == [] {
      assert a + b == b;
    } else {
      assert (a + b)[1..] == a[1..] + b;
      CoverConcat(x, a[1..], b);
    }
  }

  lemma {:induction false} CoverPositive(x: nat, bs: seq<Block>, i: nat)
    requires i < |bs| && bs[i].Has(x)
    ensures Cover(x, bs) >= 1
  {
    if i > 0 {
      CoverPositive(x, bs[1..], i - 1);
    }
  }

  lemma {:induction false} CoverZero(x: nat, bs: seq<Block>)
    requires forall i :: 0 <= i < |bs| ==> !bs[i].Has(x)
    ensures Cover(x, bs) == 0
  {
    if bs != [] {
      CoverZero(x, bs[1..]);
    }
  }

  /** A byte of two different blocks is covered twice. */
  lemma {:induction false} CoverTwice(x: nat, bs: seq<Block>, i: nat, j: nat)
    requires i < j < |bs| && bs[i].Has(x) && bs[j].Has(x)
    ensures Cover(x, bs) >= 2
  {
    if i > 0 {
      CoverTwice(x, bs[1..], i - 1, j - 1);
    } else {
      CoverPositive(x, bs[1..], j - 1);
    }
  }

  /** No byte is in two of the blocks. */
  ghost predicate PairwiseDisjoint(bs: seq<Block>) {
    forall i, j, x: nat :: 0 <= i < j < |bs| ==> !(bs[i].Has(x) && bs[j].Has(x))
  }

  /** Blocks that cover nothing twice are pairwise disjoint. */
  lemma CoverOnceDisjoint(bs: seq<Block>)
    requires forall x: nat :: Cover(x, bs) <= 1
    ensures PairwiseDisjoint(bs)
  {
    forall i, j, x: nat | 0 <= i < j < |bs| ensures !(bs[i].Has(x) && bs[j].Has(x)) {
      if bs[i].Has(x) && bs[j].Has(x) {
        CoverTwice(x, bs, i, j);
      }
    }
  }
}
