/**
 `dissolve`: cutting a range of memory into power-of-two blocks that are aligned to
 their own size, one block at a time from the front.
 */
module Dissolve {
  import opened Options
  import opened Blocks
  import opened PowersOfTwo

  const ADDRESS_LIMIT: nat := 0x10_0000_0000_0000   // 2^52, the physical address space

  /** The size of the next block: what the alignment of addr allows, unless that is more
      than what is left.  An address of zero is taken as aligned to 2^63. */
  function BlockSize(addr: nat, len: nat): nat
    requires len > 0
  {
    var tgt := if addr == 0 then 0x8000_0000_0000_0000 else Pow2(TrailingZeros(addr));
    if tgt > len then Pow2(Log2(len)) else tgt
  }

  predicate AlignedBlock(b: Block) {
    IsPow2(b.size) && b.base % b.size == 0
  }

  /** The blocks of successive calls, until nothing is left. */
  function Cut(addr: nat, len: nat): seq<Block>
    requires addr + len <= ADDRESS_LIMIT
    decreases len
  {
    if len == 0 then []
    else
      BlockFits(addr, len);
      var size := BlockSize(addr, len);
      [Block(addr, size)] + Cut(addr + size, len - size)
  }

  // ---------------------------------------------------------------- one block

  lemma LimitIsPow2(n: nat)
    requires n == 52
    ensures Pow2(n) == ADDRESS_LIMIT
  {
    var k := n - 52;
    assert Pow2(k) == 1;
    Pow2Plus16(k);
    Pow2Plus16(k + 16);
    Pow2Plus16(k + 32);
    Pow2Plus4(k + 48);
  }

  /** The next block fits and is aligned to its size. */
  lemma BlockFits(addr: nat, len: nat)
    requires len > 0 && addr + len <= ADDRESS_LIMIT
    ensures 0 < BlockSize(addr, len) <= len
    ensures AlignedBlock(Block(addr, BlockSize(addr, len)))
  {
    var size := BlockSize(addr, len);
    HighBit(len, 1);
    if addr > 0 {
      LowBit(addr, 1);
      var low := Pow2(TrailingZeros(addr));
      if low > len {
        DividesDown(size, low, addr);
      }
      DividesMod(size, addr);
    }
  }

  /** No larger aligned block starts here and fits. */
  lemma BlockLargest(addr: nat, len: nat, p: nat)
    requires len > 0 && addr + len <= ADDRESS_LIMIT
    requires IsPow2(p) && addr % p == 0 && p <= len
    ensures p <= BlockSize(addr, len)
  {
    HighBit(len, p);
    DividesMod(p, addr);
    if addr > 0 {
      LowBit(addr, p);
    }
  }

  // ---------------------------------------------------------------- the whole range

  /** The blocks follow one another from addr and end at addr + len. */
  predicate Tiles(bs: seq<Block>, addr: nat, len: nat) {
    if bs == [] then len == 0
    else bs[0].base == addr && 0 < bs[0].size <= len && Tiles(bs[1..], addr + bs[0].size, len - bs[0].size)
  }

  predicate AllAligned(bs: seq<Block>) {
    forall i :: 0 <= i < |bs| ==> AlignedBlock(bs[i])
  }

  lemma {:induction false} CutTiles(addr: nat, len: nat)
    requires addr + len <= ADDRESS_LIMIT
    ensures Tiles(Cut(addr, len), addr, len) && AllAligned(Cut(addr, len))
    decreases len
  {
    if len > 0 {
      BlockFits(addr, len);
      var size := BlockSize(addr, len);
      CutTiles(addr + size, len - size);
      assert Cut(addr, len)[1..] == Cut(addr + size, len - size);
    }
  }

  /** Blocks that tile a range cover each of its bytes once and nothing else. */
  lemma {:induction false} TilesCover(bs: seq<Block>, addr: nat, len: nat, x: nat)
    requires Tiles(bs, addr, len)
    ensures Cover(x, bs) == if addr <= x < addr + len then 1 else 0
    decreases |bs|
  {
    if bs != [] {
      TilesCover(bs[1..], addr + bs[0].size, len - bs[0].size, x);
    }
  }

  // ---------------------------------------------------------------- fewest blocks

  /** The blocks of a range hold each of its bytes once and no other. */
  lemma CutCovers(addr: nat, len: nat, x: nat)
    requires addr + len <= ADDRESS_LIMIT
    ensures Cover(x, Cut(addr, len)) == if addr <= x < addr + len then 1 else 0
  {
    CutTiles(addr, len);
    TilesCover(Cut(addr, len), addr, len, x);
  }

  /** Aligned blocks are nested or disjoint; so a tiling of a range by aligned blocks has a
      prefix that tiles the first block of `Cut`. */
  lemma {:induction false} TilesPrefix(bs: seq<Block>, addr: nat, len: nat, base: nat, size: nat) returns (k: nat)
    requires Tiles(bs, addr, len) && AllAligned(bs)
    requires IsPow2(size) && base % size == 0 && base < addr < base + size <= addr + len
    ensures k <= |bs| && Tiles(bs[k..], base + size, addr + len - (base + size))
    ensures k >= 1
    decreases |bs|
  {
    var b := bs[0];
    assert AlignedBlock(b);
    InsideAligned(base, size, b);
    if b.End() == base + size {
      k := 1;
    } else {
      var j := TilesPrefix(bs[1..], addr + b.size, len - b.size, base, size);
      assert bs[1..][j..] == bs[j + 1..];
      k := j + 1;
    }
  }

  /** An aligned block that starts strictly inside another ends inside it. */
  lemma InsideAligned(base: nat, size: nat, b: Block)
    requires IsPow2(size) && base % size == 0 && AlignedBlock(b)
    requires base < b.base < base + size
    ensures b.End() <= base + size
  {
    DividesMod(size, base);
    DividesMod(b.size, b.base);
    InsideDivided(base, size, b.base, b.size);
  }

  lemma InsideDivided(base: nat, size: nat, at: nat, q: nat)
    requires IsPow2(size) && Divides(size, base) && IsPow2(q) && Divides(q, at)
    requires base < at < base + size
    ensures at + q <= base + size
  {
    DividesSum(size, base, at - base);
    SmallNotDivided(size, at - base);
    if q >= size {
      DividesDown(size, q, at);
    } else {
      Pow2Divides(q, size);
      DividesDown(q, size, base);
      DividesSum(q, base, size);
      MultiplesApart(q, at, base + size);
    }
  }

  /** No tiling by aligned power-of-two blocks has fewer blocks. */
  lemma {:induction false} FewestBlocks(bs: seq<Block>, addr: nat, len: nat)
    requires addr + len <= ADDRESS_LIMIT
    requires Tiles(bs, addr, len) && AllAligned(bs)
    ensures |Cut(addr, len)| <= |bs|
    decreases len
  {
    if len > 0 {
      BlockFits(addr, len);
      var size := BlockSize(addr, len);
      assert AlignedBlock(bs[0]);
      BlockLargest(addr, len, bs[0].size);
      var k := 1;
      if bs[0].size < size {
        var j := TilesPrefix(bs[1..], addr + bs[0].size, len - bs[0].size, addr, size);
        assert bs[1..][j..] == bs[j + 1..];
        k := j + 1;
      }
      FewestBlocks(TailAligned(bs, k), addr + size, len - size);
    }
  }

  function TailAligned(bs: seq<Block>, k: nat): (r: seq<Block>)
    requires AllAligned(bs) && k <= |bs|
    ensures AllAligned(r) && r == bs[k..]
  {
    bs[k..]
  }

  // ---------------------------------------------------------------- sizes rise, then fall

  predicate Falling(bs: seq<Block>) {
    forall i :: 0 <= i && i + 1 < |bs| ==> bs[i + 1].size < bs[i].size
  }

  predicate Rising(bs: seq<Block>) {
    forall i :: 0 <= i && i + 1 < |bs| ==> bs[i].size < bs[i + 1].size
  }

  /** Once less is left than the alignment allows, it stays so. */
  predicate Capped(addr: nat, len: nat) {
    addr == 0 || Pow2(TrailingZeros(addr)) > len
  }

  lemma CappedStep(addr: nat, len: nat)
    requires 0 < len && addr + len <= ADDRESS_LIMIT && Capped(addr, len)
    ensures var size := BlockSize(addr, len);
            0 < size <= len && len - size < size && Capped(addr + size, len - size)
  {
    var size := BlockSize(addr, len);
    HighBit(len, 1);
    if addr > 0 {
      var low := Pow2(TrailingZeros(addr));
      LowBit(addr, 1);
      Pow2Order(size, low);
      DividesDown(2 * size, low, addr);
    } else {
      ZeroDivided(2 * size);
    }
    LowBitBelow(addr, size);
  }

  lemma {:induction false} CutFalls(addr: nat, len: nat)
    requires addr + len <= ADDRESS_LIMIT && Capped(addr, len)
    ensures Falling(Cut(addr, len))
    ensures Cut(addr, len) != [] ==> Cut(addr, len)[0].size <= len
    decreases len
  {
    if len > 0 {
      CappedStep(addr, len);
      var size := BlockSize(addr, len);
      CutFalls(addr + size, len - size);
      assert Cut(addr, len) == [Block(addr, size)] + Cut(addr + size, len - size);
    }
  }

  /** The sizes strictly rise and then strictly fall: `m` blocks rise. */
  lemma {:induction false} CutUnimodal(addr: nat, len: nat) returns (m: nat)
    requires addr + len <= ADDRESS_LIMIT
    ensures m <= |Cut(addr, len)|
    ensures Rising(Cut(addr, len)[..m]) && Falling(Cut(addr, len)[m..])
    ensures m > 0 ==> addr > 0 && Cut(addr, len)[0].size == Pow2(TrailingZeros(addr))
    decreases len
  {
    m := 0;
    if Capped(addr, len) || len == 0 {
      if len > 0 {
        CutFalls(addr, len);
      }
    } else {
      BlockFits(addr, len);
      var size := BlockSize(addr, len);
      var rest := Cut(addr + size, len - size);
      var k := CutUnimodal(addr + size, len - size);
      LowBitRises(addr);
      m := k + 1;
      var all := Cut(addr, len);
      assert all == [Block(addr, size)] + rest;
      assert all[m..] == rest[k..];
      assert all[..m] == [Block(addr, size)] + rest[..k];
    }
  }

  // ---------------------------------------------------------------- at most 104

  lemma {:induction false} RisingShort(bs: seq<Block>, n: nat)
    requires Rising(bs) && AllAligned(bs)
    requires forall i :: 0 <= i < |bs| ==> bs[i].size < Pow2(n)
    ensures |bs| <= n
    decreases n
  {
    if bs != [] {
      var last := bs[|bs| - 1];
      assert AlignedBlock(last) && n > 0;
      if n > 0 {
        var front := bs[..|bs| - 1];
        RisingBelow(bs, |bs| - 1);
        forall i | 0 <= i < |front| ensures front[i].size < Pow2(n - 1) {
          assert AlignedBlock(bs[i]);
          if front[i].size >= Pow2(n - 1) {
            Pow2Order(front[i].size, last.size);
          }
        }
        RisingShort(front, n - 1);
      }
    }
  }

  lemma {:induction false} RisingBelow(bs: seq<Block>, k: nat)
    requires Rising(bs) && k < |bs|
    ensures forall i :: 0 <= i < k ==> bs[i].size < bs[k].size
    decreases k
  {
    if k > 0 {
      RisingBelow(bs, k - 1);
      assert bs[k - 1].size < bs[k - 1 + 1].size;
    }
  }

  lemma {:induction false} FallingShort(bs: seq<Block>, n: nat)
    requires Falling(bs) && AllAligned(bs)
    requires forall i :: 0 <= i < |bs| ==> bs[i].size < Pow2(n)
    ensures |bs| <= n
    decreases n
  {
    if bs != [] {
      assert AlignedBlock(bs[0]) && n > 0;
      if n > 0 {
        var back := bs[1..];
        FallingAbove(bs, |bs| - 1);
        forall i | 0 <= i < |back| ensures back[i].size < Pow2(n - 1) {
          assert AlignedBlock(bs[i + 1]);
          if back[i].size >= Pow2(n - 1) {
            Pow2Order(back[i].size, bs[0].size);
          }
        }
        assert forall i :: 0 <= i < |back| ==> back[i] == bs[i + 1];
        FallingShort(back, n - 1);
      }
    }
  }

  lemma {:induction false} FallingAbove(bs: seq<Block>, k: nat)
    requires Falling(bs) && k < |bs|
    ensures forall i :: 0 < i <= k ==> bs[i].size < bs[0].size
    decreases k
  {
    if k > 0 {
      FallingAbove(bs, k - 1);
      assert bs[k - 1 + 1].size < bs[k - 1].size;
    }
  }

  lemma {:induction false} CutSizes(addr: nat, len: nat)
    requires addr + len <= ADDRESS_LIMIT
    ensures forall i :: 0 <= i < |Cut(addr, len)| ==> Cut(addr, len)[i].size <= len
    decreases len
  {
    if len > 0 {
      BlockFits(addr, len);
      var size := BlockSize(addr, len);
      CutSizes(addr + size, len - size);
      assert Cut(addr, len) == [Block(addr, size)] + Cut(addr + size, len - size);
    }
  }

  lemma WholeSpaceIsOneBlock(addr: nat, len: nat, n: nat)
    requires addr + len <= ADDRESS_LIMIT && len == ADDRESS_LIMIT == Pow2(n)
    ensures |Cut(addr, len)| == 1
  {
    BlockFits(addr, len);
    HighBit(len, Pow2(n));
  }

  lemma {:induction false} FallingBelow(bs: seq<Block>, i: nat, k: nat)
    requires Falling(bs) && i < k < |bs|
    ensures bs[k].size < bs[i].size
    decreases k
  {
    assert bs[k - 1 + 1].size < bs[k - 1].size;
    if i < k - 1 {
      FallingBelow(bs, i, k - 1);
    }
  }

  /** Of three sizes that rise and then fall, two differ. */
  lemma ThreeDiffer(bs: seq<Block>, m: nat, i: nat, j: nat, k: nat)
    requires m <= |bs| && Rising(bs[..m]) && Falling(bs[m..]) && i < j < k < |bs|
    ensures !(bs[i].size == bs[j].size == bs[k].size)
  {
    if j < m {
      RisingBelow(bs[..m], j);
      assert bs[..m][i].size < bs[..m][j].size;
    } else {
      FallingBelow(bs[m..], j - m, k - m);
    }
  }

  /** Each power of two is used at most twice: no three blocks have the same size. */
  lemma AtMostTwice(addr: nat, len: nat, i: nat, j: nat, k: nat)
    requires addr + len <= ADDRESS_LIMIT && i < j < k < |Cut(addr, len)|
    ensures var bs := Cut(addr, len); !(bs[i].size == bs[j].size == bs[k].size)
  {
    var m := CutUnimodal(addr, len);
    ThreeDiffer(Cut(addr, len), m, i, j, k);
  }

  /** A range shorter than the n-th power of two dissolves into at most 2n blocks. */
  lemma BlockCount(addr: nat, len: nat, n: nat)
    requires addr + len <= ADDRESS_LIMIT && len < Pow2(n)
    ensures |Cut(addr, len)| <= 2 * n
  {
    CutSizes(addr, len);
    CutTiles(addr, len);
    var bs := Cut(addr, len);
    var m := CutUnimodal(addr, len);
    RisingShort(bs[..m], n);
    FallingShort(bs[m..], n);
  }

  /** A range of physical memory dissolves into at most 104 blocks. */
  lemma AtMost104(addr: nat, len: nat)
    requires addr + len <= ADDRESS_LIMIT
    ensures |Cut(addr, len)| <= 104
  {
    var n := 52;
    LimitIsPow2(n);
    if len == ADDRESS_LIMIT {
      WholeSpaceIsOneBlock(addr, len, n);
    } else {
      BlockCount(addr, len, n);
    }
  }

  // ---------------------------------------------------------------- in place

  /** One call: moves `addr` and `len` past the block it returns, if anything is left. */
  method DissolveOne(addr: nat, len: nat) returns (r: Option<Block>, addr': nat, len': nat)
    requires addr + len <= ADDRESS_LIMIT
    ensures r.None? <==> len == 0
    ensures r.None? ==> addr' == addr && len' == len
    ensures r.Some? ==>
              && AlignedBlock(r.value) && r.value.base == addr && addr' == r.value.End()
              && addr' + len' == addr + len && len' < len
              && (forall p: nat :: IsPow2(p) && addr % p == 0 && p <= len ==> p <= r.value.size)
              && [r.value] + Cut(addr', len') == Cut(addr, len)
  {
    if len == 0 {
      return None, addr, len;
    }
    BlockFits(addr, len);
    var size := BlockSize(addr, len);
    forall p: nat | IsPow2(p) && addr % p == 0 && p <= len ensures p <= size {
      BlockLargest(addr, len, p);
    }
    r, addr', len' := Some(Block(addr, size)), addr + size, len - size;
  }
}
