/**
 The cursors of the boot frame allocator and the hand-over of what they have left to
 the zones' allocators, in place.
 */
module BootAllocator {
  import opened Options
  import opened Blocks
  import opened PowersOfTwo
  import opened Dissolve
  import opened HighOrder
  import opened BootMemory

  /** `IterSegment`: `len` has no meaning while `current` is not set. */
  class IterSegment {
    const zone: Zone
    var current: Option<nat>
    var segNum: nat
    var len: nat

    ghost predicate Valid()
      reads this
    {
      current.Some? ==> 0 < len < U64 && WholePages(current.value)
    }

    /** What the cursor has left. */
    ghost function Rest(map_: MemoryMap): seq<Block>
      reads this
    {
      if current.Some? then [Block(current.value, len)] + Segments(zone, map_, segNum + 1)
      else Segments(zone, map_, segNum + 1)
    }

    constructor (z: Zone)
      ensures Valid() && zone == z && forall m :: Rest(m) == Segments(z, m, 1)
    {
      zone, current, segNum, len := z, None, 0, 0;
    }

    /** Moves to the next segment; the memory left is the same. */
    method Advance(map_: MemoryMap)
      requires Valid() && current.None? && FrameStarts(map_)
      modifies this`current, this`len, this`segNum
      ensures Valid() && Rest(map_) == old(Rest(map_))
      ensures current.None? <==> Rest(map_) == []
    {
      var i := segNum + 1;
      while i < |map_|
        invariant current.None? && segNum == old(segNum) < i
        invariant Segments(zone, map_, segNum + 1) == Segments(zone, map_, i)
      {
        SegmentsStep(zone, map_, i);
        var c := Clip(zone, map_[i]);
        if c.Some? {
          current, len, segNum := Some(c.value.base), c.value.size, i;
          assert [Block(c.value.base, c.value.size)] == [c.value];
          return;
        }
        i := i + 1;
      }
      assert Segments(zone, map_, i) == [];
    }

    /** Takes the lowest frame of the current segment. */
    method TakeCurrent(map_: MemoryMap) returns (frame: nat)
      requires Valid() && current.Some?
      modifies this`current, this`len
      ensures Valid()
      ensures frame == FirstFrame(old(Rest(map_))).base && WholePages(frame)
      ensures Rest(map_) == WithoutFrame(old(Rest(map_)))
    {
      ghost var rem := Rest(map_);
      frame := current.value;
      len := WrapSub(len, PAGE);
      current := if len == 0 then None else Some(frame + PAGE);
      assert rem[1..] == Segments(zone, map_, segNum + 1);
    }

    method Alloc(map_: MemoryMap) returns (frame: Option<nat>)
      requires Valid() && FrameStarts(map_)
      modifies this`current, this`len, this`segNum
      ensures Valid()
      ensures frame.None? <==> old(Rest(map_)) == []
      ensures frame.None? ==> Rest(map_) == []
      ensures frame.Some? ==>
                && frame.value == FirstFrame(old(Rest(map_))).base && WholePages(frame.value)
                && Rest(map_) == WithoutFrame(old(Rest(map_)))
    {
      if current.None? {
        Advance(map_);
        if current.None? {
          return None;
        }
      }
      var f := TakeCurrent(map_);
      frame := Some(f);
    }

    /** Takes all that is left of the current segment. */
    method Pop(map_: MemoryMap) returns (r: Option<Block>)
      requires Valid() && FrameStarts(map_)
      modifies this`current, this`len, this`segNum
      ensures Valid()
      ensures r.None? <==> old(Rest(map_)) == []
      ensures r.None? ==> Rest(map_) == []
      ensures r.Some? ==> old(Rest(map_)) == [r.value] + Rest(map_)
    {
      if current.None? {
        Advance(map_);
        if current.None? {
          return None;
        }
      }
      r := Some(Block(current.value, len));
      current, len := None, 0;
    }

    /** `drain`: cuts everything that is left into blocks and gives them to the zone's
        allocator, which then holds exactly that memory as well. */
    method Drain(map_: MemoryMap, region: Region)
      requires Valid() && FrameStarts(map_) && InSpace(Rest(map_))
      requires region.Valid() && region.Room(Rest(map_))
      modifies this`current, this`len, this`segNum, region`backend, region.high`freeList
      ensures Valid() && Rest(map_) == [] && region.Valid()
      ensures forall x: nat :: region.Holds(x) == old(region.Holds(x)) + old(Cover(x, Rest(map_)))
    {
      while true
        invariant Valid() && region.Valid() && InSpace(Rest(map_))
        invariant forall x: nat :: region.Holds(x) + Cover(x, Rest(map_)) ==
                              old(region.Holds(x)) + old(Cover(x, Rest(map_)))
        decreases |Rest(map_)|
      {
        ghost var rem := Rest(map_);
        var s := Pop(map_);
        if s.None? {
          break;
        }
        assert rem[0] == s.value && rem[1..] == Rest(map_);
        var _ := region.FreeRange(s.value.base, s.value.size);
      }
    }
  }

  /** What the buddy allocator does when a block completes one that is too large for it: it
      keeps `rest` and gives the completed block back by its address. */
  datatype Completed = Completed(rest: seq<Block>, base: nat)

  /** The buddy allocator, an external library: from what it holds and a block freed to it,
      the block it gives back, if any. */
  type Buddy = (seq<Block>, Block) -> Option<Completed>

  /** The block given back is one unit, aligned, and made of bytes the library had. */
  ghost predicate Gives(bs: seq<Block>, b: Block, c: Completed, unit: nat)
    requires unit > 0
  {
    && c.base % unit == 0
    && forall x: nat :: Cover(x, c.rest) + (if Block(c.base, unit).Has(x) then 1 else 0) ==
                        Cover(x, bs) + (if b.Has(x) then 1 else 0)
  }

  ghost predicate Conserves(buddy: Buddy, unit: nat)
    requires unit > 0
  {
    forall bs, b :: buddy(bs, b).Some? ==> Gives(bs, b, buddy(bs, b).value, unit)
  }

  /** A zone's allocator: the list of large blocks and what the buddy allocator holds. */
  class Region {
    const high: HighOrderAlloc
    const orderMax: nat            // the largest block of the buddy allocator
    const buddy: Buddy
    var backend: seq<Block>

    ghost predicate Valid()
      reads this, high
    {
      high.Valid() && IsPow2(orderMax) && Conserves(buddy, 2 * orderMax)
    }

    /** How many blocks hold the byte at x. */
    ghost function Holds(x: nat): nat
      reads this, high
    {
      Cover(x, backend) + Cover(x, high.freeList)
    }

    /** All blocks that are held. */
    ghost function Blocks(): seq<Block>
      reads this, high
    {
      backend + high.freeList
    }

    lemma BlocksHeld()
      ensures forall x: nat :: Cover(x, Blocks()) == Holds(x)
    {
      forall x: nat ensures Cover(x, Blocks()) == Holds(x) {
        CoverConcat(x, backend, high.freeList);
      }
    }

    constructor (largest: nat, library: Buddy)
      requires IsPow2(largest) && Conserves(library, 2 * largest)
      ensures Valid() && fresh(high) && forall x: nat :: Holds(x) == 0
    {
      high := new HighOrderAlloc();
      orderMax, buddy := largest, library;
      backend := [];
    }

    /** No byte of the blocks is held yet, and none is there twice. */
    ghost predicate Room(bs: seq<Block>)
      reads this, high
    {
      forall x: nat :: Holds(x) + Cover(x, bs) <= 1
    }

    /** No byte of b is held yet, and none is held twice. */
    ghost predicate Spare(b: Block)
      reads this, high
    {
      forall x: nat :: Holds(x) + (if b.Has(x) then 1 else 0) <= 1
    }

    /** `deallocate`: nothing for an empty block, otherwise the block rounded up to a power
        of two.  It panics exactly when `Accepts` says so; otherwise exactly the bytes of the
        rounded block are held in addition.  For an aligned block that was not held it never
        panics and the list of large blocks stays sorted and disjoint. */
    method Deallocate(base: nat, size: nat) returns (ok: bool)
      requires Valid()
      modifies this`backend, high`freeList
      ensures size == 0 ==> ok && backend == old(backend) && high.freeList == old(high.freeList)
      ensures size > 0 ==>
                var b := Block(base, RoundUp(size));
                && (ok <==> Accepts(old(high.freeList), old(backend), b, orderMax, buddy))
                && (ok ==> forall x: nat :: Holds(x) == old(Holds(x)) + (if b.Has(x) then 1 else 0))
                && (b.size > orderMax ==> backend == old(backend))
                && (b.size <= orderMax && buddy(old(backend), b).None? ==>
                      high.freeList == old(high.freeList) && backend == old(backend) + [b])
                && (old(Spare(b)) && AlignedBlock(b) ==> ok && Valid())
    {
      if size == 0 {
        return true;
      }
      var b := Block(base, RoundUp(size));
      if b.size > orderMax {
        LargeFits(b, orderMax);
        var r := NewFreeMem(b.base, b.size, 2 * orderMax);
        if r.None? {
          return false;
        }
        ok := FreeHigh(r.value);
      } else {
        ok := FreeBuddy(b);
      }
    }

    method FreeHigh(b: Block) returns (ok: bool)
      requires Valid() && b.size > 0
      modifies high`freeList
      ensures ok <==> NoStart(old(high.freeList), b.base)
      ensures ok ==> forall x: nat :: Holds(x) == old(Holds(x)) + (if b.Has(x) then 1 else 0)
      ensures (forall x: nat :: b.Has(x) ==> old(Cover(x, high.freeList)) == 0) ==> ok && Valid()
    {
      if forall x: nat :: b.Has(x) ==> Cover(x, high.freeList) == 0 {
        ApartFromCover(high.freeList, b);
      }
      ok := high.Free(b);
    }

    /** A block for the buddy allocator, which may complete a larger one. */
    method FreeBuddy(b: Block) returns (ok: bool)
      requires Valid()
      modifies this`backend, high`freeList
      ensures ok <==> buddy(old(backend), b).Some? ==>
                        NoStart(old(high.freeList), buddy(old(backend), b).value.base)
      ensures ok ==> forall x: nat :: Holds(x) == old(Holds(x)) + (if b.Has(x) then 1 else 0)
      ensures buddy(old(backend), b).None? ==>
                high.freeList == old(high.freeList) && backend == old(backend) + [b]
      ensures old(Spare(b)) ==> ok && Valid()
    {
      var r := buddy(backend, b);
      if r.None? {
        forall x: nat ensures Cover(x, backend + [b]) == Cover(x, backend) + (if b.Has(x) then 1 else 0) {
          CoverConcat(x, backend, [b]);
          assert [b][1..] == [];
        }
        backend := backend + [b];
        ok := true;
      } else {
        ghost var was := backend;
        assert Gives(was, b, r.value, 2 * orderMax);
        if Spare(b) {
          forall x: nat | Block(r.value.base, 2 * orderMax).Has(x) ensures Cover(x, high.freeList) == 0 {
            assert Holds(x) + (if b.Has(x) then 1 else 0) <= 1;
          }
        }
        backend := r.value.rest;
        ok := FreeHigh(NewFreeMem(r.value.base, 2 * orderMax, 2 * orderMax).value);
      }
    }

    /** Rounding up leaves a power of two as it is. */
    method FreeAligned(b: Block)
      requires Valid() && AlignedBlock(b)
      requires forall x: nat :: Holds(x) + (if b.Has(x) then 1 else 0) <= 1
      modifies this`backend, high`freeList
      ensures Valid()
      ensures forall x: nat :: Holds(x) == old(Holds(x)) + (if b.Has(x) then 1 else 0)
    {
      RoundUpLeast(b.size, b.size);
      var ok := Deallocate(b.base, b.size);
      assert ok;
    }

    /** One turn of the inner loop of `drain`. */
    method FreeFirst(addr: nat, len: nat) returns (block: Option<Block>, addr': nat, len': nat)
      requires Valid() && addr + len <= ADDRESS_LIMIT
      requires forall x: nat :: Holds(x) + (if addr <= x < addr + len then 1 else 0) <= 1
      modifies this`backend, high`freeList
      ensures Valid() && addr' + len' == addr + len && addr <= addr'
      ensures block.None? <==> len == 0
      ensures block.None? ==> addr' == addr && len' == len
      ensures block.Some? ==> len' < len && [block.value] + Cut(addr', len') == Cut(addr, len)
      ensures forall x: nat :: Holds(x) == old(Holds(x)) + (if addr <= x < addr' then 1 else 0)
    {
      block, addr', len' := DissolveOne(addr, len);
      if block.Some? {
        FreeAligned(block.value);
      }
    }

    /** The inner loop of `drain`: the range goes in as the blocks of `Cut`. */
    method FreeRange(addr: nat, len: nat) returns (ghost freed: seq<Block>)
      requires Valid() && addr + len <= ADDRESS_LIMIT
      requires forall x: nat :: Holds(x) + (if addr <= x < addr + len then 1 else 0) <= 1
      modifies this`backend, high`freeList
      ensures Valid() && freed == Cut(addr, len)
      ensures forall x: nat :: Holds(x) == old(Holds(x)) + (if addr <= x < addr + len then 1 else 0)
    {
      var a, l := addr, len;
      freed := [];
      while true
        invariant Valid() && a + l == addr + len && addr <= a
        invariant freed + Cut(a, l) == Cut(addr, len)
        invariant forall x: nat :: Holds(x) == old(Holds(x)) + (if addr <= x < a then 1 else 0)
        decreases l
      {
        var block;
        block, a, l := FreeFirst(a, l);
        if block.None? {
          break;
        }
        BlockMoved(freed, block.value, Cut(a, l));
        freed := freed + [block.value];
      }
    }
  }

  lemma BlockMoved(done: seq<Block>, b: Block, left: seq<Block>)
    ensures done + ([b] + left) == done + [b] + left
  {
  }

  predicate NoStart(list: seq<Block>, base: nat) {
    forall k :: 0 <= k < |list| ==> list[k].base != base
  }

  /** A large block must be aligned to the unit of the sorted list, and no element of that
      list may start where the block, or the one that the buddy allocator gives back, does. */
  predicate Accepts(list: seq<Block>, backend: seq<Block>, b: Block, orderMax: nat, buddy: Buddy)
    requires orderMax > 0
  {
    if b.size > orderMax then b.base % (2 * orderMax) == 0 && NoStart(list, b.base)
    else buddy(backend, b).Some? ==> NoStart(list, buddy(backend, b).value.base)
  }

  lemma LargeFits(b: Block, orderMax: nat)
    requires IsPow2(b.size) && IsPow2(orderMax) && b.size > orderMax
    ensures b.size >= 2 * orderMax
    ensures AlignedBlock(b) ==> b.base % (2 * orderMax) == 0
  {
    Pow2Order(orderMax, b.size);
    if AlignedBlock(b) {
      LargePasses(b, orderMax);
    }
  }

  lemma LargePasses(b: Block, orderMax: nat)
    requires AlignedBlock(b) && IsPow2(orderMax) && b.size > orderMax
    ensures NewFreeMem(b.base, b.size, 2 * orderMax) == Some(b)
  {
    Pow2Order(orderMax, b.size);
    DividesMod(b.size, b.base);
    DividesDown(2 * orderMax, b.size, b.base);
    DividesMod(2 * orderMax, b.base);
  }

  /** `PreInitFrameAlloc`: one cursor for each zone. */
  class PreInitFrameAlloc {
    const map_: MemoryMap
    const dma16: IterSegment
    const dma32: IterSegment
    const dma64: IterSegment

    ghost predicate Valid()
      reads this, dma16, dma32, dma64
    {
      && dma16 != dma32 && dma16 != dma64 && dma32 != dma64
      && dma16.Valid() && dma32.Valid() && dma64.Valid()
      && FrameStarts(map_)
    }

    /** Everything not handed out yet, in the order in which it will be. */
    ghost function Remaining(): seq<Block>
      reads this, dma16, dma32, dma64
    {
      dma64.Rest(map_) + dma32.Rest(map_) + dma16.Rest(map_)
    }

    constructor (m: MemoryMap)
      requires FrameStarts(m)
      ensures Valid() && fresh(dma16) && fresh(dma32) && fresh(dma64)
      ensures map_ == m && Remaining() == AllSegments(m)
    {
      map_ := m;
      dma16 := new IterSegment(Mem16);
      dma32 := new IterSegment(Mem32);
      dma64 := new IterSegment(Mem64);
    }

    /** `allocate_frame`: the 64-bit zone first, then the others; the frame is page-aligned,
        so its `unwrap` never fails. */
    method AllocateFrame() returns (frame: Option<nat>)
      requires Valid()
      modifies dma16`current, dma16`len, dma16`segNum, dma32`current, dma32`len, dma32`segNum,
               dma64`current, dma64`len, dma64`segNum
      ensures Valid()
      ensures frame.None? <==> old(Remaining()) == []
      ensures frame.None? ==> Remaining() == []
      ensures frame.Some? ==>
                && frame.value == FirstFrame(old(Remaining())).base && WholePages(frame.value)
                && Remaining() == WithoutFrame(old(Remaining()))
    {
      ThreeZones(dma64.Rest(map_), dma32.Rest(map_), dma16.Rest(map_));
      frame := dma64.Alloc(map_);
      if frame.None? {
        frame := dma32.Alloc(map_);
        if frame.None? {
          frame := dma16.Alloc(map_);
        }
      }
    }

    /** The two low zones of `drain_map`; `b` and `c` are what their cursors have left. */
    method DrainLow(r16: Region, r32: Region, ghost b: seq<Block>, ghost c: seq<Block>)
      requires Valid() && dma32.Rest(map_) == b && dma16.Rest(map_) == c && InSpace(b) && InSpace(c)
      requires r16.Valid() && r32.Valid() && r16 != r32 && r16.high != r32.high
      requires r32.Room(b) && r16.Room(c)
      modifies dma16`current, dma16`len, dma16`segNum, dma32`current, dma32`len, dma32`segNum
      modifies r16`backend, r16.high`freeList, r32`backend, r32.high`freeList
      ensures Valid() && dma32.Rest(map_) == dma16.Rest(map_) == [] && r16.Valid() && r32.Valid()
      ensures forall x: nat :: r32.Holds(x) == old(r32.Holds(x)) + Cover(x, b)
      ensures forall x: nat :: r16.Holds(x) == old(r16.Holds(x)) + Cover(x, c)
    {
      dma32.Drain(map_, r32);
      assert r16.Room(c) by {
        assert r16.backend == old(r16.backend) && r16.high.freeList == old(r16.high.freeList);
      }
      dma16.Drain(map_, r16);
    }

    /** `drain_map`: each zone's remaining memory goes to that zone's allocator. */
    method DrainMap(r16: Region, r32: Region, r64: Region,
                    ghost a: seq<Block>, ghost b: seq<Block>, ghost c: seq<Block>)
      requires Valid() && dma64.Rest(map_) == a && dma32.Rest(map_) == b && dma16.Rest(map_) == c
      requires InSpace(a) && InSpace(b) && InSpace(c)
      requires r16.Valid() && r32.Valid() && r64.Valid()
      requires r16 != r32 && r16 != r64 && r32 != r64
      requires r16.high != r32.high && r16.high != r64.high && r32.high != r64.high
      requires r64.Room(a) && r32.Room(b) && r16.Room(c)
      modifies dma16`current, dma16`len, dma16`segNum, dma32`current, dma32`len, dma32`segNum,
               dma64`current, dma64`len, dma64`segNum
      modifies r16`backend, r16.high`freeList, r32`backend, r32.high`freeList, r64`backend, r64.high`freeList
      ensures Valid() && Remaining() == [] && r16.Valid() && r32.Valid() && r64.Valid()
      ensures forall x: nat :: r64.Holds(x) == old(r64.Holds(x)) + Cover(x, a)
      ensures forall x: nat :: r32.Holds(x) == old(r32.Holds(x)) + Cover(x, b)
      ensures forall x: nat :: r16.Holds(x) == old(r16.Holds(x)) + Cover(x, c)
    {
      dma64.Drain(map_, r64);
      assert r32.Room(b) && r16.Room(c) by {
        assert r32.backend == old(r32.backend) && r32.high.freeList == old(r32.high.freeList);
        assert r16.backend == old(r16.backend) && r16.high.freeList == old(r16.high.freeList);
      }
      DrainLow(r16, r32, b, c);
    }

    /** Any number of calls of `allocate_frame`. */
    method TakeFrames(k: nat) returns (frames: seq<Block>)
      requires Valid()
      modifies dma16`current, dma16`len, dma16`segNum, dma32`current, dma32`len, dma32`segNum,
               dma64`current, dma64`len, dma64`segNum
      ensures Valid()
      ensures frames == Handed(old(Remaining()), k) && Remaining() == Left(old(Remaining()), k)
    {
      frames := [];
      for i := 0 to k
        invariant Valid()
        invariant frames + Handed(Remaining(), k - i) == Handed(old(Remaining()), k)
        invariant Left(Remaining(), k - i) == Left(old(Remaining()), k)
      {
        var f := AllocateFrame();
        if f.Some? {
          frames := frames + [Block(f.value, PAGE)];
        }
      }
    }

    /** Frames taken from the start: they and what the cursors have left are the usable
        memory, each byte once. */
    method TakeCounted(k: nat)
      returns (frames: seq<Block>, ghost a: seq<Block>, ghost b: seq<Block>, ghost c: seq<Block>)
      requires Valid() && Remaining() == AllSegments(map_) && MapDisjoint(map_) && PageMultiples(AllSegments(map_))
      modifies dma16`current, dma16`len, dma16`segNum, dma32`current, dma32`len, dma32`segNum,
               dma64`current, dma64`len, dma64`segNum
      ensures Valid() && dma64.Rest(map_) == a && dma32.Rest(map_) == b && dma16.Rest(map_) == c
      ensures InSpace(a) && InSpace(b) && InSpace(c) && Counted(map_, frames, a, b, c)
    {
      TakenAndLeft(map_, k);
      frames := TakeFrames(k);
      a, b, c := dma64.Rest(map_), dma32.Rest(map_), dma16.Rest(map_);
      InSpaceParts(a, b, c);
      CoverParts(a, b, c);
    }

    /** Frames are taken, then the rest is drained; counted byte by byte. */
    method TakeAndDrain(k: nat, r16: Region, r32: Region, r64: Region) returns (frames: seq<Block>)
      requires Valid() && Remaining() == AllSegments(map_) && MapDisjoint(map_) && PageMultiples(AllSegments(map_))
      requires r16.Valid() && r32.Valid() && r64.Valid()
      requires r16 != r32 && r16 != r64 && r32 != r64
      requires r16.high != r32.high && r16.high != r64.high && r32.high != r64.high
      requires forall x: nat :: r16.Holds(x) == r32.Holds(x) == r64.Holds(x) == 0
      modifies dma16`current, dma16`len, dma16`segNum, dma32`current, dma32`len, dma32`segNum,
               dma64`current, dma64`len, dma64`segNum
      modifies r16`backend, r16.high`freeList, r32`backend, r32.high`freeList, r64`backend, r64.high`freeList
      ensures Valid() && Remaining() == [] && r16.Valid() && r32.Valid() && r64.Valid()
      ensures forall x: nat ::
                Cover(x, frames) + r16.Holds(x) + r32.Holds(x) + r64.Holds(x) == if Usable(map_, x) then 1 else 0
    {
      ghost var a, b, c;
      frames, a, b, c := TakeCounted(k);
      assert r64.Room(a) && r32.Room(b) && r16.Room(c) by {
        forall x: nat ensures Cover(x, a) + Cover(x, b) + Cover(x, c) <= 1 {
          assert CountedAt(map_, frames, a, b, c, x);
        }
      }
      DrainMap(r16, r32, r64, a, b, c);
      forall x: nat ensures
          Cover(x, frames) + r16.Holds(x) + r32.Holds(x) + r64.Holds(x) == if Usable(map_, x) then 1 else 0
      {
        assert CountedAt(map_, frames, a, b, c, x);
      }
    }

    /** The whole life of the boot allocator: frames are taken, then the rest is drained.
        Every usable byte of the zones is afterwards in exactly one frame or block, no other
        byte is in any, no two of them overlap, and nothing is left to hand out. */
    method HandOver(k: nat, r16: Region, r32: Region, r64: Region) returns (frames: seq<Block>)
      requires Valid() && Remaining() == AllSegments(map_) && MapDisjoint(map_) && PageMultiples(AllSegments(map_))
      requires r16.Valid() && r32.Valid() && r64.Valid()
      requires r16 != r32 && r16 != r64 && r32 != r64
      requires r16.high != r32.high && r16.high != r64.high && r32.high != r64.high
      requires forall x: nat :: r16.Holds(x) == r32.Holds(x) == r64.Holds(x) == 0
      modifies dma16`current, dma16`len, dma16`segNum, dma32`current, dma32`len, dma32`segNum,
               dma64`current, dma64`len, dma64`segNum
      modifies r16`backend, r16.high`freeList, r32`backend, r32.high`freeList, r64`backend, r64.high`freeList
      ensures Valid() && Remaining() == [] && r16.Valid() && r32.Valid() && r64.Valid()
      ensures forall x: nat ::
                Cover(x, frames) + r16.Holds(x) + r32.Holds(x) + r64.Holds(x) == if Usable(map_, x) then 1 else 0
      ensures PairwiseDisjoint(frames + r16.Blocks() + r32.Blocks() + r64.Blocks())
    {
      frames := TakeAndDrain(k, r16, r32, r64);
      r16.BlocksHeld();
      r32.BlocksHeld();
      r64.BlocksHeld();
      FourDisjoint(frames, r16.Blocks(), r32.Blocks(), r64.Blocks());
    }
  }

  lemma FourDisjoint(a: seq<Block>, b: seq<Block>, c: seq<Block>, d: seq<Block>)
    requires forall x: nat :: Cover(x, a) + Cover(x, b) + Cover(x, c) + Cover(x, d) <= 1
    ensures PairwiseDisjoint(a + b + c + d)
  {
    forall x: nat ensures Cover(x, a + b + c + d) <= 1 {
      CoverConcat(x, a + b + c, d);
      CoverConcat(x, a + b, c);
      CoverConcat(x, a, b);
    }
    CoverOnceDisjoint(a + b + c + d);
  }

  predicate CountedAt(map_: MemoryMap, frames: seq<Block>, a: seq<Block>, b: seq<Block>, c: seq<Block>, x: nat) {
    Cover(x, frames) + Cover(x, a) + Cover(x, b) + Cover(x, c) == if Usable(map_, x) then 1 else 0
  }

  /** The frames and the three lists hold each usable byte once and no other. */
  ghost predicate Counted(map_: MemoryMap, frames: seq<Block>, a: seq<Block>, b: seq<Block>, c: seq<Block>) {
    forall x: nat {:trigger CountedAt(map_, frames, a, b, c, x)} :: CountedAt(map_, frames, a, b, c, x)
  }

  lemma CoverParts(a: seq<Block>, b: seq<Block>, c: seq<Block>)
    ensures forall x: nat :: Cover(x, a + b + c) == Cover(x, a) + Cover(x, b) + Cover(x, c)
  {
    forall x: nat ensures Cover(x, a + b + c) == Cover(x, a) + Cover(x, b) + Cover(x, c) {
      CoverConcat(x, a + b, c);
      CoverConcat(x, a, b);
    }
  }

  /** The first frame of three lists is that of the first list that has one. */
  lemma ThreeZones(a: seq<Block>, b: seq<Block>, c: seq<Block>)
    ensures a + b + c == [] <==> a == [] && b == [] && c == []
    ensures a != [] ==> FirstFrame(a + b + c) == FirstFrame(a)
                        && WithoutFrame(a + b + c) == WithoutFrame(a) + b + c
    ensures a == [] && b != [] ==> FirstFrame(a + b + c) == FirstFrame(b)
                                   && WithoutFrame(a + b + c) == a + WithoutFrame(b) + c
    ensures a == [] && b == [] && c != [] ==> FirstFrame(a + b + c) == FirstFrame(c)
                                              && WithoutFrame(a + b + c) == a + b + WithoutFrame(c)
  {
    if a != [] {
      WithoutFrameConcat(a, b + c);
      Associative(a, b, c);
      Associative(WithoutFrame(a), b, c);
    } else if b != [] {
      WithoutFrameConcat(b, c);
      EmptyFront(a, b);
      EmptyFront(a, WithoutFrame(b));
    } else {
      EmptyFront(a + b, c);
      if c != [] {
        EmptyFront(a + b, WithoutFrame(c));
      }
    }
  }

  lemma Associative(a: seq<Block>, b: seq<Block>, c: seq<Block>)
    ensures a + b + c == a + (b + c)
  {
  }

  lemma EmptyFront(a: seq<Block>, b: seq<Block>)
    requires |a| == 0
    ensures a + b == b
  {
  }

  lemma WithoutFrameConcat(a: seq<Block>, b: seq<Block>)
    requires a != []
    ensures FirstFrame(a + b) == FirstFrame(a) && WithoutFrame(a + b) == WithoutFrame(a) + b
  {
    assert (a + b)[1..] == a[1..] + b;
  }

  lemma InSpaceParts(a: seq<Block>, b: seq<Block>, c: seq<Block>)
    requires InSpace(a + b + c)
    ensures InSpace(a) && InSpace(b) && InSpace(c)
  {
    forall i | 0 <= i < |a| ensures 0 < a[i].size && a[i].End() <= ADDRESS_LIMIT {
      assert a[i] == (a + b + c)[i];
    }
    forall i | 0 <= i < |b| ensures 0 < b[i].size && b[i].End() <= ADDRESS_LIMIT {
      assert b[i] == (a + b + c)[|a| + i];
    }
    forall i | 0 <= i < |c| ensures 0 < c[i].size && c[i].End() <= ADDRESS_LIMIT {
      assert c[i] == (a + b + c)[|a| + |b| + i];
    }
  }
}
