/**
 Physical memory while the kernel starts: one cursor per zone walks the firmware's
 memory map and hands out frames; later the cursors are drained into the zones'
 allocators.  Lengths are 64-bit and wrap, as the kernel is built without overflow checks.
 */
module BootMemory {
  import opened Options
  import opened Blocks
  import opened Dissolve

  const PAGE: nat := 4096
  const U64: nat := 0x1_0000_0000_0000_0000

  datatype MemoryRegion = MemoryRegion(start: nat, size: nat, usable: bool)

  type MemoryMap = seq<MemoryRegion>

  datatype Zone = Mem16 | Mem32 | Mem64 {
    function Lower(): nat {
      match this case Mem16 => 0 case Mem32 => 0x1_0000 case Mem64 => 0x1_0000_0000
    }

    /** The upper limits are the last address of the zone, and the cursor stops before it. */
    function Upper(): nat {
      match this case Mem16 => 0xffff case Mem32 => 0xffff_ffff case Mem64 => 0xffff_ffff_ffff_ffff
    }
  }

  // ---------------------------------------------------------------- segments

  /** The part of a usable region inside the zone, if there is one. */
  function Clip(z: Zone, r: MemoryRegion): Option<Block> {
    var start := if r.start < z.Lower() then z.Lower() else r.start;
    var end := if r.start + r.size > z.Upper() then z.Upper() else r.start + r.size;
    if r.usable && start < end then Some(Block(start, end - start)) else None
  }

  /** What the cursor of the zone meets from map index `from` on. */
  function Segments(z: Zone, map_: MemoryMap, from: nat): seq<Block>
    decreases |map_| - from
  {
    if from >= |map_| then []
    else
      var c := Clip(z, map_[from]);
      if c.Some? then [c.value] + Segments(z, map_, from + 1) else Segments(z, map_, from + 1)
  }

  /** The order in which `allocate_frame` uses the memory.  The cursors start behind index 0,
      so the first region of the map is never used. */
  function AllSegments(map_: MemoryMap): seq<Block> {
    Segments(Mem64, map_, 1) + Segments(Mem32, map_, 1) + Segments(Mem16, map_, 1)
  }

  /** A multiple of the page size. */
  predicate WholePages(x: nat) {
    x == 0 || (x >= PAGE && WholePages(x - PAGE))
  }

  lemma {:induction false} WholePagesMod(x: nat)
    ensures WholePages(x) <==> x % PAGE == 0
  {
    if x >= PAGE {
      WholePagesMod(x - PAGE);
    }
  }

  predicate PageMultiples(rem: seq<Block>) {
    forall i :: 0 <= i < |rem| ==> rem[i].size > 0 && WholePages(rem[i].size)
  }

  predicate InSpace(rem: seq<Block>) {
    forall i :: 0 <= i < |rem| ==> 0 < rem[i].size && rem[i].End() <= ADDRESS_LIMIT
  }

  // ---------------------------------------------------------------- frames from segments

  /** Subtraction of 64-bit numbers, which wraps below zero. */
  function WrapSub(a: nat, b: nat): nat
    requires b <= U64
  {
    if a >= b then a - b else a + U64 - b
  }

  function FirstFrame(rem: seq<Block>): Block
    requires rem != []
  {
    Block(rem[0].base, PAGE)
  }

  /** The segments after a frame was taken; the remaining length wraps below zero. */
  function WithoutFrame(rem: seq<Block>): seq<Block>
    requires rem != []
  {
    var left := WrapSub(rem[0].size, PAGE);
    if left == 0 then rem[1..] else [Block(rem[0].base + PAGE, left)] + rem[1..]
  }

  /** The frames that k calls hand out. */
  function Handed(rem: seq<Block>, k: nat): seq<Block>
    decreases k
  {
    if k == 0 || rem == [] then [] else [FirstFrame(rem)] + Handed(WithoutFrame(rem), k - 1)
  }

  function Left(rem: seq<Block>, k: nat): seq<Block>
    decreases k
  {
    if k == 0 || rem == [] then rem else Left(WithoutFrame(rem), k - 1)
  }

  /** No wrap while a whole page is left in the segment. */
  lemma WholePageLeft(rem: seq<Block>)
    requires rem != [] && PAGE <= rem[0].size < U64
    ensures WithoutFrame(rem) ==
            if rem[0].size == PAGE then rem[1..]
            else [Block(rem[0].base + PAGE, rem[0].size - PAGE)] + rem[1..]
  {
  }

  lemma FrameStep(rem: seq<Block>)
    requires PageMultiples(rem) && InSpace(rem) && rem != []
    ensures PageMultiples(WithoutFrame(rem)) && InSpace(WithoutFrame(rem))
    ensures forall x :: Cover(x, [FirstFrame(rem)]) + Cover(x, WithoutFrame(rem)) == Cover(x, rem)
  {
    var s := rem[0];
    assert s.size >= PAGE;
    WholePageLeft(rem);
    forall x ensures Cover(x, [FirstFrame(rem)]) + Cover(x, WithoutFrame(rem)) == Cover(x, rem) {
      assert [FirstFrame(rem)][1..] == [];
      if s.size > PAGE {
        assert WithoutFrame(rem)[1..] == rem[1..];
        assert WithoutFrame(rem)[0] == Block(s.base + PAGE, s.size - PAGE);
      }
    }
  }

  /** When every segment is a whole number of pages, the frames handed out and what is left
      are together exactly the segments, byte for byte. */
  lemma {:induction false} FramesConserve(rem: seq<Block>, k: nat)
    requires PageMultiples(rem) && InSpace(rem)
    ensures PageMultiples(Left(rem, k)) && InSpace(Left(rem, k))
    ensures forall x :: Cover(x, Handed(rem, k)) + Cover(x, Left(rem, k)) == Cover(x, rem)
    decreases k
  {
    if k > 0 && rem != [] {
      FrameStep(rem);
      FramesConserve(WithoutFrame(rem), k - 1);
      forall x ensures Cover(x, Handed(rem, k)) + Cover(x, Left(rem, k)) == Cover(x, rem) {
        CoverConcat(x, [FirstFrame(rem)], Handed(WithoutFrame(rem), k - 1));
      }
    }
  }

  // ---------------------------------------------------------------- when a segment is not whole pages

  /** The cursor runs over the end of the first segment that is not a whole number of pages:
      some frame holds the byte behind it. */
  lemma {:induction false} Overruns(rem: seq<Block>, j: nat) returns (k: nat)
    requires InSpace(rem) && j < |rem| && !WholePages(rem[j].size)
    requires forall i :: 0 <= i < j ==> WholePages(rem[i].size)
    ensures Cover(rem[j].End(), Handed(rem, k)) >= 1
    decreases |rem|, rem[0].size
  {
    var s, end := rem[0], rem[j].End();
    if s.size < PAGE {
      assert j == 0;
      k := 1;
      assert Handed(rem, 1)[0] == FirstFrame(rem);
      CoverPositive(end, Handed(rem, 1), 0);
    } else {
      WholePageLeft(rem);
      var next := WithoutFrame(rem);
      var j' := if s.size == PAGE then j - 1 else j;
      assert next[j'].End() == end;
      var k' := Overruns(next, j');
      k := k' + 1;
      assert Handed(rem, k) == [FirstFrame(rem)] + Handed(next, k');
      CoverConcat(end, [FirstFrame(rem)], Handed(next, k'));
    }
  }

  lemma WithoutFramePrefix(rem: seq<Block>, j: nat)
    requires 0 < j <= |rem| && PAGE <= rem[0].size < U64
    ensures WithoutFrame(rem)[..if rem[0].size == PAGE then j - 1 else j] == WithoutFrame(rem[..j])
  {
    WholePageLeft(rem);
    WholePageLeft(rem[..j]);
    assert rem[..j][1..] == rem[1..][..j - 1];
  }

  /** One byte short of a page: the remaining length wraps and the next page follows. */
  lemma WrapsToNext(rem: seq<Block>)
    requires rem != [] && rem[0].size == PAGE - 1
    ensures Cover(rem[0].End() + 1, Handed(rem, 2)) >= 1
  {
    var next := WithoutFrame(rem);
    assert next[0] == Block(rem[0].base + PAGE, U64 - 1);
    assert Handed(rem, 2) == [FirstFrame(rem)] + Handed(next, 1);
    assert Handed(next, 1)[0] == FirstFrame(next);
    CoverPositive(rem[0].End() + 1, Handed(rem, 2), 1);
  }

  /** One frame more in front of a run. */
  lemma FrameInFront(rem: seq<Block>, j: nat, k: nat, x: nat)
    requires InSpace(rem) && 0 <= j < |rem| && rem[0].size >= PAGE
    requires forall i :: 0 <= i < j ==> WholePages(rem[i].size)
    requires j == 0 || Cover(x, Handed(WithoutFrame(rem), k)) >= Cover(x, WithoutFrame(rem[..j])) + 1
    requires j > 0 || Cover(x, Handed(WithoutFrame(rem), k)) >= 1
    ensures Cover(x, Handed(rem, k + 1)) >= Cover(x, rem[..j]) + 1
  {
    CoverConcat(x, [FirstFrame(rem)], Handed(WithoutFrame(rem), k));
    if j > 0 {
      FrameStep(rem[..j]);
    }
  }

  /** The segments before j are whole pages, and the one at j is one byte short of it. */
  ghost predicate ShortAt(rem: seq<Block>, j: nat) {
    && InSpace(rem) && j < |rem| && WholePages(rem[j].size + 1)
    && forall i :: 0 <= i < j ==> WholePages(rem[i].size)
  }

  /** The last page of the first segment was taken. */
  lemma ShortAfterLast(rem: seq<Block>, j: nat)
    requires ShortAt(rem, j) && rem[0].size == PAGE
    ensures j > 0 && WithoutFrame(rem) == rem[1..] && ShortAt(rem[1..], j - 1)
    ensures rem[1..][..j - 1] == WithoutFrame(rem[..j])
  {
    assert j > 0 by {
      assert !WholePages(PAGE + 1);
    }
    WholePageLeft(rem);
    WithoutFramePrefix(rem, j);
  }

  /** A page of the first segment was taken, and some of it is left. */
  lemma ShortAfterPage(rem: seq<Block>, j: nat)
    requires ShortAt(rem, j) && rem[0].size > PAGE
    ensures var next := WithoutFrame(rem);
            && |next| == |rem| && next[0].size < rem[0].size
            && ShortAt(next, j) && next[j].End() == rem[j].End()
            && (j > 0 ==> next[..j] == WithoutFrame(rem[..j]))
  {
    WholePageLeft(rem);
    var next := WithoutFrame(rem);
    assert next[0] == Block(rem[0].base + PAGE, rem[0].size - PAGE);
    assert forall i :: 1 <= i < |rem| ==> next[i] == rem[i];
    if j > 0 {
      WithoutFramePrefix(rem, j);
    }
  }

  /** k calls hand out all segments before j and the page behind the byte that j lacks. */
  ghost predicate Overrun(rem: seq<Block>, j: nat, k: nat)
    requires j < |rem|
  {
    var x := rem[j].End() + 1; Cover(x, Handed(rem, k)) >= Cover(x, rem[..j]) + 1
  }

  lemma OverrunLast(rem: seq<Block>, j: nat, k: nat)
    requires ShortAt(rem, j) && rem[0].size == PAGE && j > 0 && Overrun(rem[1..], j - 1, k)
    ensures Overrun(rem, j, k + 1)
  {
    ShortAfterLast(rem, j);
    FrameInFront(rem, j, k, rem[j].End() + 1);
  }

  lemma OverrunPage(rem: seq<Block>, next: seq<Block>, j: nat, k: nat)
    requires ShortAt(rem, j) && rem[0].size > PAGE && next == WithoutFrame(rem)
    requires j < |next| && Overrun(next, j, k)
    ensures Overrun(rem, j, k + 1)
  {
    ShortAfterPage(rem, j);
    FrameInFront(rem, j, k, rem[j].End() + 1);
  }

  /** Some number of calls does so. */
  lemma {:induction false} RunsOver(rem: seq<Block>, j: nat) returns (k: nat)
    requires ShortAt(rem, j)
    ensures Overrun(rem, j, k)
    decreases |rem|, rem[0].size
  {
    if rem[0].size < PAGE {
      WrapsToNext(rem);
      k := 2;
    } else if rem[0].size == PAGE {
      ShortAfterLast(rem, j);
      k := RunsOver(rem[1..], j - 1);
      OverrunLast(rem, j, k);
      k := k + 1;
    } else {
      ShortAfterPage(rem, j);
      var next := WithoutFrame(rem);
      k := RunsOver(next, j);
      OverrunPage(rem, next, j, k);
      k := k + 1;
    }
  }

  // ---------------------------------------------------------------- which maps are safe

  /** The boot loader reports page-aligned regions of the physical address space. */
  predicate AlignedMap(map_: MemoryMap) {
    forall i :: 0 <= i < |map_| ==>
      map_[i].start % PAGE == 0 && map_[i].size % PAGE == 0 && map_[i].start + map_[i].size <= ADDRESS_LIMIT
  }

  predicate FrameStart(z: Zone, r: MemoryRegion) {
    Clip(z, r).Some? ==>
      var b := Clip(z, r).value; WholePages(b.base) && 0 < b.size && b.End() <= ADDRESS_LIMIT
  }

  /** Segments start on page boundaries, so that every frame handed out is a frame. */
  ghost predicate FrameStarts(map_: MemoryMap) {
    forall z, i {:trigger FrameStart(z, map_[i])} :: 1 <= i < |map_| ==> FrameStart(z, map_[i])
  }

  predicate MapDisjoint(map_: MemoryMap) {
    forall i, j :: 0 <= i < j < |map_| && map_[i].usable && map_[j].usable ==>
      map_[i].start + map_[i].size <= map_[j].start || map_[j].start + map_[j].size <= map_[i].start
  }

  /** A usable region that holds the last page of the first 64 KiB or of the first 4 GiB. */
  predicate HoldsZoneEnd(r: MemoryRegion) {
    && r.usable
    && (r.start <= 0xf000 < r.start + r.size || r.start <= 0xffff_f000 < r.start + r.size)
  }

  lemma PagesDiffer(a: nat, b: nat)
    requires a <= b && a % PAGE == 0
    ensures (b - a) % PAGE == b % PAGE
  {
  }

  lemma PagesBelow(a: nat, b: nat)
    requires a % PAGE == 0 && b % PAGE == 0 && a < b + PAGE
    ensures a <= b
  {
  }

  /** The clipped region is whole pages unless the limit of a low zone cut it. */
  lemma ClipSize(z: Zone, r: MemoryRegion)
    requires r.start % PAGE == 0 && r.size % PAGE == 0 && r.start + r.size <= ADDRESS_LIMIT
    requires Clip(z, r).Some?
    ensures var b := Clip(z, r).value;
            && 0 < b.size && b.End() <= ADDRESS_LIMIT && b.base % PAGE == 0
            && b.End() == (if r.start + r.size > z.Upper() then z.Upper() else r.start + r.size)
            && (b.size % PAGE != 0 <==> r.start + r.size > z.Upper())
  {
    var b := Clip(z, r).value;
    assert (r.start + r.size) % PAGE == 0;
    assert z.Lower() % PAGE == 0 && (z != Mem64 ==> z.Upper() % PAGE == PAGE - 1);
    PagesDiffer(b.base, b.End());
  }

  /** A low zone's limit cuts exactly the regions that hold the zone's last page. */
  lemma ClipPages(z: Zone, r: MemoryRegion)
    requires r.start % PAGE == 0 && r.size % PAGE == 0 && r.start + r.size <= ADDRESS_LIMIT
    requires Clip(z, r).Some?
    ensures var b := Clip(z, r).value;
            && 0 < b.size && b.End() <= ADDRESS_LIMIT && b.base % PAGE == 0
            && (b.size % PAGE != 0 ==> b.End() == z.Upper() && z != Mem64 && HoldsZoneEnd(r))
            && (z == Mem16 && r.start <= 0xf000 < r.start + r.size ==> b.size % PAGE != 0)
            && (z == Mem32 && r.start <= 0xffff_f000 < r.start + r.size ==> b.size % PAGE != 0)
  {
    ClipSize(z, r);
    assert (r.start + r.size) % PAGE == 0;
    if z != Mem64 {
      var last := z.Upper() + 1 - PAGE;
      assert last % PAGE == 0;
      if r.start + r.size > z.Upper() {
        PagesBelow(r.start, last);
      } else {
        PagesBelow(r.start + r.size, last);
      }
    }
  }

  /** The segments from i on begin with the clipped region i, if there is one. */
  lemma SegmentsStep(z: Zone, map_: MemoryMap, i: nat)
    requires 1 <= i < |map_| && FrameStarts(map_)
    ensures Clip(z, map_[i]).None? ==> Segments(z, map_, i) == Segments(z, map_, i + 1)
    ensures Clip(z, map_[i]).Some? ==>
              var b := Clip(z, map_[i]).value;
              0 < b.size < U64 && WholePages(b.base) && Segments(z, map_, i) == [b] + Segments(z, map_, i + 1)
  {
    assert FrameStart(z, map_[i]);
  }

  lemma {:induction false} SegmentsFrom(z: Zone, map_: MemoryMap, from: nat, i: nat) returns (k: nat)
    requires i < |Segments(z, map_, from)|
    ensures from <= k < |map_| && Clip(z, map_[k]) == Some(Segments(z, map_, from)[i])
    decreases |map_| - from
  {
    var c := Clip(z, map_[from]);
    if c.Some? && i == 0 {
      k := from;
    } else {
      k := SegmentsFrom(z, map_, from + 1, if c.Some? then i - 1 else i);
    }
  }

  lemma {:induction false} SegmentsHave(z: Zone, map_: MemoryMap, from: nat, k: nat) returns (i: nat)
    requires from <= k < |map_| && Clip(z, map_[k]).Some?
    ensures i < |Segments(z, map_, from)| && Segments(z, map_, from)[i] == Clip(z, map_[k]).value
    decreases |map_| - from
  {
    if k == from {
      i := 0;
    } else {
      var j := SegmentsHave(z, map_, from + 1, k);
      i := j + if Clip(z, map_[from]).Some? then 1 else 0;
    }
  }

  /** Where a segment comes from. */
  lemma AllFrom(map_: MemoryMap, i: nat) returns (z: Zone, k: nat)
    requires i < |AllSegments(map_)|
    ensures 1 <= k < |map_| && Clip(z, map_[k]) == Some(AllSegments(map_)[i])
    ensures z != Mem64 ==> i >= |Segments(Mem64, map_, 1)|
    ensures z == Mem16 ==> i >= |Segments(Mem64, map_, 1)| + |Segments(Mem32, map_, 1)|
  {
    var a, b := Segments(Mem64, map_, 1), Segments(Mem32, map_, 1);
    if i < |a| {
      z := Mem64;
      k := SegmentsFrom(Mem64, map_, 1, i);
    } else if i < |a| + |b| {
      z := Mem32;
      k := SegmentsFrom(Mem32, map_, 1, i - |a|);
    } else {
      z := Mem16;
      k := SegmentsFrom(Mem16, map_, 1, i - |a| - |b|);
    }
  }

  lemma AllHave(map_: MemoryMap, z: Zone, k: nat) returns (i: nat)
    requires 1 <= k < |map_| && Clip(z, map_[k]).Some?
    ensures i < |AllSegments(map_)| && AllSegments(map_)[i] == Clip(z, map_[k]).value
  {
    i := SegmentsHave(z, map_, 1, k);
    if z != Mem64 {
      i := i + |Segments(Mem64, map_, 1)|;
    }
    if z == Mem16 {
      i := i + |Segments(Mem32, map_, 1)|;
    }
  }

  lemma AlignedStarts(map_: MemoryMap)
    requires AlignedMap(map_)
    ensures FrameStarts(map_)
  {
    forall z, i | 1 <= i < |map_| ensures FrameStart(z, map_[i]) {
      if Clip(z, map_[i]).Some? {
        ClipPages(z, map_[i]);
        WholePagesMod(Clip(z, map_[i]).value.base);
      }
    }
  }

  lemma AllInSpace(map_: MemoryMap)
    requires FrameStarts(map_)
    ensures InSpace(AllSegments(map_))
  {
    forall i | 0 <= i < |AllSegments(map_)|
      ensures 0 < AllSegments(map_)[i].size && AllSegments(map_)[i].End() <= ADDRESS_LIMIT
    {
      var z, k := AllFrom(map_, i);
      assert FrameStart(z, map_[k]);
    }
  }

  ghost predicate ZoneEndsFree(map_: MemoryMap) {
    forall k :: 1 <= k < |map_| ==> !HoldsZoneEnd(map_[k])
  }

  /** Of a page-aligned map, every segment is whole pages exactly when no usable region
      behind the first holds the last page of the low zones. */
  lemma WholePagesIff(map_: MemoryMap)
    requires AlignedMap(map_)
    ensures PageMultiples(AllSegments(map_)) <==> ZoneEndsFree(map_)
  {
    var all := AllSegments(map_);
    AlignedStarts(map_);
    AllInSpace(map_);
    if ZoneEndsFree(map_) {
      forall i | 0 <= i < |all| ensures all[i].size > 0 && WholePages(all[i].size) {
        var z, k := AllFrom(map_, i);
        ClipPages(z, map_[k]);
        WholePagesMod(all[i].size);
      }
    } else {
      var k :| 1 <= k < |map_| && HoldsZoneEnd(map_[k]);
      var z := if map_[k].start <= 0xf000 < map_[k].start + map_[k].size then Mem16 else Mem32;
      ClipPages(z, map_[k]);
      var i := AllHave(map_, z, k);
      WholePagesMod(all[i].size);
      assert !WholePages(all[i].size);
    }
  }

  /** No zone contains the limit of the low zones. */
  lemma LimitsUncovered(map_: MemoryMap, x: nat)
    requires x == 0xffff || x == 0xffff_ffff
    ensures Cover(x, AllSegments(map_)) == 0
  {
    forall i | 0 <= i < |AllSegments(map_)| ensures !AllSegments(map_)[i].Has(x) {
      var z, k := AllFrom(map_, i);
    }
    CoverZero(x, AllSegments(map_));
  }

  lemma {:induction false} FirstBroken(rem: seq<Block>, n: nat) returns (j: nat)
    requires n < |rem| && !WholePages(rem[n].size)
    ensures j < |rem| && !WholePages(rem[j].size)
    ensures forall i :: 0 <= i < j ==> WholePages(rem[i].size)
    decreases n
  {
    j := n;
    if i :| 0 <= i < n && !WholePages(rem[i].size) {
      j := FirstBroken(rem, i);
    }
  }

  /** The frames stay inside the clipped segments, however many are handed out, exactly when
      no usable region behind the first holds the last page of a low zone. */
  lemma FramesInSegmentsIff(map_: MemoryMap)
    requires AlignedMap(map_)
    ensures (forall k, x :: Cover(x, Handed(AllSegments(map_), k)) <= Cover(x, AllSegments(map_)))
            <==> ZoneEndsFree(map_)
  {
    var all := AllSegments(map_);
    AlignedStarts(map_);
    AllInSpace(map_);
    WholePagesIff(map_);
    if ZoneEndsFree(map_) {
      forall k, x ensures Cover(x, Handed(all, k)) <= Cover(x, all) {
        FramesConserve(all, k);
      }
    } else {
      var n :| 0 <= n < |all| && !(all[n].size > 0 && WholePages(all[n].size));
      var j := FirstBroken(all, n);
      var k := Overruns(all, j);
      var z, r := AllFrom(map_, j);
      ClipPages(z, map_[r]);
      WholePagesMod(all[j].size);
      LimitsUncovered(map_, all[j].End());
      assert Cover(all[j].End(), Handed(all, k)) > Cover(all[j].End(), all);
    }
  }

  // ---------------------------------------------------------------- what the segments are

  /** A usable region from map index `from` on holds x. */
  predicate UsableFrom(map_: MemoryMap, from: nat, x: nat)
    decreases |map_| - from
  {
    from < |map_| &&
    ((map_[from].usable && map_[from].start <= x < map_[from].start + map_[from].size)
     || UsableFrom(map_, from + 1, x))
  }

  predicate InZone(z: Zone, x: nat) {
    z.Lower() <= x < z.Upper()
  }

  lemma {:induction false} LaterApart(map_: MemoryMap, i: nat, from: nat, x: nat)
    requires MapDisjoint(map_) && i < from && i < |map_|
    requires map_[i].usable && map_[i].start <= x < map_[i].start + map_[i].size
    ensures !UsableFrom(map_, from, x)
    decreases |map_| - from
  {
    if from < |map_| {
      LaterApart(map_, i, from + 1, x);
    }
  }

  lemma {:induction false} SegmentsCover(z: Zone, map_: MemoryMap, from: nat, x: nat)
    requires MapDisjoint(map_)
    ensures Cover(x, Segments(z, map_, from)) ==
            if InZone(z, x) && UsableFrom(map_, from, x) then 1 else 0
    decreases |map_| - from
  {
    if from < |map_| {
      SegmentsCover(z, map_, from + 1, x);
      var r := map_[from];
      var c := Clip(z, r);
      assert (c.Some? && c.value.Has(x)) <==>
             (r.usable && InZone(z, x) && r.start <= x < r.start + r.size);
      if r.usable && r.start <= x < r.start + r.size {
        LaterApart(map_, from, from + 1, x);
      }
      if c.Some? {
        CoverConcat(x, [c.value], Segments(z, map_, from + 1));
        assert [c.value][1..] == [];
      } else {
        assert Segments(z, map_, from) == Segments(z, map_, from + 1);
      }
    }
  }

  /** Usable, in a zone, and not in the first region of the map. */
  predicate Usable(map_: MemoryMap, x: nat) {
    (InZone(Mem16, x) || InZone(Mem32, x) || InZone(Mem64, x)) && UsableFrom(map_, 1, x)
  }

  /** The segments cover each usable byte of the three zones once, the first region of the
      map excepted, and nothing else. */
  lemma SegmentsExact(map_: MemoryMap, x: nat)
    requires MapDisjoint(map_)
    ensures Cover(x, AllSegments(map_)) == if Usable(map_, x) then 1 else 0
  {
    var a, b, c := Segments(Mem64, map_, 1), Segments(Mem32, map_, 1), Segments(Mem16, map_, 1);
    SegmentsCover(Mem64, map_, 1, x);
    SegmentsCover(Mem32, map_, 1, x);
    SegmentsCover(Mem16, map_, 1, x);
    CoverConcat(x, a + b, c);
    CoverConcat(x, a, b);
  }

  /** After k calls the frames and the rest are together the usable memory, each byte once. */
  lemma TakenAndLeft(map_: MemoryMap, k: nat)
    requires FrameStarts(map_) && MapDisjoint(map_) && PageMultiples(AllSegments(map_))
    ensures InSpace(Left(AllSegments(map_), k))
    ensures forall x: nat ::
              Cover(x, Handed(AllSegments(map_), k)) + Cover(x, Left(AllSegments(map_), k)) ==
              if Usable(map_, x) then 1 else 0
  {
    AllInSpace(map_);
    FramesConserve(AllSegments(map_), k);
    forall x: nat ensures Cover(x, AllSegments(map_)) == if Usable(map_, x) then 1 else 0 {
      SegmentsExact(map_, x);
    }
  }

  /** The byte behind the limit of a low zone was handed out with the next zone, if it is
      usable, before the cursor of the low zone gets there. */
  lemma NextZoneFirst(map_: MemoryMap, z: Zone, j: nat, x: nat)
    requires MapDisjoint(map_) && z != Mem64 && x == z.Upper() + 1 && j < |AllSegments(map_)|
    requires j >= |Segments(Mem64, map_, 1)|
    requires z == Mem16 ==> j >= |Segments(Mem64, map_, 1)| + |Segments(Mem32, map_, 1)|
    ensures Cover(x, AllSegments(map_)[..j]) >= if UsableFrom(map_, 1, x) then 1 else 0
  {
    var a, b, c := Segments(Mem64, map_, 1), Segments(Mem32, map_, 1), Segments(Mem16, map_, 1);
    if z == Mem16 {
      SegmentsCover(Mem32, map_, 1, x);
      var rest := c[..j - |a| - |b|];
      assert AllSegments(map_)[..j] == a + b + rest;
      CoverConcat(x, a + b, rest);
      CoverConcat(x, a, b);
    } else {
      SegmentsCover(Mem64, map_, 1, x);
      var rest := (b + c)[..j - |a|];
      assert AllSegments(map_)[..j] == a + rest;
      CoverConcat(x, a, rest);
    }
  }

  /** A clipped region that is not whole pages ends at the limit of a low zone, one byte
      short. */
  lemma BrokenIsShort(z: Zone, r: MemoryRegion)
    requires r.start % PAGE == 0 && r.size % PAGE == 0 && r.start + r.size <= ADDRESS_LIMIT
    requires Clip(z, r).Some? && !WholePages(Clip(z, r).value.size)
    ensures var b := Clip(z, r).value; z != Mem64 && b.End() == z.Upper() && WholePages(b.size + 1)
  {
    var b := Clip(z, r).value;
    ClipPages(z, r);
    WholePagesMod(b.size);
    assert (z.Upper() + 1) % PAGE == 0;
    PagesDiffer(b.base, z.Upper() + 1);
    WholePagesMod(b.size + 1);
  }

  /** A region that holds the last page of a low zone makes some number of calls hand out a
      byte that is not usable, or one that was handed out before. */
  lemma FrameOutside(map_: MemoryMap) returns (k: nat, x: nat)
    requires AlignedMap(map_) && MapDisjoint(map_) && !ZoneEndsFree(map_)
    ensures Cover(x, Handed(AllSegments(map_), k)) > if UsableFrom(map_, 1, x) then 1 else 0
  {
    var all := AllSegments(map_);
    AlignedStarts(map_);
    AllInSpace(map_);
    WholePagesIff(map_);
    var n :| 0 <= n < |all| && !(all[n].size > 0 && WholePages(all[n].size));
    var j := FirstBroken(all, n);
    var z, r := AllFrom(map_, j);
    BrokenIsShort(z, map_[r]);
    k := RunsOver(all, j);
    x := all[j].End() + 1;
    NextZoneFirst(map_, z, j, x);
  }

  /** `allocate_frame` hands out usable memory only, and each byte of it once, however often
      it is called, exactly when no usable region behind the first holds the last page of the
      first 64 KiB or of the first 4 GiB. */
  lemma FramesInsideIff(map_: MemoryMap)
    requires AlignedMap(map_) && MapDisjoint(map_)
    ensures (forall k, x :: Cover(x, Handed(AllSegments(map_), k)) <= if UsableFrom(map_, 1, x) then 1 else 0)
            <==> ZoneEndsFree(map_)
  {
    var all := AllSegments(map_);
    if ZoneEndsFree(map_) {
      AlignedStarts(map_);
      AllInSpace(map_);
      WholePagesIff(map_);
      forall k, x ensures Cover(x, Handed(all, k)) <= if UsableFrom(map_, 1, x) then 1 else 0 {
        FramesConserve(all, k);
        SegmentsExact(map_, x);
      }
    } else {
      var k, x := FrameOutside(map_);
      assert Cover(x, Handed(all, k)) > if UsableFrom(map_, 1, x) then 1 else 0;
    }
  }

  /** One usable page at 0xf000: the second call hands out the page at 0x10000, which is not
      usable. */
  lemma OverrunSample()
    ensures var map_ := [MemoryRegion(0, 0x1000, true), MemoryRegion(0xf000, 0x1000, true)];
            && AlignedMap(map_) && MapDisjoint(map_)
            && AllSegments(map_) == [Block(0xf000, 0xfff)]
            && Handed(AllSegments(map_), 2) == [Block(0xf000, PAGE), Block(0x1_0000, PAGE)]
            && !UsableFrom(map_, 1, 0x1_0000)
  {
    var map_ := [MemoryRegion(0, 0x1000, true), MemoryRegion(0xf000, 0x1000, true)];
    assert Segments(Mem64, map_, 2) == Segments(Mem32, map_, 2) == Segments(Mem16, map_, 2) == [];
    assert Segments(Mem64, map_, 1) == [] && Segments(Mem32, map_, 1) == [];
    assert Segments(Mem16, map_, 1) == [Block(0xf000, 0xfff)];
    var all := AllSegments(map_);
    assert all == [Block(0xf000, 0xfff)];
    assert WithoutFrame(all) == [Block(0x1_0000, U64 - 1)];
    assert Handed(WithoutFrame(all), 1) == [Block(0x1_0000, PAGE)];
    assert !UsableFrom(map_, 2, 0x1_0000);
  }
}
