/**
 `translate`: the kernel finds a physical address by trying 4 KiB, 2 MiB and 1 GiB
 pages in turn.  It is compared with one walk of the processor.
 */
module AddressTranslation {
  import opened Options
  import opened PageRanges
  import opened PageWalk

  datatype PageResult =
    | Start(frame: Frame)
    | NoPage
    | HugeAbove
    | Unwrapped              // the entry is in use and gives no frame: `frame().unwrap()` panics

  datatype Outcome = Phys(addr: nat) | Nowhere | Panics

  /** How many 4 KiB frames a page of the level covers. */
  function Frames(l: Level): (n: nat)
    requires l != L4
    ensures n > 0
  {
    match l case L1 => 1 case L2 => 512 case L3 => 262144
  }

  /** `translate_page` for the page size of the level. */
  function TranslatePage(mem: Memory, root: Frame, size: Level, p: Vpn, any: bool): PageResult
    requires size != L4
  {
    match Traverse(mem, root, size, p)
    case PageNotMapped(_) => NoPage
    case ParentEntryHugePage(_) => HugeAbove
    case Ok(f) =>
      var e := EntryAt(mem, f, size.Index(p));
      if e == UNUSED then NoPage else if GivesFrame(e, any) then Start(e.frame) else Unwrapped
  }

  function Finish(r: PageResult, va: nat, size: Level): Outcome
    requires size != L4
  {
    match r
    case Start(f) => Phys(f * 4096 + va % (Frames(size) * 4096))
    case Unwrapped => Panics
    case _ => Nowhere
  }

  /** The retry ladder of `translate`. */
  function Translate(mem: Memory, root: Frame, va: nat, any: bool): Outcome {
    var p := va / 4096;
    var small := TranslatePage(mem, root, L1, p, any);
    if small != HugeAbove then Finish(small, va, L1)
    else
      var large := TranslatePage(mem, root, L2, p, any);
      if large != HugeAbove then Finish(large, va, L2)
      else Finish(TranslatePage(mem, root, L3, p, any), va, L3)
  }

  /** What the processor computes from the entry its walk ended in: of a large page's
      address field only the bits above the page offset count. */
  function HardwareAddress(leaf: Leaf, va: nat): nat
    requires leaf.level != L4
  {
    var n := Frames(leaf.level);
    leaf.entry.frame / n * n * 4096 + va % (n * 4096)
  }

  predicate LeafAligned(leaf: Leaf)
    requires leaf.level != L4
  {
    leaf.entry.frame % Frames(leaf.level) == 0
  }

  /** The ladder ends at the entry the processor's walk ends at, and panics exactly when
      that entry gives no frame. */
  lemma LadderFindsLeaf(mem: Memory, root: Frame, path: Labels, va: nat, any: bool)
    requires Tree(mem, root, path) && Walk(mem, root, va / 4096).Some?
    ensures var leaf := Walk(mem, root, va / 4096).value;
            && leaf.level != L4
            && Translate(mem, root, va, any) ==
               if GivesFrame(leaf.entry, any) then Phys(leaf.entry.frame * 4096 + va % (Frames(leaf.level) * 4096))
               else Panics
  {
    var p := va / 4096;
    WalkTraverse(mem, root, path, L1, p);
    WalkTraverse(mem, root, path, L2, p);
    WalkTraverse(mem, root, path, L3, p);
    TraverseStep(mem, root, L1, p);
    TraverseStep(mem, root, L2, p);
  }

  /** Where the processor faults, `translate` finds nothing, except that it panics on a
      4 KiB entry that is in use but not present. */
  lemma LadderFindsFault(mem: Memory, root: Frame, path: Labels, va: nat, any: bool)
    requires Tree(mem, root, path) && Walk(mem, root, va / 4096).None?
    ensures Translate(mem, root, va, any) == if L1Entry(mem, root, va / 4096) != UNUSED then Panics else Nowhere
  {
    WalkTraverse(mem, root, path, L1, va / 4096);
  }

  /** A rung reports a larger page exactly when the processor's walk ends in one, and
      reports no page only where the processor faults. */
  lemma RungExact(mem: Memory, root: Frame, path: Labels, size: Level, p: Vpn, any: bool)
    requires Tree(mem, root, path) && size != L4
    ensures var r, w := TranslatePage(mem, root, size, p, any), Walk(mem, root, p);
            && (r.HugeAbove? <==> w.Some? && w.value.level.Rank() > size.Rank())
            && (r.NoPage? ==> w.None?)
  {
    WalkTraverse(mem, root, path, size, p);
  }

  // ---------------------------------------------------------------- sizes of pages

  /** Two page numbers have the same indices from level 4 down to l. */
  predicate SameIndices(l: Level, p: Vpn, q: Vpn) {
    PathTo(l, p) == PathTo(l, q) && l.Index(p) == l.Index(q)
  }

  lemma SameAtThree(p: Vpn, q: Vpn)
    requires IsVpn(p) && IsVpn(q)
    ensures p / 512 / 512 == q / 512 / 512 <==> SameIndices(L3, p, q)
  {
    IndexDigits(p);
    IndexDigits(q);
    assert PathTo(L3, p) == [L4.Index(p)] && PathTo(L3, q) == [L4.Index(q)];
  }

  lemma SameAtTwo(p: Vpn, q: Vpn)
    requires IsVpn(p) && IsVpn(q)
    ensures p / 512 == q / 512 <==> SameIndices(L2, p, q)
  {
    var a, b := p / 512, q / 512;
    SameAtThree(p, q);
    assert a == a / 512 * 512 + L2.Index(p) && b == b / 512 * 512 + L2.Index(q);
    PathStep(L2, p, q);
  }

  lemma SameAtOne(p: Vpn, q: Vpn)
    requires IsVpn(p) && IsVpn(q)
    ensures p == q <==> SameIndices(L1, p, q)
  {
    SameAtTwo(p, q);
    assert p == p / 512 * 512 + L1.Index(p) && q == q / 512 * 512 + L1.Index(q);
    PathStep(L1, p, q);
  }

  lemma PathStep(l: Level, p: Vpn, q: Vpn)
    requires l == L1 || l == L2
    ensures PathTo(l, p) == PathTo(l, q) <==> SameIndices(l.Inc(), p, q)
  {
    assert PathTo(l, p) == PathTo(l.Inc(), p) + [l.Inc().Index(p)];
    assert PathTo(l, q) == PathTo(l.Inc(), q) + [l.Inc().Index(q)];
    if PathTo(l, p) == PathTo(l, q) {
      var a, b := PathTo(l, p), PathTo(l, q);
      assert a[..|a| - 1] == PathTo(l.Inc(), p) && b[..|b| - 1] == PathTo(l.Inc(), q);
      assert a[|a| - 1] == b[|b| - 1];
    }
  }

  /** A page of a level holds exactly the 4 KiB pages with the same indices down to it. */
  lemma FramesExact(l: Level, p: Vpn, q: Vpn)
    requires l != L4 && IsVpn(p) && IsVpn(q)
    ensures p / Frames(l) == q / Frames(l) <==> SameIndices(l, p, q)
  {
    match l
    case L1 => SameAtOne(p, q);
    case L2 => SameAtTwo(p, q);
    case L3 =>
      SameAtThree(p, q);
      assert p / 512 / 512 == p / 262144 && q / 512 / 512 == q / 262144;
  }

  /** Addresses of one leaf are as far apart after translation as before, for the processor
      and for `translate`. */
  lemma OffsetKept(mem: Memory, root: Frame, path: Labels, va: nat, va': nat, any: bool)
    requires Tree(mem, root, path) && IsVpn(va / 4096) && IsVpn(va' / 4096)
    requires Walk(mem, root, va / 4096).Some? && GivesFrame(Walk(mem, root, va / 4096).value.entry, any)
    requires SameIndices(Walk(mem, root, va / 4096).value.level, va / 4096, va' / 4096)
    ensures var leaf := Walk(mem, root, va / 4096).value;
            && leaf.level != L4
            && Walk(mem, root, va' / 4096) == Some(leaf)
            && HardwareAddress(leaf, va') - HardwareAddress(leaf, va) == va' - va
            && Translate(mem, root, va, any).Phys? && Translate(mem, root, va', any).Phys?
            && Translate(mem, root, va', any).addr - Translate(mem, root, va, any).addr == va' - va
  {
    var p, q := va / 4096, va' / 4096;
    LadderFindsLeaf(mem, root, path, va, any);
    var leaf := Walk(mem, root, p).value;
    SameLeaf(mem, root, path, p, q);
    LadderFindsLeaf(mem, root, path, va', any);
    FramesExact(leaf.level, p, q);
    SamePage(va, va', leaf.level);
  }

  /** Pages with the same indices down to the leaf have the same leaf. */
  lemma SameLeaf(mem: Memory, root: Frame, path: Labels, p: Vpn, q: Vpn)
    requires Tree(mem, root, path) && Walk(mem, root, p).Some?
    requires SameIndices(Walk(mem, root, p).value.level, p, q)
    ensures Walk(mem, root, q) == Walk(mem, root, p)
  {
    var l := Walk(mem, root, p).value.level;
    match l
    case L4 =>
    case L3 =>
    case L2 => PathStep(L2, p, q);
    case L1 =>
      PathStep(L1, p, q);
      PathStep(L2, p, q);
  }

  lemma SamePage(va: nat, va': nat, l: Level)
    requires l != L4 && va / 4096 / Frames(l) == va' / 4096 / Frames(l)
    ensures va' % (Frames(l) * 4096) - va % (Frames(l) * 4096) == va' - va
  {
    match l
    case L1 =>
    case L2 =>
      assert va / 4096 / 512 == va / 0x20_0000 && va' / 4096 / 512 == va' / 0x20_0000;
    case L3 =>
      assert va / 4096 / 262144 == va / 0x4000_0000 && va' / 4096 / 262144 == va' / 0x4000_0000;
  }

  lemma RoundDown(f: nat, n: nat)
    requires n > 0
    ensures f / n * n == f - f % n
  {
  }

  /** `translate` agrees with the processor exactly when the leaf gives a frame and its
      address field is aligned to its page: bit 12 of a large page is its PAT bit, and
      `translate` adds it. */
  lemma TranslateExact(mem: Memory, root: Frame, path: Labels, va: nat, any: bool)
    requires Tree(mem, root, path) && Walk(mem, root, va / 4096).Some?
    ensures var leaf := Walk(mem, root, va / 4096).value;
            && leaf.level != L4
            && (Translate(mem, root, va, any) == Phys(HardwareAddress(leaf, va)) <==>
                  GivesFrame(leaf.entry, any) && LeafAligned(leaf))
  {
    LadderFindsLeaf(mem, root, path, va, any);
    var leaf := Walk(mem, root, va / 4096).value;
    RoundDown(leaf.entry.frame, Frames(leaf.level));
  }

  /** After `unmap_range` has cleared a page, `translate` panics on its addresses exactly when
      the entry had a frame. */
  lemma ClearedPanics(mem: Memory, root: Frame, path: Labels, pages: seq<Vpn>, va: nat, any: bool)
    requires Tree(mem, root, path) && AllVpns(pages)
    requires va / 4096 in pages[..Leading(mem, root, pages)]
    ensures Translate(Cleared(mem, root, pages), root, va, any) ==
            if L1Entry(mem, root, va / 4096).frame != 0 then Panics else Nowhere
  {
    var after, p := Cleared(mem, root, pages), va / 4096;
    assert IsVpn(p) by {
      var i :| 0 <= i < Leading(mem, root, pages) && pages[i] == p;
    }
    ClearedTree(mem, root, path, pages);
    ClearedFacts(mem, root, path, pages, p);
    LadderFindsFault(after, root, path, va, any);
  }
}
