/**
 Four-level page tables in physical memory: the walk the processor makes, the
 traversal the kernel makes, and how one write of an entry changes them.
 Physical memory is a map from table frames to their 512 entries.
 */
module PageWalk {
  import opened Options

  type Frame = nat
  type Vpn = nat

  const ENTRIES: nat := 512

  /** A raw entry: the frame it points at, its PRESENT and HUGE_PAGE bits, all other bits. */
  datatype Entry = Entry(frame: Frame, present: bool, huge: bool, attrs: nat)

  const UNUSED: Entry := Entry(0, false, false, 0)

  /** `PageTableEntry::frame` succeeds.  Every version of the library asks for PRESENT; whether
      it also refuses HUGE_PAGE depends on the version, which `any` stands for. */
  predicate GivesFrame(e: Entry, any: bool) {
    e.present && (any || !e.huge)
  }

  type Memory = map<Frame, seq<Entry>>

  /** Frames holding tables, labelled with the indices that lead to them from the root. */
  type Labels = map<Frame, seq<nat>>

  datatype Level = L1 | L2 | L3 | L4 {
    function Rank(): nat {
      match this case L1 => 1 case L2 => 2 case L3 => 3 case L4 => 4
    }

    /** Panics at L1. */
    function Dec(): Level
      requires this != L1
    {
      match this case L2 => L1 case L3 => L2 case L4 => L3
    }

    /** Panics at L4. */
    function Inc(): Level
      requires this != L4
    {
      match this case L1 => L2 case L2 => L3 case L3 => L4
    }

    /** The 9-bit field of the page number that indexes a table of this level. */
    function Index(p: Vpn): (i: nat)
      ensures i < ENTRIES
    {
      match this
      case L1 => p % 512
      case L2 => p / 512 % 512
      case L3 => p / 512 / 512 % 512
      case L4 => p / 512 / 512 / 512 % 512
    }
  }

  /** The indices that lead to the table of level l for page p. */
  function PathTo(l: Level, p: Vpn): seq<nat> {
    match l
    case L4 => []
    case L3 => [L4.Index(p)]
    case L2 => [L4.Index(p), L3.Index(p)]
    case L1 => [L4.Index(p), L3.Index(p), L2.Index(p)]
  }

  /** A page number is its four indices, nine bits each, the level 4 index the highest. */
  lemma IndexDigits(p: Vpn)
    requires IsVpn(p)
    ensures p == ((L4.Index(p) * 512 + L3.Index(p)) * 512 + L2.Index(p)) * 512 + L1.Index(p)
  {
  }

  /** Page numbers of the 48-bit address space. */
  predicate IsVpn(p: nat) {
    p < 0x10_0000_0000
  }

  lemma PathDeterminesPage(p: Vpn, q: Vpn)
    requires IsVpn(p) && IsVpn(q)
    requires PathTo(L1, p) == PathTo(L1, q) && L1.Index(p) == L1.Index(q)
    ensures p == q
  {
    var a, b := PathTo(L1, p), PathTo(L1, q);
    assert a[0] == b[0] && a[1] == b[1] && a[2] == b[2];
  }

  function EntryAt(mem: Memory, f: Frame, i: nat): Entry {
    if f in mem && i < |mem[f]| then mem[f][i] else UNUSED
  }

  function Blank(): (t: seq<Entry>)
    ensures |t| == ENTRIES && forall i :: 0 <= i < ENTRIES ==> t[i] == UNUSED
  {
    seq(ENTRIES, i => UNUSED)
  }

  // ---------------------------------------------------------------- the processor's walk

  datatype Leaf = Leaf(entry: Entry, level: Level)

  /** Section 4.5 of the Intel SDM, volume 3A: stop at an entry that is not present, at a
      large page of level 3 or 2, or at level 1; a large page at level 4 is reserved. */
  function WalkFrom(mem: Memory, f: Frame, l: Level, p: Vpn): Option<Leaf>
    decreases l.Rank()
  {
    var e := EntryAt(mem, f, l.Index(p));
    if !e.present then None
    else if l == L1 then Some(Leaf(e, L1))
    else if e.huge then if l == L4 then None else Some(Leaf(e, l))
    else WalkFrom(mem, e.frame, l.Dec(), p)
  }

  /** The translation of page p. */
  function Walk(mem: Memory, root: Frame, p: Vpn): Option<Leaf> {
    WalkFrom(mem, root, L4, p)
  }

  // ---------------------------------------------------------------- the kernel's traversal

  datatype TraverseResult = Ok(table: Frame) | ParentEntryHugePage(level: Level) | PageNotMapped(level: Level)

  function TraverseInner(mem: Memory, curr: Level, target: Level, p: Vpn, f: Frame): (r: TraverseResult)
    requires curr.Rank() > target.Rank()
    ensures !r.Ok? ==> r.level.Rank() >= target.Rank()
    decreases curr.Rank()
  {
    var e := EntryAt(mem, f, curr.Index(p));
    if e == UNUSED then PageNotMapped(curr.Dec())
    else if e.huge then ParentEntryHugePage(curr.Dec())
    else if curr.Dec() == target then Ok(e.frame)
    else TraverseInner(mem, curr.Dec(), target, p, e.frame)
  }

  function Traverse(mem: Memory, root: Frame, target: Level, p: Vpn): (r: TraverseResult)
    ensures !r.Ok? ==> r.level.Rank() >= target.Rank()
  {
    if target == L4 then Ok(root) else TraverseInner(mem, L4, target, p, root)
  }

  /** What the entry of a table at level l.Inc() says about the table of level l. */
  function Follow(e: Entry, l: Level): TraverseResult {
    if e == UNUSED then PageNotMapped(l)
    else if e.huge then ParentEntryHugePage(l)
    else Ok(e.frame)
  }

  /** The traversal to a level is the one to the level above and one more entry. */
  lemma TraverseStep(mem: Memory, root: Frame, l: Level, p: Vpn)
    requires l != L4
    ensures var up := Traverse(mem, root, l.Inc(), p);
            Traverse(mem, root, l, p) ==
            if up.Ok? then Follow(EntryAt(mem, up.table, l.Inc().Index(p)), l) else up
  {
  }

  // ---------------------------------------------------------------- trees

  /** Entries of an upper table: in use means present, and a table entry leads to the
      table labelled with one more index. */
  predicate GoodEntry(mem: Memory, path: Labels, at: seq<nat>, i: nat, e: Entry) {
    e != UNUSED ==>
      && e.present
      && (e.huge ==> at != [])
      && (!e.huge ==> e.frame in mem && e.frame in path && path[e.frame] == at + [i])
  }

  ghost predicate Tree(mem: Memory, root: Frame, path: Labels) {
    && root in mem && path.Keys == mem.Keys && path[root] == []
    && (forall f :: f in mem ==> |mem[f]| == ENTRIES && |path[f]| <= 3)
    && (forall f, i :: f in mem && 0 <= i < ENTRIES && |path[f]| < 3 ==>
          GoodEntry(mem, path, path[f], i, EntryAt(mem, f, i)))
  }

  lemma TreeEntry(mem: Memory, root: Frame, path: Labels, f: Frame, i: nat)
    requires Tree(mem, root, path) && f in mem && i < ENTRIES && |path[f]| < 3
    ensures GoodEntry(mem, path, path[f], i, EntryAt(mem, f, i))
  {
  }

  /** A table is reached exactly by the indices in its label, so by one path. */
  lemma {:induction false} TraverseLabel(mem: Memory, root: Frame, path: Labels, l: Level, p: Vpn)
    requires Tree(mem, root, path) && Traverse(mem, root, l, p).Ok?
    ensures var f := Traverse(mem, root, l, p).table;
            f in mem && path[f] == PathTo(l, p)
    decreases 4 - l.Rank()
  {
    if l != L4 {
      TraverseStep(mem, root, l, p);
      TraverseLabel(mem, root, path, l.Inc(), p);
      var f := Traverse(mem, root, l.Inc(), p).table;
      TreeEntry(mem, root, path, f, l.Inc().Index(p));
    }
  }

  /** Two ways to the same table agree on the level and on every index used. */
  lemma OnePath(mem: Memory, root: Frame, path: Labels, l: Level, p: Vpn, m: Level, q: Vpn)
    requires Tree(mem, root, path)
    requires Traverse(mem, root, l, p).Ok? && Traverse(mem, root, m, q) == Traverse(mem, root, l, p)
    ensures l == m && PathTo(l, p) == PathTo(m, q)
  {
    TraverseLabel(mem, root, path, l, p);
    TraverseLabel(mem, root, path, m, q);
  }

  /** The traversal stopped at the large page that the processor's walk ends in. */
  predicate StopsAtLeaf(mem: Memory, root: Frame, p: Vpn, k: Level) {
    && (k == L1 || k == L2)
    && var up := Traverse(mem, root, k.Inc(), p);
       up.Ok? && Walk(mem, root, p) ==
                 Some(Leaf(EntryAt(mem, up.table, k.Inc().Index(p)), k.Inc()))
  }

  /** The processor and the kernel go down the same tables. */
  lemma {:induction false} WalkTraverse(mem: Memory, root: Frame, path: Labels, l: Level, p: Vpn)
    requires Tree(mem, root, path)
    ensures var t := Traverse(mem, root, l, p);
            && (t.Ok? ==> Walk(mem, root, p) == WalkFrom(mem, t.table, l, p))
            && (t.PageNotMapped? ==> Walk(mem, root, p) == None)
            && (t.ParentEntryHugePage? ==>
                  t.level.Rank() >= l.Rank() && StopsAtLeaf(mem, root, p, t.level))
    decreases 4 - l.Rank()
  {
    if l != L4 {
      TraverseStep(mem, root, l, p);
      WalkTraverse(mem, root, path, l.Inc(), p);
      if Traverse(mem, root, l.Inc(), p).Ok? {
        var f := Traverse(mem, root, l.Inc(), p).table;
        TraverseLabel(mem, root, path, l.Inc(), p);
        TreeEntry(mem, root, path, f, l.Inc().Index(p));
      }
    }
  }

  // ---------------------------------------------------------------- one write

  function Write(mem: Memory, f: Frame, i: nat, e: Entry): Memory
    requires f in mem && i < |mem[f]|
  {
    mem[f := mem[f][i := e]]
  }

  /** A write is seen only by the pages whose indices pass through the written entry. */
  lemma {:induction false} WalkFrame(mem: Memory, root: Frame, path: Labels, g: Frame, i: nat, e: Entry,
                  f: Frame, l: Level, q: Vpn)
    requires Tree(mem, root, path) && g in mem && i < ENTRIES
    requires f in mem && path[f] == PathTo(l, q)
    requires forall m: Level :: path[g] == PathTo(m, q) ==> m.Index(q) != i
    ensures WalkFrom(Write(mem, g, i, e), f, l, q) == WalkFrom(mem, f, l, q)
    decreases l.Rank()
  {
    var w := EntryAt(mem, f, l.Index(q));
    assert EntryAt(Write(mem, g, i, e), f, l.Index(q)) == w;
    if w.present && l != L1 && !w.huge {
      TreeEntry(mem, root, path, f, l.Index(q));
      WalkFrame(mem, root, path, g, i, e, w.frame, l.Dec(), q);
    }
  }

  /** Writing a level 1 entry changes the translation of that page and of no other. */
  lemma WriteLeaf(mem: Memory, root: Frame, path: Labels, p: Vpn, e: Entry, q: Vpn)
    requires Tree(mem, root, path) && IsVpn(p) && IsVpn(q)
    requires Traverse(mem, root, L1, p).Ok?
    ensures var f := Traverse(mem, root, L1, p).table;
            && f in mem && |mem[f]| == ENTRIES
            && Tree(Write(mem, f, L1.Index(p), e), root, path)
            && Traverse(Write(mem, f, L1.Index(p), e), root, L1, p) == Ok(f)
            && Walk(Write(mem, f, L1.Index(p), e), root, q) ==
               if q != p then Walk(mem, root, q)
               else if e.present then Some(Leaf(e, L1)) else None
  {
    var f := Traverse(mem, root, L1, p).table;
    TraverseLabel(mem, root, path, L1, p);
    var mem' := Write(mem, f, L1.Index(p), e);
    TreeAfterLeaf(mem, root, path, f, L1.Index(p), e);
    TraverseFrame(mem, root, path, f, L1.Index(p), e, L1, p);
    if q != p {
      if PathTo(L1, q) == path[f] && L1.Index(q) == L1.Index(p) {
        PathDeterminesPage(p, q);
      }
      WalkFrame(mem, root, path, f, L1.Index(p), e, root, L4, q);
    } else {
      WalkTraverse(mem', root, path, L1, p);
    }
  }

  lemma TreeAfterLeaf(mem: Memory, root: Frame, path: Labels, f: Frame, i: nat, e: Entry)
    requires Tree(mem, root, path) && f in mem && i < ENTRIES && |path[f]| == 3
    ensures Tree(Write(mem, f, i, e), root, path)
  {
    var mem' := Write(mem, f, i, e);
    assert mem'.Keys == mem.Keys;
    forall g, j | g in mem' && 0 <= j < ENTRIES && |path[g]| < 3
      ensures GoodEntry(mem', path, path[g], j, EntryAt(mem', g, j))
    {
      TreeEntry(mem, root, path, g, j);
      assert EntryAt(mem', g, j) == EntryAt(mem, g, j);
    }
  }

  /** The way down to a table does not read that table. */
  lemma {:induction false} TraverseFrame(mem: Memory, root: Frame, path: Labels, g: Frame, i: nat, e: Entry,
                      l: Level, p: Vpn)
    requires Tree(mem, root, path) && g in mem && i < ENTRIES && |path[g]| + l.Rank() >= 4
    ensures Traverse(Write(mem, g, i, e), root, l, p) == Traverse(mem, root, l, p)
    decreases 4 - l.Rank()
  {
    if l != L4 {
      TraverseStep(mem, root, l, p);
      TraverseStep(Write(mem, g, i, e), root, l, p);
      TraverseFrame(mem, root, path, g, i, e, l.Inc(), p);
      if Traverse(mem, root, l.Inc(), p).Ok? {
        TraverseLabel(mem, root, path, l.Inc(), p);
      }
    }
  }
}
