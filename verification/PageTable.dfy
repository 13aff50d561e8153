/**
 The kernel's page table tree, edited in place: attaching missing tables, mapping
 and unmapping 4 KiB pages, clearing a range.
 */
module PageTable {
  import opened Options
  import opened PageWalk
  import opened PageRanges

  // ---------------------------------------------------------------- new tables

  /** A zeroed frame that nothing points at changes no walk. */
  lemma AddBlank(mem: Memory, root: Frame, path: Labels, f: Frame, place: seq<nat>)
    requires Tree(mem, root, path) && f !in mem && |place| <= 3
    ensures Tree(mem[f := Blank()], root, path[f := place])
  {
    var mem', path' := mem[f := Blank()], path[f := place];
    forall g, i | g in mem' && 0 <= i < ENTRIES && |path'[g]| < 3
      ensures GoodEntry(mem', path', path'[g], i, EntryAt(mem', g, i))
    {
      if g != f {
        TreeEntry(mem, root, path, g, i);
      }
    }
  }

  lemma {:induction false} AddBlankWalk(mem: Memory, root: Frame, path: Labels, f: Frame, g: Frame, l: Level, q: Vpn)
    requires Tree(mem, root, path) && f !in mem && g in mem && path[g] == PathTo(l, q)
    ensures WalkFrom(mem[f := Blank()], g, l, q) == WalkFrom(mem, g, l, q)
    decreases l.Rank()
  {
    var e := EntryAt(mem, g, l.Index(q));
    if l != L1 && e.present && !e.huge {
      TreeEntry(mem, root, path, g, l.Index(q));
      AddBlankWalk(mem, root, path, f, e.frame, l.Dec(), q);
    }
  }

  lemma {:induction false} AddBlankTraverse(mem: Memory, root: Frame, path: Labels, f: Frame, l: Level, q: Vpn)
    requires Tree(mem, root, path) && f !in mem
    ensures Traverse(mem[f := Blank()], root, l, q) == Traverse(mem, root, l, q)
    decreases 4 - l.Rank()
  {
    if l != L4 {
      TraverseStep(mem, root, l, q);
      TraverseStep(mem[f := Blank()], root, l, q);
      AddBlankTraverse(mem, root, path, f, l.Inc(), q);
      if Traverse(mem, root, l.Inc(), q).Ok? {
        TraverseLabel(mem, root, path, l.Inc(), q);
      }
    }
  }

  // ---------------------------------------------------------------- linking a table

  /** Traversal reads a page only through its indices. */
  lemma {:induction false} TraverseByPath(mem: Memory, root: Frame, l: Level, p: Vpn, q: Vpn)
    requires PathTo(l, p) == PathTo(l, q)
    ensures Traverse(mem, root, l, p) == Traverse(mem, root, l, q)
    decreases 4 - l.Rank()
  {
    if l != L4 {
      var a, b := PathTo(l, p), PathTo(l, q);
      assert a[..|a| - 1] == PathTo(l.Inc(), p) && b[..|b| - 1] == PathTo(l.Inc(), q);
      assert a[|a| - 1] == l.Inc().Index(p) && b[|b| - 1] == l.Inc().Index(q);
      TraverseStep(mem, root, l, p);
      TraverseStep(mem, root, l, q);
      TraverseByPath(mem, root, l.Inc(), p, q);
    }
  }

  lemma LinkTree(mem: Memory, root: Frame, path: Labels, l: Level, p: Vpn, t: Frame, f: Frame, attrs: nat)
    requires Tree(mem, root, path) && l != L4
    requires t in mem && path[t] == PathTo(l.Inc(), p)
    requires f in mem && path[f] == PathTo(l, p)
    ensures Tree(Write(mem, t, l.Inc().Index(p), Entry(f, true, false, attrs)), root, path)
  {
    var i := l.Inc().Index(p);
    var mem' := Write(mem, t, i, Entry(f, true, false, attrs));
    assert mem'.Keys == mem.Keys;
    forall g, j | g in mem' && 0 <= j < ENTRIES && |path[g]| < 3
      ensures GoodEntry(mem', path, path[g], j, EntryAt(mem', g, j))
    {
      TreeEntry(mem, root, path, g, j);
      if g == t && j == i {
        assert path[f] == path[t] + [i];
      } else {
        assert EntryAt(mem', g, j) == EntryAt(mem, g, j);
      }
    }
  }

  /** Linking an empty table where nothing was linked changes no translation. */
  lemma LinkWalk(mem: Memory, root: Frame, path: Labels, l: Level, p: Vpn, t: Frame, f: Frame,
                 attrs: nat, q: Vpn)
    requires Tree(mem, root, path) && l != L4
    requires Traverse(mem, root, l.Inc(), p) == Ok(t)
    requires t in mem && path[t] == PathTo(l.Inc(), p)
    requires EntryAt(mem, t, l.Inc().Index(p)) == UNUSED
    requires f in mem && path[f] == PathTo(l, p) && mem[f] == Blank()
    ensures Walk(Write(mem, t, l.Inc().Index(p), Entry(f, true, false, attrs)), root, q)
            == Walk(mem, root, q)
  {
    var i := l.Inc().Index(p);
    var e := Entry(f, true, false, attrs);
    var mem' := Write(mem, t, i, e);
    if PathTo(l.Inc(), q) == path[t] && l.Inc().Index(q) == i {
      TraverseByPath(mem, root, l.Inc(), p, q);
      WalkTraverse(mem, root, path, l.Inc(), q);
      LinkTree(mem, root, path, l, p, t, f, attrs);
      TraverseFrame(mem, root, path, t, i, e, l.Inc(), q);
      WalkTraverse(mem', root, path, l.Inc(), q);
      assert t != f;
      assert EntryAt(mem', f, l.Index(q)) == UNUSED;
    } else {
      forall m: Level | path[t] == PathTo(m, q) ensures m.Index(q) != i {
        assert m == l.Inc();
      }
      WalkFrame(mem, root, path, t, i, e, root, L4, q);
    }
  }

  lemma LinkTraverse(mem: Memory, root: Frame, path: Labels, l: Level, p: Vpn, t: Frame, f: Frame, attrs: nat)
    requires Tree(mem, root, path) && l != L4
    requires Traverse(mem, root, l.Inc(), p) == Ok(t)
    requires t in mem && path[t] == PathTo(l.Inc(), p)
    ensures Traverse(Write(mem, t, l.Inc().Index(p), Entry(f, true, false, attrs)), root, l, p) == Ok(f)
  {
    var e := Entry(f, true, false, attrs);
    TraverseFrame(mem, root, path, t, l.Inc().Index(p), e, l.Inc(), p);
    TraverseStep(Write(mem, t, l.Inc().Index(p), e), root, l, p);
  }

  // ---------------------------------------------------------------- what attaching writes

  /** The flags with bit 1, `WRITABLE`, set. */
  function WithWritable(attrs: nat): (r: nat)
    ensures r / 2 % 2 == 1 && r % 2 == attrs % 2 && r / 4 == attrs / 4
  {
    if attrs / 2 % 2 == 1 then attrs else attrs + 2
  }

  /** An entry that reads otherwise in mem' was unused, lies on the way `way` through the
      tables, and now points at a table with exactly the flags `attrs`. */
  predicate GrewAt(mem: Memory, mem': Memory, path: Labels, way: seq<nat>, attrs: nat, f: Frame, i: nat) {
    EntryAt(mem', f, i) != EntryAt(mem, f, i) ==>
      && EntryAt(mem, f, i) == UNUSED
      && f in path && path[f] + [i] <= way
      && EntryAt(mem', f, i) == Entry(EntryAt(mem', f, i).frame, true, false, attrs)
  }

  ghost predicate Grew(mem: Memory, mem': Memory, path: Labels, way: seq<nat>, attrs: nat) {
    forall f, i :: GrewAt(mem, mem', path, way, attrs, f, i)
  }

  predicate SameAt(mem: Memory, mem': Memory, f: Frame, i: nat) {
    EntryAt(mem', f, i) == EntryAt(mem, f, i)
  }

  ghost predicate SameEntries(mem: Memory, mem': Memory) {
    forall f, i :: SameAt(mem, mem', f, i)
  }

  lemma SameBlank(mem: Memory, f: Frame, mem': Memory)
    requires f !in mem && SameEntries(mem[f := Blank()], mem')
    ensures SameEntries(mem, mem')
  {
    forall g, i ensures SameAt(mem, mem', g, i) {
      assert SameAt(mem[f := Blank()], mem', g, i);
      assert EntryAt(mem[f := Blank()], g, i) == EntryAt(mem, g, i);
    }
  }

  lemma GrewBlank(mem: Memory, f: Frame, mem': Memory, path: Labels, way: seq<nat>, attrs: nat)
    requires f !in mem && Grew(mem[f := Blank()], mem', path, way, attrs)
    ensures Grew(mem, mem', path, way, attrs)
  {
    forall g, i ensures GrewAt(mem, mem', path, way, attrs, g, i) {
      assert EntryAt(mem[f := Blank()], g, i) == EntryAt(mem, g, i);
      assert GrewAt(mem[f := Blank()], mem', path, way, attrs, g, i);
    }
  }

  lemma GrewLink(mem: Memory, mem': Memory, path: Labels, l: Level, p: Vpn, t: Frame, table: Frame, attrs: nat)
    requires l != L4 && Grew(mem, mem', path, PathTo(l.Inc(), p), attrs)
    requires t in mem' && t in path && |mem'[t]| == ENTRIES && path[t] == PathTo(l.Inc(), p)
    requires EntryAt(mem', t, l.Inc().Index(p)) == UNUSED
    ensures Grew(mem, Write(mem', t, l.Inc().Index(p), Entry(table, true, false, attrs)), path, PathTo(l, p), attrs)
  {
    var j := l.Inc().Index(p);
    var mem'' := Write(mem', t, j, Entry(table, true, false, attrs));
    assert PathTo(l, p) == PathTo(l.Inc(), p) + [j];
    forall f, i ensures GrewAt(mem, mem'', path, PathTo(l, p), attrs, f, i) {
      assert GrewAt(mem, mem', path, PathTo(l.Inc(), p), attrs, f, i);
      if f != t || i != j {
        assert EntryAt(mem'', f, i) == EntryAt(mem', f, i);
      }
    }
  }

  /** What an attachment did to the entry of level m + 1 on the way to p. */
  predicate LinkedAt(mem: Memory, mem': Memory, root: Frame, p: Vpn, attrs: nat, m: Level) {
    && m != L4 && Traverse(mem', root, m, p).Ok? && Traverse(mem', root, m.Inc(), p).Ok?
    && var t, i := Traverse(mem', root, m.Inc(), p).table, m.Inc().Index(p);
       && EntryAt(mem', t, i).frame == Traverse(mem', root, m, p).table
       && EntryAt(mem', t, i) == if EntryAt(mem, t, i) != UNUSED then EntryAt(mem, t, i)
                                 else Entry(EntryAt(mem', t, i).frame, true, false, attrs)
  }

  /** Each entry on the way to p that was unused now links the next table with exactly these
      flags; each entry that was in use, and each entry elsewhere, is as it was. */
  lemma WayLinked(mem: Memory, mem': Memory, root: Frame, path: Labels, l: Level, p: Vpn, attrs: nat, m: Level)
    requires Grew(mem, mem', path, PathTo(l, p), attrs)
    requires Traverse(mem', root, l, p).Ok? && l.Rank() <= m.Rank() && m != L4
    ensures LinkedAt(mem, mem', root, p, attrs, m)
    ensures forall f, i :: f !in path || !(path[f] + [i] <= PathTo(l, p)) ==> SameAt(mem, mem', f, i)
  {
    forall f, i | f !in path || !(path[f] + [i] <= PathTo(l, p)) ensures SameAt(mem, mem', f, i) {
      assert GrewAt(mem, mem', path, PathTo(l, p), attrs, f, i);
    }
    OkAbove(mem', root, l, m, p);
    TraverseStep(mem', root, m, p);
    var t, i := Traverse(mem', root, m.Inc(), p).table, m.Inc().Index(p);
    assert GrewAt(mem, mem', path, PathTo(l, p), attrs, t, i);
  }

  /** A traversal that reaches a level reaches every level above it. */
  lemma {:induction false} OkAbove(mem: Memory, root: Frame, l: Level, m: Level, p: Vpn)
    requires Traverse(mem, root, l, p).Ok? && l.Rank() <= m.Rank()
    ensures Traverse(mem, root, m, p).Ok?
    decreases m.Rank() - l.Rank()
  {
    if l.Rank() < m.Rank() {
      TraverseStep(mem, root, l, p);
      OkAbove(mem, root, l.Inc(), m, p);
    }
  }

  // ---------------------------------------------------------------- the tree in place

  /** The memory with the level 1 entry of p empty. */
  function ClearedLeaf(mem: Memory, root: Frame, p: Vpn): Memory {
    var t := Traverse(mem, root, L1, p);
    if t.Ok? && t.table in mem && L1.Index(p) < |mem[t.table]| then
      Write(mem, t.table, L1.Index(p), UNUSED)
    else mem
  }

  lemma ClearedWritten(mem: Memory, root: Frame, path: Labels, p: Vpn, t: Frame, e: Entry)
    requires Tree(mem, root, path) && Traverse(mem, root, L1, p) == Ok(t) && t in mem
    requires EntryAt(mem, t, L1.Index(p)) == UNUSED
    ensures ClearedLeaf(Write(mem, t, L1.Index(p), e), root, p) == mem
  {
    TraverseLabel(mem, root, path, L1, p);
    TraverseFrame(mem, root, path, t, L1.Index(p), e, L1, p);
    assert mem[t][L1.Index(p) := e][L1.Index(p) := UNUSED] == mem[t];
  }

  datatype AttachResult = Attached | ParentHuge | AlreadyAttached | NoFrame

  datatype MapResult =
    | Mapped
    | MapParentHuge
    | PageAlreadyMapped(frame: Frame)
    | FramePanic               // the entry is in use and gives no frame: `frame().unwrap()` panics
    | MapNoFrame               // "System ran out of memory"

  datatype UnmapResult = Unmapped(frame: Frame) | NotMapped | UnmapParentHuge

  datatype RangeResult =
    | Sent(start: Vpn, end: Vpn)
    | EmptyRangePanic          // "Empty page range given to shootdown"

  lemma SameLeading(mem: Memory, root: Frame, path: Labels, p: Vpn, rest: seq<Vpn>)
    requires Tree(mem, root, path) && IsVpn(p)
    ensures Leading(ClearOne(mem, root, p), root, rest) == Leading(mem, root, rest)
  {
    forall q ensures Traverse(ClearOne(mem, root, p), root, L1, q) == Traverse(mem, root, L1, q) {
      SameTraverse(mem, root, path, p, q);
    }
    LeadingSame(mem, ClearOne(mem, root, p), root, rest);
  }

  lemma ReachedHasTable(mem: Memory, root: Frame, path: Labels, pages: seq<Vpn>, p: Vpn)
    requires Tree(mem, root, path) && AllVpns(pages) && p in pages[..Leading(mem, root, pages)]
    ensures HasTable(Cleared(mem, root, pages), root, p)
  {
    InDone(mem, root, pages, p);
    ClearedTree(mem, root, path, pages);
  }

  lemma SentFacts(mem: Memory, root: Frame, pages: seq<Vpn>)
    ensures Ascending(pages) ==>
              (SentStart(pages) > SentEnd(mem, root, pages) <==>
               pages != [] && pages[0] != 0 && !HasTable(mem, root, pages[0]))
    ensures Ascending(pages) ==> forall j: nat :: Reached(mem, root, pages, j) ==> SentAt(mem, root, pages, j)
  {
    if Ascending(pages) {
      EmptyRangeIff(mem, root, pages);
      forall j: nat | Reached(mem, root, pages, j) ensures SentAt(mem, root, pages, j) {
        ClearedIsSent(mem, root, pages, j);
      }
    }
  }

  /** A missing table is one more than what is missing above it, and its place is free. */
  lemma MissingStep(mem: Memory, root: Frame, path: Labels, l: Level, p: Vpn)
    requires Tree(mem, root, path) && l != L4 && Traverse(mem, root, l, p).PageNotMapped?
    ensures var up := Traverse(mem, root, l.Inc(), p);
            && !up.ParentEntryHugePage?
            && Missing(up, l.Inc()) + 1 == Missing(Traverse(mem, root, l, p), l)
            && (up.Ok? ==> up.table in mem && EntryAt(mem, up.table, l.Inc().Index(p)) == UNUSED
                           && path[up.table] == PathTo(l.Inc(), p))
  {
    TraverseStep(mem, root, l, p);
    if Traverse(mem, root, l.Inc(), p).Ok? {
      TraverseLabel(mem, root, path, l.Inc(), p);
    }
  }

  /** How many tables a traversal to level l found missing. */
  function Missing(t: TraverseResult, l: Level): (n: nat)
    requires !t.Ok? ==> t.level.Rank() >= l.Rank()
  {
    if t.PageNotMapped? then t.level.Rank() - l.Rank() + 1 else 0
  }

  /** The tables stay, in their places, and those at least d steps below the root keep
      their entries. */
  ghost predicate TablesKept(mem: Memory, path: Labels, mem': Memory, path': Labels, d: nat) {
    forall f :: f in mem && f in path ==>
      f in mem' && f in path' && path'[f] == path[f] && (|path[f]| >= d ==> mem'[f] == mem[f])
  }

  /** What attaching a new table leaves, seen from before the table was made. */
  lemma FromBlank(mem: Memory, path: Labels, f: Frame, place: seq<nat>, mem': Memory, path': Labels, d: nat)
    requires f !in mem && f !in path
    requires TablesKept(mem[f := Blank()], path[f := place], mem', path', d)
    ensures TablesKept(mem, path, mem', path', d)
    ensures f in mem' && f in path' && path'[f] == place && (|place| >= d ==> mem'[f] == Blank())
  {
    assert mem[f := Blank()][f] == Blank() && path[f := place][f] == place;
  }

  class OffsetPageTable {
    const root: Frame
    var mem: Memory
    var free: seq<Frame>          // what the frame allocator will hand out
    const anyFrame: bool          // `PageTableEntry::frame` gives the address of large entries too
    ghost var path: Labels

    ghost predicate Valid()
      reads this
    {
      && Tree(mem, root, path)
      && (forall i :: 0 <= i < |free| ==> free[i] !in mem)
      && (forall i, j :: 0 <= i < j < |free| ==> free[i] != free[j])
    }

    /** The translation function of the tree. */
    ghost function Translation(q: Vpn): Option<Leaf>
      reads this
    {
      Walk(mem, root, q)
    }

    constructor (l4: Frame, supply: seq<Frame>, anyFrame: bool)
      requires forall i :: 0 <= i < |supply| ==> supply[i] != l4
      requires forall i, j :: 0 <= i < j < |supply| ==> supply[i] != supply[j]
      ensures Valid() && root == l4 && free == supply && this.anyFrame == anyFrame
      ensures forall q :: Translation(q) == None
    {
      root := l4;
      this.anyFrame := anyFrame;
      mem := map[l4 := Blank()];
      free := supply;
      path := map[l4 := []];
    }

    /** Takes a frame and fills it with unused entries; `place` is where it will go. */
    method NewTable(ghost place: seq<nat>) returns (r: Option<Frame>)
      requires Valid() && |place| <= 3
      modifies this`mem, this`free, this`path
      ensures Valid()
      ensures r.None? <==> old(free) == []
      ensures r.None? ==> mem == old(mem) && free == old(free) && path == old(path)
      ensures r.Some? ==>
                && r.value !in old(mem) && free == old(free)[1..]
                && mem == old(mem)[r.value := Blank()] && path == old(path)[r.value := place]
      ensures forall q :: Translation(q) == old(Translation(q))
      ensures forall l, q :: Traverse(mem, root, l, q) == old(Traverse(mem, root, l, q))
    {
      if free == [] {
        return None;
      }
      var f := free[0];
      AddBlank(mem, root, path, f, place);
      forall l, q ensures Traverse(mem[f := Blank()], root, l, q) == Traverse(mem, root, l, q) {
        AddBlankTraverse(mem, root, path, f, l, q);
      }
      forall q ensures Walk(mem[f := Blank()], root, q) == Walk(mem, root, q) {
        AddBlankWalk(mem, root, path, f, root, L4, q);
      }
      mem, free, path := mem[f := Blank()], free[1..], path[f := place];
      r := Some(f);
    }

    /** Links `table` at level l for page p, making the tables above it first.  The inner
        `expect`s are never reached with an error. */
    method Attach(table: Frame, l: Level, p: Vpn, attrs: nat) returns (r: AttachResult)
      requires Valid() && l != L4
      requires table in mem && mem[table] == Blank() && path[table] == PathTo(l, p)
      modifies this`mem, this`free, this`path
      ensures Valid()
      ensures TablesKept(old(mem), old(path), mem, path, 4 - l.Rank())
      ensures forall q :: Translation(q) == old(Translation(q))
      ensures var up := old(Traverse(mem, root, l.Inc(), p));
              && (r.ParentHuge? <==> up.ParentEntryHugePage?)
              && (r.AlreadyAttached? <==>
                    up.Ok? && EntryAt(old(mem), up.table, l.Inc().Index(p)) != UNUSED)
              && (r.NoFrame? <==> |old(free)| < Missing(up, l.Inc()))
              && (r.Attached? ==> free == old(free)[Missing(up, l.Inc())..])
      ensures r.Attached? ==> Traverse(mem, root, l, p) == Ok(table)
      ensures !r.Attached? && !r.NoFrame? ==> mem == old(mem) && free == old(free)
      ensures if r.NoFrame? then SameEntries(old(mem), mem) else Grew(old(mem), mem, path, PathTo(l, p), attrs)
      decreases 4 - l.Rank(), 0
    {
      var up := Traverse(mem, root, l.Inc(), p);
      if up.ParentEntryHugePage? {
        return ParentHuge;
      }
      var t := TableAt(l.Inc(), p, attrs);
      if t.None? {
        return NoFrame;
      }
      if mem[t.value][l.Inc().Index(p)] != UNUSED {
        return AlreadyAttached;
      }
      GrewLink(old(mem), mem, path, l, p, t.value, table, attrs);
      Link(table, l, p, t.value, attrs);
      r := Attached;
    }

    /** The level l table of page p, made if it is missing. */
    method TableAt(l: Level, p: Vpn, attrs: nat) returns (r: Option<Frame>)
      requires Valid() && !Traverse(mem, root, l, p).ParentEntryHugePage?
      modifies this`mem, this`free, this`path
      ensures Valid()
      ensures TablesKept(old(mem), old(path), mem, path, 4 - l.Rank())
      ensures var needed := Missing(old(Traverse(mem, root, l, p)), l);
              && (r.None? <==> |old(free)| < needed)
              && (r.Some? ==> free == old(free)[needed..])
      ensures forall q :: Translation(q) == old(Translation(q))
      ensures r.Some? ==>
                && r.value in mem && path[r.value] == PathTo(l, p) && Traverse(mem, root, l, p) == Ok(r.value)
                && EntryAt(mem, r.value, l.Index(p)) == EntryAt(old(mem), r.value, l.Index(p))
      ensures var t := old(Traverse(mem, root, l, p));
              if t.Ok? then mem == old(mem) && path == old(path) && r == Some(t.table)
              else r.Some? ==> r.value !in old(mem)
      ensures if r.None? then SameEntries(old(mem), mem) else Grew(old(mem), mem, path, PathTo(l, p), attrs)
      decreases 4 - l.Rank(), 2
    {
      var t := Traverse(mem, root, l, p);
      if t.PageNotMapped? {
        r := MakeTable(l, p, attrs);
      } else {
        TraverseLabel(mem, root, path, l, p);
        r := Some(t.table);
      }
    }

    /** Allocates and attaches the missing level l table of page p. */
    method MakeTable(l: Level, p: Vpn, attrs: nat) returns (r: Option<Frame>)
      requires Valid() && l != L4 && Traverse(mem, root, l, p).PageNotMapped?
      modifies this`mem, this`free, this`path
      ensures Valid()
      ensures TablesKept(old(mem), old(path), mem, path, 4 - l.Rank())
      ensures forall q :: Translation(q) == old(Translation(q))
      ensures var needed := Missing(old(Traverse(mem, root, l, p)), l);
              && (r.None? <==> |old(free)| < needed)
              && (r.Some? ==> free == old(free)[needed..])
      ensures r.Some? ==>
                && r.value !in old(mem) && r.value in mem && mem[r.value] == Blank()
                && path[r.value] == PathTo(l, p) && Traverse(mem, root, l, p) == Ok(r.value)
      ensures if r.None? then SameEntries(old(mem), mem) else Grew(old(mem), mem, path, PathTo(l, p), attrs)
      decreases 4 - l.Rank(), 1
    {
      r := NewTable(PathTo(l, p));
      if r.None? {
        return;
      }
      MissingStep(mem, root, path, l, p);
      var a := Attach(r.value, l, p, attrs);
      FromBlank(old(mem), old(path), r.value, PathTo(l, p), mem, path, 4 - l.Rank());
      if a.NoFrame? {
        SameBlank(old(mem), r.value, mem);
        return None;
      }
      assert a.Attached?;
      GrewBlank(old(mem), r.value, mem, path, PathTo(l, p), attrs);
    }

    /** Writes the entry that makes `table` the level l table of page p. */
    method Link(table: Frame, l: Level, p: Vpn, t: Frame, attrs: nat)
      requires Valid() && l != L4
      requires table in mem && mem[table] == Blank() && path[table] == PathTo(l, p)
      requires Traverse(mem, root, l.Inc(), p) == Ok(t) && t in mem && path[t] == PathTo(l.Inc(), p)
      requires EntryAt(mem, t, l.Inc().Index(p)) == UNUSED
      modifies this`mem
      ensures Valid() && mem == Write(old(mem), t, l.Inc().Index(p), Entry(table, true, false, attrs))
      ensures forall q :: Translation(q) == old(Translation(q))
      ensures Traverse(mem, root, l, p) == Ok(table)
    {
      LinkTree(mem, root, path, l, p, t, table, attrs);
      LinkTraverse(mem, root, path, l, p, t, table, attrs);
      forall q ensures Walk(Write(mem, t, l.Inc().Index(p), Entry(table, true, false, attrs)), root, q)
                       == Walk(mem, root, q)
      {
        LinkWalk(mem, root, path, l, p, t, table, attrs, q);
      }
      mem := Write(mem, t, l.Inc().Index(p), Entry(table, true, false, attrs));
    }

    /** `map_to` for a 4 KiB page.  Success changes the translation of p and of nothing
        else, every other outcome changes no translation, and the outcome is decided by
        the tree and by the frames left. */
    method MapTo(p: Vpn, e: Entry, parentAttrs: nat) returns (r: MapResult)
      requires Valid() && IsVpn(p)
      modifies this`mem, this`free, this`path
      ensures Valid()
      ensures var t := old(Traverse(mem, root, L1, p));
              var was := if t.Ok? then EntryAt(old(mem), t.table, L1.Index(p)) else UNUSED;
              && (r.MapParentHuge? <==> t.ParentEntryHugePage?)
              && (r.MapNoFrame? <==> |old(free)| < Missing(t, L1))
              && (r.FramePanic? <==> was != UNUSED && !GivesFrame(was, anyFrame))
              && (r.PageAlreadyMapped? <==> was != UNUSED && GivesFrame(was, anyFrame))
              && (r.PageAlreadyMapped? ==> r.frame == was.frame)
              && (r.Mapped? ==> free == old(free)[Missing(t, L1)..])
      ensures r.Mapped? ==>
                && Traverse(mem, root, L1, p).Ok?
                && EntryAt(mem, Traverse(mem, root, L1, p).table, L1.Index(p)) == e
      ensures r.Mapped? ==> forall q :: IsVpn(q) ==>
                Translation(q) == if q != p then old(Translation(q))
                                  else if e.present then Some(Leaf(e, L1)) else None
      ensures !r.Mapped? ==> SameEntries(old(mem), mem) && forall q :: Translation(q) == old(Translation(q))
      ensures r.Mapped? ==>
                Grew(old(mem), ClearedLeaf(mem, root, p), path, PathTo(L1, p), WithWritable(parentAttrs))
    {
      var t := Traverse(mem, root, L1, p);
      if t.ParentEntryHugePage? {
        return MapParentHuge;
      }
      var table := TableAt(L1, p, WithWritable(parentAttrs));
      if table.None? {
        return MapNoFrame;
      }
      var entry := mem[table.value][L1.Index(p)];
      if entry != UNUSED {
        return if GivesFrame(entry, anyFrame) then PageAlreadyMapped(entry.frame) else FramePanic;
      }
      ClearedWritten(mem, root, path, p, table.value, e);
      PutLeaf(p, table.value, e);
      r := Mapped;
    }

    /** Writes the level 1 entry of p. */
    method PutLeaf(p: Vpn, t: Frame, e: Entry)
      requires Valid() && IsVpn(p) && Traverse(mem, root, L1, p) == Ok(t)
      modifies this`mem
      ensures Valid() && t in old(mem) && |old(mem)[t]| == ENTRIES && mem == Write(old(mem), t, L1.Index(p), e)
      ensures forall q :: Traverse(mem, root, L1, q) == old(Traverse(mem, root, L1, q))
      ensures forall q :: IsVpn(q) ==>
                Translation(q) == if q != p then old(Translation(q))
                                  else if e.present then Some(Leaf(e, L1)) else None
    {
      TraverseLabel(mem, root, path, L1, p);
      forall q | IsVpn(q)
        ensures Walk(Write(mem, t, L1.Index(p), e), root, q) ==
                if q != p then Walk(mem, root, q) else if e.present then Some(Leaf(e, L1)) else None
      {
        WriteLeaf(mem, root, path, p, e, q);
      }
      forall q ensures Traverse(Write(mem, t, L1.Index(p), e), root, L1, q) == Traverse(mem, root, L1, q) {
        TraverseFrame(mem, root, path, t, L1.Index(p), e, L1, q);
      }
      WriteLeaf(mem, root, path, p, e, p);
      mem := Write(mem, t, L1.Index(p), e);
    }

    /** `unmap` for a 4 KiB page: gives back the frame that was mapped and removes that
        translation alone. */
    method Unmap(p: Vpn) returns (r: UnmapResult)
      requires Valid() && IsVpn(p)
      modifies this`mem
      ensures Valid() && mem == if r.Unmapped? then ClearedLeaf(old(mem), root, p) else old(mem)
      ensures var t := old(Traverse(mem, root, L1, p));
              var was := if t.Ok? then EntryAt(old(mem), t.table, L1.Index(p)) else UNUSED;
              && (r.UnmapParentHuge? <==> t.ParentEntryHugePage?)
              && (r.Unmapped? <==> was != UNUSED)
              && (r.Unmapped? ==> r.frame == was.frame)
      ensures r.Unmapped? ==> forall q :: IsVpn(q) ==>
                Translation(q) == if q == p then None else old(Translation(q))
    {
      var t := Traverse(mem, root, L1, p);
      match t {
        case ParentEntryHugePage(_) =>
          return UnmapParentHuge;
        case PageNotMapped(_) =>
          return NotMapped;
        case Ok(f) =>
          TraverseLabel(mem, root, path, L1, p);
          var entry := mem[f][L1.Index(p)];
          if entry == UNUSED {
            return NotMapped;
          }
          PutLeaf(p, f, UNUSED);
          r := Unmapped(entry.frame);
      }
    }

    /** `entry.set_flags(empty)` on the entry of p, if p has a level 1 table. */
    method ClearFlags(p: Vpn) returns (ok: bool)
      requires Valid() && IsVpn(p)
      modifies this`mem
      ensures Valid() && mem == ClearOne(old(mem), root, p)
      ensures ok <==> HasTable(old(mem), root, p)
      ensures !ok ==> mem == old(mem)
      ensures ok ==> forall q :: IsVpn(q) ==> ClearedAt(old(mem), mem, root, [p], q)
    {
      var t := Traverse(mem, root, L1, p);
      ok := t.Ok?;
      if ok {
        TraverseLabel(mem, root, path, L1, p);
        ClearOneTree(mem, root, path, p);
        forall q | IsVpn(q) ensures ClearedAt(mem, ClearOne(mem, root, p), root, [p], q) {
          ClearOneFacts(mem, root, path, p, q);
        }
        var i := L1.Index(p);
        mem := Write(mem, t.table, i, Entry(mem[t.table][i].frame, false, false, 0));
      }
    }

    /** The loop of `unmap_range`: clears the flags of each page until one has no level 1
        table.  Exactly the pages before that one lose their translation and keep their
        frame, and all pages are unmapped afterwards exactly when each of them had no
        translation or is reached. */
    method ClearRange(pages: seq<Vpn>) returns (k: nat)
      requires Valid() && AllVpns(pages)
      modifies this`mem
      ensures Valid() && mem == Cleared(old(mem), root, pages) && k == Leading(old(mem), root, pages)
      ensures forall q :: IsVpn(q) ==> ClearedAt(old(mem), mem, root, pages[..k], q)
      ensures (forall q :: q in pages ==> Translation(q) == None) <==>
              (forall j :: 0 <= j < |pages| ==> Settles(old(mem), root, pages, j))
    {
      k := 0;
      while k < |pages|
        invariant k <= |pages| && Valid()
        invariant Cleared(mem, root, pages[k..]) == Cleared(old(mem), root, pages)
        invariant k + Leading(mem, root, pages[k..]) == Leading(old(mem), root, pages)
      {
        ghost var was, rest := mem, pages[k + 1..];
        assert pages[k..][0] == pages[k] && pages[k..][1..] == rest;
        var ok := ClearFlags(pages[k]);
        if !ok {
          break;
        }
        SameLeading(was, root, path, pages[k], rest);
        k := k + 1;
      }
      ghost var before := old(mem);
      RangeUnmapped(before, root, path, pages);
      forall q | IsVpn(q) ensures ClearedAt(before, Cleared(before, root, pages), root, pages[..k], q) {
        ClearedFacts(before, root, path, pages, q);
      }
    }

    /** `unmap_range` up to its shootdown.  The range that is sent is empty, and the kernel
        panics, exactly when its last page lies below its first; for pages in ascending order
        exactly when the first has no level 1 table and is not page 0.  Otherwise every page
        that was cleared is in the range. */
    method UnmapRange(pages: seq<Vpn>) returns (r: RangeResult)
      requires Valid() && AllVpns(pages)
      modifies this`mem
      ensures Valid() && mem == Cleared(old(mem), root, pages)
      ensures r.EmptyRangePanic? <==> SentStart(pages) > SentEnd(old(mem), root, pages)
      ensures Ascending(pages) ==>
                (r.EmptyRangePanic? <==> pages != [] && pages[0] != 0 && !HasTable(old(mem), root, pages[0]))
      ensures r.Sent? ==> r.start == SentStart(pages) && r.end == SentEnd(old(mem), root, pages)
      ensures Ascending(pages) && r.Sent? ==>
                forall j: nat :: Reached(old(mem), root, pages, j) ==> r.start <= pages[j] <= r.end
    {
      var k := ClearRange(pages);
      var start := if pages == [] then 0 else pages[0];
      var end := if k == 0 then 0 else pages[k - 1];
      SentFacts(old(mem), root, pages);
      r := if start > end then EmptyRangePanic else Sent(start, end);
    }

    /** Mapping a page that `unmap_range` cleared panics exactly when its entry had a frame. */
    method ClearThenMap(pages: seq<Vpn>, p: Vpn, e: Entry, parentAttrs: nat) returns (r: MapResult)
      requires Valid() && AllVpns(pages) && p in pages[..Leading(mem, root, pages)]
      modifies this`mem, this`free, this`path
      ensures Valid()
      ensures r.FramePanic? <==> L1Entry(old(mem), root, p).frame != 0
      ensures r.Mapped? <==> L1Entry(old(mem), root, p).frame == 0
    {
      ghost var was := mem;
      var k := ClearRange(pages);
      assert IsVpn(p) by {
        var i :| 0 <= i < k && pages[i] == p;
      }
      assert ClearedAt(was, mem, root, pages[..k], p);
      ReachedHasTable(was, root, path, pages, p);
      r := MapTo(p, e, parentAttrs);
    }

    /** Unmapping what was just mapped restores the whole translation function, even when
        tables were attached on the way. */
    method MapThenUnmap(p: Vpn, e: Entry, parentAttrs: nat) returns (m: MapResult, u: UnmapResult)
      requires Valid() && IsVpn(p) && e.present
      modifies this`mem, this`free, this`path
      ensures Valid()
      ensures m.Mapped? ==> u == Unmapped(e.frame)
      ensures m.Mapped? ==> forall q :: IsVpn(q) ==> Translation(q) == old(Translation(q))
      ensures if m.Mapped? then Grew(old(mem), mem, path, PathTo(L1, p), WithWritable(parentAttrs))
              else SameEntries(old(mem), mem)
    {
      ghost var t0 := Traverse(mem, root, L1, p);
      assert t0.PageNotMapped? ==> Translation(p) == None by { WalkTraverse(mem, root, path, L1, p); }
      assert t0.Ok? && EntryAt(mem, t0.table, L1.Index(p)) == UNUSED ==> Translation(p) == None by {
        WalkTraverse(mem, root, path, L1, p);
      }
      m := MapTo(p, e, parentAttrs);
      u := NotMapped;
      if m.Mapped? {
        u := Unmap(p);
      }
    }
  }
}
