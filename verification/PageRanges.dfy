/**
 What the loop of `unmap_range` does to a tree of page tables: it clears the flags of one
 page after the other and stops at the first that has no level 1 table.
 */
module PageRanges {
  import opened Options
  import opened PageWalk

  predicate HasTable(mem: Memory, root: Frame, p: Vpn) {
    Traverse(mem, root, L1, p).Ok?
  }

  /** The level 1 entry of a page that has one. */
  function L1Entry(mem: Memory, root: Frame, p: Vpn): Entry {
    var t := Traverse(mem, root, L1, p);
    if t.Ok? then EntryAt(mem, t.table, L1.Index(p)) else UNUSED
  }

  /** An entry without flags: the frame stays, and with frame 0 it is an unused entry. */
  function Bare(e: Entry): Entry {
    Entry(e.frame, false, false, 0)
  }

  function ClearOne(mem: Memory, root: Frame, p: Vpn): Memory {
    var t := Traverse(mem, root, L1, p);
    if t.Ok? && t.table in mem && |mem[t.table]| == ENTRIES
    then Write(mem, t.table, L1.Index(p), Bare(L1Entry(mem, root, p)))
    else mem
  }

  function Cleared(mem: Memory, root: Frame, pages: seq<Vpn>): Memory
    decreases |pages|
  {
    if pages == [] || !HasTable(mem, root, pages[0]) then mem
    else Cleared(ClearOne(mem, root, pages[0]), root, pages[1..])
  }

  /** How many pages at the front have a level 1 table. */
  function Leading(mem: Memory, root: Frame, pages: seq<Vpn>): (k: nat)
    ensures k <= |pages|
  {
    if pages == [] || !HasTable(mem, root, pages[0]) then 0
    else 1 + Leading(mem, root, pages[1..])
  }

  /** The loop gets to the page at j: it and all pages before it have a table. */
  ghost predicate Reached(mem: Memory, root: Frame, pages: seq<Vpn>, j: nat) {
    j < |pages| && forall i :: 0 <= i <= j ==> HasTable(mem, root, pages[i])
  }

  ghost predicate AllVpns(pages: seq<Vpn>) {
    forall i :: 0 <= i < |pages| ==> IsVpn(pages[i])
  }

  // ---------------------------------------------------------------- one page

  /** The entry of another page is another entry. */
  lemma OtherEntry(mem: Memory, root: Frame, path: Labels, p: Vpn, e: Entry, q: Vpn)
    requires Tree(mem, root, path) && IsVpn(p) && IsVpn(q) && p != q && HasTable(mem, root, p)
    ensures var f := Traverse(mem, root, L1, p).table;
            && f in mem && |mem[f]| == ENTRIES
            && L1Entry(Write(mem, f, L1.Index(p), e), root, q) == L1Entry(mem, root, q)
  {
    var f := Traverse(mem, root, L1, p).table;
    TraverseLabel(mem, root, path, L1, p);
    TraverseFrame(mem, root, path, f, L1.Index(p), e, L1, q);
    if HasTable(mem, root, q) && Traverse(mem, root, L1, q).table == f && L1.Index(q) == L1.Index(p) {
      TraverseLabel(mem, root, path, L1, q);
      PathDeterminesPage(p, q);
    }
  }

  lemma SameTraverse(mem: Memory, root: Frame, path: Labels, p: Vpn, q: Vpn)
    requires Tree(mem, root, path) && IsVpn(p)
    ensures Traverse(ClearOne(mem, root, p), root, L1, q) == Traverse(mem, root, L1, q)
  {
    if HasTable(mem, root, p) {
      TraverseLabel(mem, root, path, L1, p);
      var f := Traverse(mem, root, L1, p).table;
      TraverseFrame(mem, root, path, f, L1.Index(p), Bare(L1Entry(mem, root, p)), L1, q);
    }
  }

  lemma ClearOneTree(mem: Memory, root: Frame, path: Labels, p: Vpn)
    requires Tree(mem, root, path) && IsVpn(p)
    ensures Tree(ClearOne(mem, root, p), root, path)
  {
    if HasTable(mem, root, p) {
      WriteLeaf(mem, root, path, p, Bare(L1Entry(mem, root, p)), p);
    }
  }

  /** Clearing the flags of one page: its translation goes, its frame stays, and nothing
      else changes. */
  lemma ClearOneFacts(mem: Memory, root: Frame, path: Labels, p: Vpn, q: Vpn)
    requires Tree(mem, root, path) && IsVpn(p) && IsVpn(q) && HasTable(mem, root, p)
    ensures var after := ClearOne(mem, root, p);
            && Walk(after, root, q) == (if q == p then None else Walk(mem, root, q))
            && L1Entry(after, root, q) == (if q == p then Bare(L1Entry(mem, root, q)) else L1Entry(mem, root, q))
  {
    var e := Bare(L1Entry(mem, root, p));
    WriteLeaf(mem, root, path, p, e, q);
    if q != p {
      OtherEntry(mem, root, path, p, e, q);
    }
  }

  // ---------------------------------------------------------------- the range

  lemma {:induction false} LeadingSame(mem: Memory, mem': Memory, root: Frame, pages: seq<Vpn>)
    requires forall q :: Traverse(mem', root, L1, q) == Traverse(mem, root, L1, q)
    ensures Leading(mem', root, pages) == Leading(mem, root, pages)
  {
    if pages != [] {
      LeadingSame(mem, mem', root, pages[1..]);
    }
  }

  lemma {:induction false} LeadingReached(mem: Memory, root: Frame, pages: seq<Vpn>, j: nat)
    ensures j < Leading(mem, root, pages) <==> Reached(mem, root, pages, j)
  {
    if pages != [] && HasTable(mem, root, pages[0]) && j > 0 {
      LeadingReached(mem, root, pages[1..], j - 1);
      assert forall i :: 0 <= i < |pages[1..]| ==> pages[1..][i] == pages[i + 1];
      if Reached(mem, root, pages[1..], j - 1) {
        forall i | 0 <= i <= j ensures HasTable(mem, root, pages[i]) {
          assert i > 0 ==> pages[1..][i - 1] == pages[i];
        }
      }
    }
  }

  /** What the loop did. */
  ghost predicate ClearedAt(mem: Memory, after: Memory, root: Frame, done: seq<Vpn>, q: Vpn) {
    && Walk(after, root, q) == (if q in done then None else Walk(mem, root, q))
    && L1Entry(after, root, q) == (if q in done then Bare(L1Entry(mem, root, q)) else L1Entry(mem, root, q))
  }

  lemma {:induction false} ClearedTree(mem: Memory, root: Frame, path: Labels, pages: seq<Vpn>)
    requires Tree(mem, root, path) && AllVpns(pages)
    ensures Tree(Cleared(mem, root, pages), root, path)
    ensures forall q :: Traverse(Cleared(mem, root, pages), root, L1, q) == Traverse(mem, root, L1, q)
    decreases |pages|
  {
    if pages != [] && HasTable(mem, root, pages[0]) {
      var mid := ClearOne(mem, root, pages[0]);
      ClearOneTree(mem, root, path, pages[0]);
      ClearedTree(mid, root, path, pages[1..]);
      forall q ensures Traverse(mid, root, L1, q) == Traverse(mem, root, L1, q) {
        SameTraverse(mem, root, path, pages[0], q);
      }
    }
  }

  /** The pages before the first without a table lose their translation and keep their
      frame; no other page changes. */
  lemma {:induction false} ClearedFacts(mem: Memory, root: Frame, path: Labels, pages: seq<Vpn>, q: Vpn)
    requires Tree(mem, root, path) && AllVpns(pages) && IsVpn(q)
    ensures ClearedAt(mem, Cleared(mem, root, pages), root, pages[..Leading(mem, root, pages)], q)
    decreases |pages|
  {
    if pages != [] && HasTable(mem, root, pages[0]) {
      var mid, rest := ClearOne(mem, root, pages[0]), pages[1..];
      ClearOneTree(mem, root, path, pages[0]);
      ClearOneFacts(mem, root, path, pages[0], q);
      forall x ensures Traverse(mid, root, L1, x) == Traverse(mem, root, L1, x) {
        SameTraverse(mem, root, path, pages[0], x);
      }
      LeadingSame(mem, mid, root, rest);
      ClearedFacts(mid, root, path, rest, q);
      FirstDone(pages, Leading(mem, root, pages), q);
    }
  }

  lemma FirstDone(pages: seq<Vpn>, k: nat, q: Vpn)
    requires 0 < k <= |pages|
    ensures q in pages[..k] <==> q == pages[0] || q in pages[1..][..k - 1]
  {
    assert pages[..k] == [pages[0]] + pages[1..][..k - 1];
  }

  // ---------------------------------------------------------------- is the whole range unmapped?

  /** The page at j had no translation, or the loop clears that page. */
  ghost predicate Settles(mem: Memory, root: Frame, pages: seq<Vpn>, j: nat)
    requires j < |pages|
  {
    Walk(mem, root, pages[j]) == None || exists m: nat :: Reached(mem, root, pages, m) && pages[m] == pages[j]
  }

  lemma InDone(mem: Memory, root: Frame, pages: seq<Vpn>, q: Vpn)
    ensures q in pages[..Leading(mem, root, pages)] <==>
            exists m: nat :: Reached(mem, root, pages, m) && pages[m] == q
  {
    var k := Leading(mem, root, pages);
    if q in pages[..k] {
      var m :| 0 <= m < k && pages[m] == q;
      LeadingReached(mem, root, pages, m);
    }
    if m: nat :| Reached(mem, root, pages, m) && pages[m] == q {
      LeadingReached(mem, root, pages, m);
      assert pages[..k][m] == q;
    }
  }

  lemma SettlesIff(mem: Memory, root: Frame, path: Labels, pages: seq<Vpn>, j: nat)
    requires Tree(mem, root, path) && AllVpns(pages) && j < |pages|
    ensures Settles(mem, root, pages, j) <==> Walk(Cleared(mem, root, pages), root, pages[j]) == None
  {
    ClearedFacts(mem, root, path, pages, pages[j]);
    InDone(mem, root, pages, pages[j]);
  }

  /** Every page is unmapped afterwards exactly when each one had no translation before or is
      reached by the loop. */
  lemma RangeUnmapped(mem: Memory, root: Frame, path: Labels, pages: seq<Vpn>)
    requires Tree(mem, root, path) && AllVpns(pages)
    ensures (forall q :: q in pages ==> Walk(Cleared(mem, root, pages), root, q) == None) <==>
            (forall j :: 0 <= j < |pages| ==> Settles(mem, root, pages, j))
  {
    var after := Cleared(mem, root, pages);
    if forall q :: q in pages ==> Walk(after, root, q) == None {
      forall j | 0 <= j < |pages| ensures Settles(mem, root, pages, j) {
        assert pages[j] in pages;
        SettlesIff(mem, root, path, pages, j);
      }
    }
    if forall j :: 0 <= j < |pages| ==> Settles(mem, root, pages, j) {
      forall q | q in pages ensures Walk(after, root, q) == None {
        var j :| 0 <= j < |pages| && pages[j] == q;
        SettlesIff(mem, root, path, pages, j);
      }
    }
  }

  /** For pages that are all different: exactly when no page was mapped at or behind one
      without a level 1 table. */
  lemma DistinctRangeUnmapped(mem: Memory, root: Frame, path: Labels, pages: seq<Vpn>)
    requires Tree(mem, root, path) && AllVpns(pages)
    requires forall i, j :: 0 <= i < j < |pages| ==> pages[i] != pages[j]
    ensures (forall q :: q in pages ==> Walk(Cleared(mem, root, pages), root, q) == None) <==>
            (forall i, j :: 0 <= i <= j < |pages| && !HasTable(mem, root, pages[i]) ==>
                              Walk(mem, root, pages[j]) == None)
  {
    RangeUnmapped(mem, root, path, pages);
    forall j | 0 <= j < |pages|
      ensures Settles(mem, root, pages, j) <==>
              Walk(mem, root, pages[j]) == None || forall i :: 0 <= i <= j ==> HasTable(mem, root, pages[i])
    {
      if forall i :: 0 <= i <= j ==> HasTable(mem, root, pages[i]) {
        assert Reached(mem, root, pages, j);
      }
    }
  }

  // ---------------------------------------------------------------- what is flushed

  predicate Ascending(pages: seq<Vpn>) {
    forall i, j :: 0 <= i < j < |pages| ==> pages[i] <= pages[j]
  }

  /** The first page of the range that is sent: the first one asked for, else page 0. */
  function SentStart(pages: seq<Vpn>): Vpn {
    if pages == [] then 0 else pages[0]
  }

  /** The last page of the range that is sent: the last one reached, else page 0. */
  function SentEnd(mem: Memory, root: Frame, pages: seq<Vpn>): Vpn {
    var k := Leading(mem, root, pages);
    if k == 0 then 0 else pages[k - 1]
  }

  /** The range is empty, which the shootdown does not accept, exactly when the first page
      has no level 1 table and is not page 0. */
  lemma EmptyRangeIff(mem: Memory, root: Frame, pages: seq<Vpn>)
    requires Ascending(pages)
    ensures SentStart(pages) > SentEnd(mem, root, pages) <==>
            pages != [] && pages[0] != 0 && !HasTable(mem, root, pages[0])
  {
    var k := Leading(mem, root, pages);
    assert k > 1 ==> pages[0] <= pages[k - 1];
  }

  /** The page at j is in the range that is sent. */
  ghost predicate SentAt(mem: Memory, root: Frame, pages: seq<Vpn>, j: nat)
    requires j < |pages|
  {
    SentStart(pages) <= pages[j] <= SentEnd(mem, root, pages)
  }

  /** Every page that was cleared is in the range that is sent exactly when, of the pages that
      are reached, none lies below the first or above the last. */
  lemma ClearedIsSentIff(mem: Memory, root: Frame, pages: seq<Vpn>)
    ensures (forall j: nat :: Reached(mem, root, pages, j) ==> SentAt(mem, root, pages, j)) <==>
            (forall i: nat, j: nat :: Reached(mem, root, pages, j) && !Reached(mem, root, pages, j + 1) && i <= j ==>
                                        pages[0] <= pages[i] <= pages[j])
  {
    var k := Leading(mem, root, pages);
    forall j: nat ensures Reached(mem, root, pages, j) <==> j < k {
      LeadingReached(mem, root, pages, j);
    }
    if forall j: nat :: Reached(mem, root, pages, j) ==> SentAt(mem, root, pages, j) {
      forall i: nat, j: nat | Reached(mem, root, pages, j) && !Reached(mem, root, pages, j + 1) && i <= j
        ensures pages[0] <= pages[i] <= pages[j]
      {
        assert Reached(mem, root, pages, i) && SentAt(mem, root, pages, i);
      }
    } else if k > 0 {
      assert Reached(mem, root, pages, k - 1) && !Reached(mem, root, pages, k - 1 + 1);
    }
  }

  /** So it is for pages in ascending order. */
  lemma ClearedIsSent(mem: Memory, root: Frame, pages: seq<Vpn>, j: nat)
    requires Ascending(pages) && Reached(mem, root, pages, j)
    ensures SentAt(mem, root, pages, j)
  {
    LeadingReached(mem, root, pages, j);
    assert j > 0 ==> pages[0] <= pages[j];
    assert j + 1 < Leading(mem, root, pages) ==> pages[j] <= pages[Leading(mem, root, pages) - 1];
  }
}
