/**
 Small trees of page tables on which `translate` and `unmap_range` do not keep what they
 promise.
 */
module PageSamples {
  import opened Options
  import opened PageWalk
  import opened PageRanges
  import opened AddressTranslation

  /** Tables for the first gigabyte: the level 2 entry of the second 2 MiB is `e2`, and frame 3
      is a level 1 table whose first entry is `e1`. */
  function Sample(e2: Entry, e1: Entry): Memory {
    map[0 := Blank()[0 := Entry(1, true, false, 0)],
        1 := Blank()[0 := Entry(2, true, false, 0)],
        2 := Blank()[1 := e2],
        3 := Blank()[0 := e1]]
  }

  function SamplePath(): Labels {
    map[0 := [], 1 := [0], 2 := [0, 0], 3 := [0, 0, 1]]
  }

  const TO_TABLE: Entry := Entry(3, true, false, 0)

  lemma SampleIsTree(e2: Entry, e1: Entry)
    requires e2.present && (e2.huge || e2.frame == 3)
    ensures Tree(Sample(e2, e1), 0, SamplePath())
  {
    var mem, path := Sample(e2, e1), SamplePath();
    forall f, i | f in mem && 0 <= i < ENTRIES && |path[f]| < 3
      ensures GoodEntry(mem, path, path[f], i, EntryAt(mem, f, i))
    {
      assert f == 0 ==> path[1] == path[f] + [0];
      assert f == 1 ==> path[2] == path[f] + [0];
      assert f == 2 ==> path[3] == path[f] + [1];
    }
  }

  lemma SampleEntries(e2: Entry, e1: Entry)
    ensures var mem := Sample(e2, e1);
            && EntryAt(mem, 0, 0) == Entry(1, true, false, 0) && EntryAt(mem, 1, 0) == Entry(2, true, false, 0)
            && EntryAt(mem, 2, 0) == UNUSED && EntryAt(mem, 2, 1) == e2 && EntryAt(mem, 3, 0) == e1
  {
  }

  /** A 2 MiB page with its PAT bit set: the processor ignores the bit, `translate` adds it. */
  lemma PatBitAdded()
    ensures var mem := Sample(Entry(513, true, true, 0), UNUSED);
            var va := 512 * 4096;
            && Tree(mem, 0, SamplePath())
            && Walk(mem, 0, va / 4096) == Some(Leaf(Entry(513, true, true, 0), L2))
            && HardwareAddress(Leaf(Entry(513, true, true, 0), L2), va) == 512 * 4096
            && Translate(mem, 0, va, true) == Phys(513 * 4096)
            && Translate(mem, 0, va, false) == Panics
  {
    var e2 := Entry(513, true, true, 0);
    SampleIsTree(e2, UNUSED);
    SampleEntries(e2, UNUSED);
    LadderFindsLeaf(Sample(e2, UNUSED), 0, SamplePath(), 512 * 4096, true);
    LadderFindsLeaf(Sample(e2, UNUSED), 0, SamplePath(), 512 * 4096, false);
  }

  /** A mapped page that `unmap_range` cleared: `translate` panics on it. */
  lemma ClearedPagePanics(any: bool)
    ensures var mem := Sample(TO_TABLE, Entry(7, true, false, 0));
            && Tree(mem, 0, SamplePath()) && Walk(mem, 0, 512) == Some(Leaf(Entry(7, true, false, 0), L1))
            && Translate(Cleared(mem, 0, [512]), 0, 512 * 4096, any) == Panics
  {
    var e1 := Entry(7, true, false, 0);
    var mem := Sample(TO_TABLE, e1);
    SampleIsTree(TO_TABLE, e1);
    SampleEntries(TO_TABLE, e1);
    assert HasTable(mem, 0, 512) && L1Entry(mem, 0, 512) == e1;
    assert [512][..1] == [512] && Leading(mem, 0, [512]) == 1;
    ClearedPanics(mem, 0, SamplePath(), [512], 512 * 4096, any);
  }

  /** Of the range of pages 0 to 512 the first has no level 1 table: the loop stops there, no
      panic follows, and page 512 stays mapped. */
  lemma RangeStopsEarly(pages: seq<Vpn>)
    requires |pages| == 513 && forall i :: 0 <= i < 513 ==> pages[i] == i
    ensures var mem := Sample(TO_TABLE, Entry(7, true, false, 0));
            && Tree(mem, 0, SamplePath()) && SentStart(pages) <= SentEnd(mem, 0, pages)
            && 512 in pages && Walk(Cleared(mem, 0, pages), 0, 512).Some?
  {
    var e1 := Entry(7, true, false, 0);
    SampleIsTree(TO_TABLE, e1);
    SampleEntries(TO_TABLE, e1);
    assert !HasTable(Sample(TO_TABLE, e1), 0, pages[0]);
    assert pages[512] == 512;
  }

  /** Of the range of pages 511 and 512 the first has no level 1 table, so the range that is
      sent is empty and the kernel panics. */
  lemma RangePanics()
    ensures var mem := Sample(TO_TABLE, Entry(7, true, false, 0));
            Tree(mem, 0, SamplePath()) && SentStart([511, 512]) > SentEnd(mem, 0, [511, 512])
  {
    var e1 := Entry(7, true, false, 0);
    SampleIsTree(TO_TABLE, e1);
    SampleEntries(TO_TABLE, e1);
    assert !HasTable(Sample(TO_TABLE, e1), 0, 511);
  }

  /** Of the pages 512, 520, 513 all are cleared, but the range that is sent ends at 513. */
  lemma PageNotSent()
    ensures var mem, pages := Sample(TO_TABLE, Entry(7, true, false, 0)), [512, 520, 513];
            && Tree(mem, 0, SamplePath()) && SentStart(pages) <= SentEnd(mem, 0, pages)
            && Reached(mem, 0, pages, 1) && !SentAt(mem, 0, pages, 1)
  {
    var e1 := Entry(7, true, false, 0);
    var mem, pages := Sample(TO_TABLE, e1), [512, 520, 513];
    SampleIsTree(TO_TABLE, e1);
    SampleEntries(TO_TABLE, e1);
    assert HasTable(mem, 0, 512) && HasTable(mem, 0, 520) && HasTable(mem, 0, 513);
    assert Reached(mem, 0, pages, 1) && Reached(mem, 0, pages, 2);
    LeadingReached(mem, 0, pages, 2);
  }
}
