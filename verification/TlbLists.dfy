/**
 What the work lists of the CPUs alone guarantee: which lists make sure that no old
 translation is in use when `unmap_range`, or the short path of `set_flags`, returns.
 */
module TlbLists {
  import opened Options
  import opened TlbMachine
  import opened TlbHandshake
  import opened TlbCoherence
  import opened TlbTheorems

  // ---------------------------------------------------------------- where operations come from

  /** Every operation of s stood on the work list that its CPU had in s0. */
  ghost predicate FromLists(s0: State, s: State) {
    && Wf(s0) && Wf(s) && |s.th| == |s0.th|
    && (forall j :: 0 <= j < |s.th| && s.th[j].Run? ==> s.th[j].op in s0.todo[j])
    && (forall j, op :: 0 <= j < |s.th| && op in s.todo[j] ==> op in s0.todo[j])
  }

  lemma SameOp(t: Thread, pt: map<Page, Pte>)
    requires t.Run?
    ensures ThreadAfter(t, pt).Run? ==> ThreadAfter(t, pt).op == t.op
  {
  }

  lemma KeepLists(s0: State, s: State, l: Label)
    requires FromLists(s0, s) && Enabled(s, l)
    ensures FromLists(s0, Apply(s, l))
  {
    if l.Step? && s.th[l.c].Run? {
      SameOp(s.th[l.c], s.pt);
    }
  }

  lemma {:induction false} RunLists(s0: State, s: State, ls: seq<Label>)
    requires FromLists(s0, s) && Runs(s, ls)
    ensures FromLists(s0, After(s, ls))
    decreases |ls|
  {
    if ls != [] {
      KeepLists(s0, s, ls[0]);
      RunLists(s0, Apply(s, ls[0]), ls[1..]);
    }
  }

  lemma LeadsLists(s0: State, s: State)
    requires Init(s0) && Leads(s0, s)
    ensures FromLists(s0, s)
  {
    var ls :| Runs(s0, ls) && After(s0, ls) == s;
    RunLists(s0, s0, ls);
  }

  // ---------------------------------------------------------------- lists without a race

  /** Another CPU than i is to run an `unmap_range` over p. */
  ghost predicate RangeElsewhere(todo: seq<seq<Op>>, i: Cpu, p: Page) {
    exists j, op :: 0 <= j < |todo| && j != i && op in todo[j] && op.UnmapRange? && p in PagesOf(op)
  }

  lemma ClearedPages(t: Thread, p: Page)
    requires t.Run? && p in Cleared(t)
    ensures p in PagesOf(t.op)
  {
  }

  /** If no other CPU is to run an `unmap_range` over the page, then no CPU disagrees with
      the table on it when `unmap_range` returns. */
  lemma RangeAlone(s0: State, s: State, i: Cpu, c: Cpu, p: Page)
    requires Init(s0) && Leads(s0, s) && !s.crashed && i < |s.th| && c < |s.th|
    requires s.th[i].Run? && s.th[i].op.UnmapRange? && s.th[i].pc.Return? && p in PagesOf(s.th[i].op)
    requires !RangeElsewhere(s0.todo, i, p)
    ensures !Stale(s, c, p)
  {
    if Stale(s, c, p) {
      UnmapRangeCoherent(s, i, c, p);
      var j :| 0 <= j < |s.th| && j != i && s.th[j].Run? && s.th[j].op.UnmapRange? && Covers(s, j, c, p);
      LeadsLists(s0, s);
      ClearedPages(s.th[j], p);
    }
  }

  /** The same for the short path of `set_flags`. */
  lemma QuickAlone(s0: State, s: State, i: Cpu, c: Cpu)
    requires Init(s0) && Leads(s0, s) && !s.crashed && i < |s.th| && c < |s.th|
    requires s.th[i].Run? && s.th[i].op.SetFlags? && s.th[i].pc.Quick?
    requires !RangeElsewhere(s0.todo, i, s.th[i].op.page)
    ensures !Stale(s, c, s.th[i].op.page)
  {
    var p := s.th[i].op.page;
    if Stale(s, c, p) {
      QuickPathCoherent(s, i, c);
      var j :| 0 <= j < |s.th| && j != i && s.th[j].Run? && s.th[j].op.UnmapRange? && Covers(s, j, c, p);
      LeadsLists(s0, s);
      ClearedPages(s.th[j], p);
    }
  }

  // ---------------------------------------------------------------- pages that stay unmapped

  /** The operation makes p present, if it finds it otherwise. */
  predicate Presents(op: Op, p: Page) {
    (op.SetFlags? && op.page == p && op.present) || (op.MapPage? && op.page == p && op.pte.present)
  }

  /** Some CPU is to run an operation that makes p present. */
  ghost predicate Presenter(todo: seq<seq<Op>>, p: Page) {
    exists j, op :: 0 <= j < |todo| && op in todo[j] && Presents(op, p)
  }

  lemma MakesPresent(pt: map<Page, Pte>, t: Thread, p: Page)
    requires t.Run? && !Present(pt, p) && Present(TableAfter(pt, t), p)
    ensures Presents(t.op, p)
  {
  }

  /** Without such an operation a page that is not present stays so. */
  lemma StaysAbsent(s0: State, s: State, l: Label, p: Page)
    requires FromLists(s0, s) && Enabled(s, l) && !Presenter(s0.todo, p) && !Present(s.pt, p)
    ensures !Present(Apply(s, l).pt, p)
  {
    if l.Step? && s.th[l.c].Run? && Present(Apply(s, l).pt, p) {
      MakesPresent(s.pt, s.th[l.c], p);
    }
  }

  /** If the `unmap_range` of CPU i has cleared p, then p is not present, and cached only where
      that operation still owes the flush. */
  ghost predicate RangeHides(s: State, i: Cpu, p: Page)
    requires Wf(s) && i < |s.th|
  {
    s.th[i].Run? && s.th[i].op.UnmapRange? && p in Cleared(s.th[i]) ==>
      && !Present(s.pt, p)
      && forall c :: 0 <= c < |s.th| && p in s.tlb[c] ==> Covers(s, i, c, p)
  }

  /** Only the edit loop adds to what is cleared. */
  lemma ClearedByEdit(t: Thread, pt: map<Page, Pte>, p: Page)
    requires t.Run? && t.op.UnmapRange? && Shape(t) && !t.pc.Edit? && !t.pc.WantMap?
    requires ThreadAfter(t, pt).Run? && p in Cleared(ThreadAfter(t, pt))
    ensures p in Cleared(t)
  {
  }

  /** An access that clears p stands before the flush of p. */
  lemma NewlyCleared(t: Thread, pt: map<Page, Pte>, p: Page)
    requires t.Run? && t.op.UnmapRange? && Shape(t) && p !in Cleared(t)
    requires ThreadAfter(t, pt).Run? && p in Cleared(ThreadAfter(t, pt))
    ensures Unsent(ThreadAfter(t, pt)) && !Present(TableAfter(pt, t), p)
  {
    if t.pc.Edit? {
      var pages, k := PagesOf(t.op), t.pc.k;
      assert k < |pages| ==> pages[..k + 1] == pages[..k] + [pages[k]];
      assert pages[..|pages|] == pages;
    } else if !t.pc.WantMap? {
      ClearedByEdit(t, pt, p);
    }
  }

  lemma KeepOldCover(s: State, b: Option<Cpu>, l: Label, i: Cpu, c: Cpu, p: Page)
    requires Handshake(s, b) && Enabled(s, l) && !Apply(s, l).crashed && i < |s.th| && c < |s.th|
    requires RangeHides(s, i, p) && s.th[i].Run? && s.th[i].op.UnmapRange? && p in Cleared(s.th[i])
    requires p in Apply(s, l).tlb[c]
    ensures Covers(Apply(s, l), i, c, p)
  {
    TlbOnlyGains(s, l, c, p);
    CoverKept(s, b, l, i, c, p);
  }

  lemma KeepRangeHides(s0: State, s: State, l: Label, i: Cpu, p: Page)
    requires Inv(s) && FromLists(s0, s) && !Presenter(s0.todo, p)
    requires Enabled(s, l) && !Apply(s, l).crashed && i < |s.th| && RangeHides(s, i, p)
    ensures RangeHides(Apply(s, l), i, p)
  {
    var s' := Apply(s, l);
    var b :| Handshake(s, b) && Coherence(s);
    var t, t' := s.th[i], s'.th[i];
    if t'.Run? && t'.op.UnmapRange? && p in Cleared(t') {
      if t.Run? && t.op.UnmapRange? && p in Cleared(t) {
        StaysAbsent(s0, s, l, p);
        forall c | 0 <= c < |s.th| && p in s'.tlb[c] ensures Covers(s', i, c, p) {
          KeepOldCover(s, b, l, i, c, p);
        }
      } else {
        assert l == Step(i) && t.Run? && t' == ThreadAfter(t, s.pt);
        SameOp(t, s.pt);
        assert Shape(t);
        NewlyCleared(t, s.pt, p);
      }
    }
  }

  lemma {:induction false} RunRangeHides(s0: State, s: State, ls: seq<Label>, i: Cpu, p: Page)
    requires Inv(s) && FromLists(s0, s) && !Presenter(s0.todo, p)
    requires Runs(s, ls) && !After(s, ls).crashed && i < |s.th| && RangeHides(s, i, p)
    ensures RangeHides(After(s, ls), i, p)
    decreases |ls|
  {
    if ls != [] {
      var s' := Apply(s, ls[0]);
      assert !s'.crashed;
      KeepInv(s, ls[0]);
      KeepLists(s0, s, ls[0]);
      KeepRangeHides(s0, s, ls[0], i, p);
      RunRangeHides(s0, s', ls[1..], i, p);
    }
  }

  /** If no CPU is to make the page present, then it is not present and cached nowhere when
      `unmap_range` returns, whatever else unmaps it. */
  lemma RangeStaysUnmapped(s0: State, s: State, i: Cpu, c: Cpu, p: Page)
    requires Init(s0) && Leads(s0, s) && !s.crashed && i < |s.th| && c < |s.th|
    requires s.th[i].Run? && s.th[i].op.UnmapRange? && s.th[i].pc.Return? && p in PagesOf(s.th[i].op)
    requires !Presenter(s0.todo, p)
    ensures !Present(s.pt, p) && p !in s.tlb[c]
  {
    var ls :| Runs(s0, ls) && After(s0, ls) == s;
    InitInv(s0);
    RunRangeHides(s0, s0, ls, i, p);
    assert p in Cleared(s.th[i]);
    CoversBeforeEnd(s.th[i]);
  }
}
