/**
 What the operations leave in the live table, in which order they work, and when they
 panic.
 */
module TlbTable {
  import opened Options
  import opened TlbMachine
  import opened TlbHandshake
  import opened TlbCoherence
  import opened TlbTheorems
  import opened TlbLists

  // ---------------------------------------------------------------- what is written

  /** The raw entry of p has these flags.  An entry whose bits are all zero is absent. */
  predicate HasFlags(pt: map<Page, Pte>, p: Page, flags: nat, present: bool) {
    if p in pt then pt[p].flags == flags && pt[p].present == present
    else flags == 0 && !present
  }

  /** What the table holds for a thread that has the memory map's mutex. */
  ghost predicate Wrote(pt: map<Page, Pte>, t: Thread) {
    t.Run? ==>
      && (t.op.SetFlags? && (t.pc.Return? || t.pc.Quick?) ==> HasFlags(pt, t.op.page, t.op.flags, t.op.present))
      && (t.op.SetFlags? && Hides(t) ==> HasFlags(pt, t.op.page, 0, false))
      && (t.op.UnmapPage? && Hides(t) ==> t.op.page !in pt)
      && (t.op.MapPage? && t.pc.Mapped? ==> t.op.page in pt && pt[t.op.page] == t.op.pte)
      && (t.op.UnmapRange? && (t.pc.Edit? || t.pc.Invlpg?) ==>
            forall q :: q in Cleared(t) ==> HasFlags(pt, q, 0, false))
  }

  lemma WritesFlags(pt: map<Page, Pte>, p: Page, flags: nat, present: bool, q: Page)
    ensures HasFlags(WithFlags(pt, p, flags, present), p, flags, present)
    ensures q != p && HasFlags(pt, q, 0, false) ==> HasFlags(WithFlags(pt, p, flags, present), q, 0, false)
  {
  }

  /** The loop of `unmap_range` clears one page more. */
  lemma WroteRange(pt: map<Page, Pte>, t: Thread)
    requires t.Run? && t.op.UnmapRange? && Shape(t) && Wrote(pt, t)
    ensures Wrote(TableAfter(pt, t), ThreadAfter(t, pt))
  {
    if t.pc.Edit? && t.pc.k < |PagesOf(t.op)| {
      var pages, k := PagesOf(t.op), t.pc.k;
      assert pages[..k + 1] == pages[..k] + [pages[k]];
      forall q | q in pages[..k + 1] ensures HasFlags(TableAfter(pt, t), q, 0, false) {
        WritesFlags(pt, pages[k], 0, false, q);
      }
    }
  }

  /** An access keeps this for the thread that makes it. */
  lemma WroteOwn(pt: map<Page, Pte>, t: Thread)
    requires t.Run? && Shape(t) && !Panics(pt, t) && Wrote(pt, t)
    ensures Wrote(TableAfter(pt, t), ThreadAfter(t, pt))
  {
    if t.op.UnmapRange? {
      WroteRange(pt, t);
    } else if t.op.SetFlags? {
      assert PagesOf(t.op) == [t.op.page];
      WritesFlags(pt, t.op.page, t.op.flags, t.op.present, t.op.page);
      WritesFlags(pt, t.op.page, 0, false, t.op.page);
    }
  }

  /** Two tables with the same entry of p. */
  predicate SameEntry(pt: map<Page, Pte>, pt': map<Page, Pte>, p: Page) {
    (p in pt' <==> p in pt) && (p in pt ==> pt'[p] == pt[p])
  }

  lemma WroteSame(pt: map<Page, Pte>, pt': map<Page, Pte>, t: Thread)
    requires Wrote(pt, t) && (OwnsMap(t) ==> forall q :: SameEntry(pt, pt', q))
    requires Shape(t)
    ensures Wrote(pt', t)
  {
    if t.Run? && OwnsMap(t) {
      assert t.op.UnmapRange? ==> forall q :: q in Cleared(t) ==> SameEntry(pt, pt', q);
      assert !t.op.UnmapRange? ==> SameEntry(pt, pt', t.op.page);
    }
  }

  ghost predicate AllWrote(s: State)
    requires Wf(s)
  {
    forall i :: 0 <= i < |s.th| ==> Wrote(s.pt, s.th[i])
  }

  lemma KeepWrote(s: State, b: Option<Cpu>, l: Label, i: Cpu)
    requires Locks(s, b) && Enabled(s, l) && !Apply(s, l).crashed && i < |s.th| && Wrote(s.pt, s.th[i])
    ensures Wrote(Apply(s, l).pt, Apply(s, l).th[i])
  {
    var s' := Apply(s, l);
    assert Shape(s.th[i]);
    if l == Step(i) {
      if s.th[i].Run? {
        WroteOwn(s.pt, s.th[i]);
      }
    } else {
      assert s'.th[i] == s.th[i];
      if OwnsMap(s.th[i]) {
        forall q ensures SameEntry(s.pt, s'.pt, q) {
          MutexProtects(s, b, l, i, q);
        }
      }
      WroteSame(s.pt, s'.pt, s.th[i]);
    }
  }

  lemma {:induction false} RunWrote(s: State, ls: seq<Label>)
    requires Inv(s) && AllWrote(s) && Runs(s, ls) && !After(s, ls).crashed
    ensures AllWrote(After(s, ls))
    decreases |ls|
  {
    if ls != [] {
      var s' := Apply(s, ls[0]);
      assert !s'.crashed;
      var b :| Handshake(s, b) && Coherence(s);
      forall i | 0 <= i < |s'.th| ensures Wrote(s'.pt, s'.th[i]) {
        KeepWrote(s, b, ls[0], i);
      }
      KeepInv(s, ls[0]);
      RunWrote(s', ls[1..]);
    }
  }

  lemma ReachableWrote(s: State)
    requires Reachable(s) && !s.crashed && Wf(s)
    ensures AllWrote(s)
  {
    var s0 :| Init(s0) && Leads(s0, s);
    var ls :| Runs(s0, ls) && After(s0, ls) == s;
    InitInv(s0);
    RunWrote(s0, ls);
  }

  /** When `set_flags` returns, by either path, the entry has the flags asked for. */
  lemma SetFlagsWritten(s: State, i: Cpu)
    requires Reachable(s) && !s.crashed && Wf(s) && i < |s.th|
    requires s.th[i].Run? && s.th[i].op.SetFlags? && (s.th[i].pc.Return? || s.th[i].pc.Quick?)
    ensures HasFlags(s.pt, s.th[i].op.page, s.th[i].op.flags, s.th[i].op.present)
  {
    ReachableWrote(s);
    assert Wrote(s.pt, s.th[i]);
  }

  /** When `unmap_page` returns, the entry is empty, not merely without flags. */
  lemma UnmapPageEmpties(s: State, i: Cpu)
    requires Reachable(s) && !s.crashed && Wf(s) && i < |s.th|
    requires s.th[i].Run? && s.th[i].op.UnmapPage? && s.th[i].pc.Return?
    ensures s.th[i].op.page !in s.pt
  {
    ReachableWrote(s);
    assert Wrote(s.pt, s.th[i]);
  }

  /** Before `map_page` returns, the entry is the one asked for. */
  lemma MapPageWritten(s: State, i: Cpu)
    requires Reachable(s) && !s.crashed && Wf(s) && i < |s.th|
    requires s.th[i].Run? && s.th[i].op.MapPage? && s.th[i].pc.Mapped?
    ensures s.th[i].op.page in s.pt && s.pt[s.th[i].op.page] == s.th[i].op.pte
  {
    ReachableWrote(s);
    assert Wrote(s.pt, s.th[i]);
  }

  /** When `unmap_range` gives the mutex back, no page of the range has a flag left. */
  lemma UnmapRangeClears(s: State, i: Cpu, p: Page)
    requires Reachable(s) && !s.crashed && Wf(s) && i < |s.th|
    requires s.th[i].Run? && s.th[i].op.UnmapRange? && s.th[i].pc == Edit(|PagesOf(s.th[i].op)|)
    requires p in PagesOf(s.th[i].op)
    ensures HasFlags(s.pt, p, 0, false)
  {
    ReachableWrote(s);
    assert Wrote(s.pt, s.th[i]);
    assert PagesOf(s.th[i].op)[..|PagesOf(s.th[i].op)|] == PagesOf(s.th[i].op);
  }

  // ---------------------------------------------------------------- frames stay

  /** The operation gives p another frame. */
  predicate Reframes(op: Op, p: Page) {
    (op.UnmapPage? || op.MapPage?) && op.page == p
  }

  ghost predicate Reframer(todo: seq<seq<Op>>, p: Page) {
    exists j, op :: 0 <= j < |todo| && op in todo[j] && Reframes(op, p)
  }

  lemma FrameKeptBy(pt: map<Page, Pte>, t: Thread, p: Page)
    requires t.Run? && !Reframes(t.op, p)
    ensures FrameAt(TableAfter(pt, t), p) == FrameAt(pt, p)
  {
  }

  lemma {:induction false} RunFrames(s0: State, s: State, ls: seq<Label>, p: Page)
    requires FromLists(s0, s) && !Reframer(s0.todo, p) && Runs(s, ls)
    ensures FrameAt(After(s, ls).pt, p) == FrameAt(s.pt, p)
    decreases |ls|
  {
    if ls != [] {
      var l := ls[0];
      if l.Step? && s.th[l.c].Run? {
        FrameKeptBy(s.pt, s.th[l.c], p);
      }
      KeepLists(s0, s, l);
      RunFrames(s0, Apply(s, l), ls[1..], p);
    }
  }

  /** If no CPU is to map or unmap p, its entry has the frame of the start in every state. */
  lemma FrameKept(s0: State, s: State, p: Page)
    requires Init(s0) && Leads(s0, s) && !Reframer(s0.todo, p)
    ensures FrameAt(s.pt, p) == FrameAt(s0.pt, p)
  {
    var ls :| Runs(s0, ls) && After(s0, ls) == s;
    RunFrames(s0, s0, ls, p);
  }

  // ---------------------------------------------------------------- flushes

  /** A range is sent as its pages and one page more; one page is sent as itself. */
  lemma SentPages(op: Op)
    ensures FlushList(ContentOf(op)) ==
            match op
            case UnmapRange(start, len) => if len == 0 then [0, 1] else PagesOf(op) + [start + len]
            case UnmapPage(p) => [p]
            case SetFlags(p, _, _) => [p]
            case MapPage(p, _) => [p]
  {
    if op.UnmapRange? && op.len == 0 {
      assert Span(0, 2) == [0, 1];
    }
  }

  /** After the local flush of the edit loop, and after that of `map_page`, the page is not in
      the TLB of the CPU; all else in it stays. */
  lemma LocalFlush(s: State, c: Cpu, q: Page)
    requires Wf(s) && Enabled(s, Step(c)) && s.th[c].Run? && Shape(s.th[c])
    requires s.th[c].pc.Invlpg? || s.th[c].pc.Mapped?
    ensures var p := if s.th[c].pc.Invlpg? then PagesOf(s.th[c].op)[s.th[c].pc.k] else s.th[c].op.page;
            var tlb' := Apply(s, Step(c)).tlb;
            && p !in tlb'[c] && (q != p ==> (q in tlb'[c] <==> q in s.tlb[c]))
            && forall d :: 0 <= d < |s.th| && d != c ==> tlb'[d] == s.tlb[d]
  {
  }

  // ---------------------------------------------------------------- order and panics

  /** The accesses from the compare-exchange on `master` to the return. */
  function Tail(): seq<Pc> {
    [WantMaster, Fill, Publish, WantSync, Store, Send, Call, InCall, Await, Unlock, Drain, Unguest, Wipe,
     Release, Final, Return]
  }

  /** Every shootdown makes the accesses of `Tail` in this order. */
  lemma TailOrder(op: Op, pt: map<Page, Pte>, k: nat)
    requires k + 1 < |Tail()|
    ensures ThreadAfter(Run(op, Tail()[k]), pt) == Run(op, Tail()[k + 1])
  {
  }

  /** The edit loop: each entry is written, then flushed, and the shootdown comes last. */
  lemma EditOrder(op: Op, pt: map<Page, Pte>, k: nat)
    requires !op.MapPage? && k <= |PagesOf(op)|
    ensures ThreadAfter(Run(op, WantMap), pt) == Run(op, Edit(0))
    ensures k == |PagesOf(op)| ==> ThreadAfter(Run(op, Edit(k)), pt) == Run(op, WantMaster)
    ensures k < |PagesOf(op)| ==>
              ThreadAfter(Run(op, Edit(k)), pt) ==
              Run(op, if op.SetFlags? && !Present(pt, op.page) then Quick else Invlpg(k))
    ensures ThreadAfter(Run(op, Invlpg(k)), pt) == Run(op, Edit(k + 1))
  {
  }

  /** The wait in the guard's drop is never needed: nobody is left when the count is zero. */
  lemma DrainNeverWaits(s: State, i: Cpu)
    requires Reachable(s) && !s.crashed && Wf(s) && i < |s.th| && s.th[i].Run? && s.th[i].pc.Drain?
    ensures s.list.guest == 1
  {
    HandshakeExact(s, i);
  }

  /** The second lock is never contended: only the owner of the list takes it. */
  lemma SyncNeverWaits(s: State, i: Cpu)
    requires Reachable(s) && !s.crashed && Wf(s) && i < |s.th| && s.th[i].Run? && s.th[i].pc.WantSync?
    ensures !s.sync.lock
  {
    ReachableInv(s);
    var b :| Handshake(s, b) && Coherence(s);
    assert OwnsMaster(s.th[i]);
  }

  /** A visitor never spins: the two loads find the list owned and published. */
  lemma VisitorNeverSpins(s: State, c: Cpu)
    requires Reachable(s) && !s.crashed && Wf(s) && c < |s.th| && s.hd[c] != Off
    ensures s.hd[c] == LoadMaster ==> HandlerAfter(s.hd[c], s.list) == LoadGuest(true)
    ensures s.hd[c].LoadGuest? ==> HandlerAfter(s.hd[c], s.list) == Enter
  {
    VisitFindsContent(s, c);
  }

  /** The kernel panics exactly when `unmap_page` finds an empty entry or `map_page` one in
      use; no handler ever does. */
  lemma PanicsExactly(s: State, l: Label)
    requires Reachable(s) && !s.crashed && Wf(s) && Enabled(s, l)
    ensures Apply(s, l).crashed <==>
            l.Step? && s.th[l.c].Run? &&
            ((s.th[l.c].op.UnmapPage? && s.th[l.c].pc == Edit(0) && s.th[l.c].op.page !in s.pt)
             || (s.th[l.c].op.MapPage? && s.th[l.c].pc.Edit? && s.th[l.c].op.page in s.pt))
  {
    if l.Handle? {
      VisitFindsContent(s, l.c);
    } else if l.Step? {
      ReachableInv(s);
      var b :| Handshake(s, b) && Coherence(s);
      assert Shape(s.th[l.c]);
    }
  }
}
