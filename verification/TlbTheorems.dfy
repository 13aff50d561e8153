/**
 What the shootdown protocol guarantees, for every number of CPUs, every list of
 operations on each of them and every interleaving.
 */
module TlbTheorems {
  import opened Options
  import opened TlbMachine
  import opened TlbHandshake
  import opened TlbCoherence
  import opened TlbProgress

  /** Some run leads from s0 to s. */
  ghost predicate Leads(s0: State, s: State) {
    Wf(s0) && Wf(s) && exists ls :: Runs(s0, ls) && After(s0, ls) == s
  }

  /** s is met by some run that starts with idle CPUs and coherent TLBs. */
  ghost predicate Reachable(s: State) {
    exists s0 :: Init(s0) && Leads(s0, s)
  }

  lemma InitInv(s: State)
    requires Init(s)
    ensures Inv(s)
  {
    InitHandshake(s);
    assert Handshake(s, None) && Coherence(s);
  }

  lemma {:induction false} RunInv(s: State, ls: seq<Label>)
    requires Inv(s) && Runs(s, ls) && !After(s, ls).crashed
    ensures Inv(After(s, ls))
    decreases |ls|
  {
    if ls != [] {
      var s' := Apply(s, ls[0]);
      assert !s'.crashed;
      KeepInv(s, ls[0]);
      RunInv(s', ls[1..]);
    }
  }

  /** The invariant holds in every state of every run. */
  lemma ReachableInv(s: State)
    requires Reachable(s) && !s.crashed
    ensures Inv(s)
  {
    var s0 :| Init(s0) && Leads(s0, s);
    var ls :| Runs(s0, ls) && After(s0, ls) == s;
    InitInv(s0);
    RunInv(s0, ls);
  }

  // ---------------------------------------------------------------- handshake

  /** A CPU that was interrupted, or is in its handler, finds the list locked and filled;
      `shoot` never takes `count` below zero and a leaving visitor never `guest`. */
  lemma VisitFindsContent(s: State, c: Cpu)
    requires Reachable(s) && !s.crashed && c < |s.th|
    requires c in s.ipi || s.hd[c] != Off
    ensures s.list.master && s.list.data.Some? && s.list.guest >= 1 && s.sync.count >= 1
    ensures Visiting(s.hd[c]) ==> s.list.guest >= 2
    ensures s.hd[c] != Off ==> !Apply(s, Handle(c)).crashed
  {
    ReachableInv(s);
    var b :| Handshake(s, b) && Coherence(s);
    HandlerHasOwner(s, b, c);
  }

  /** The master is one CPU at a time, `count` is the number of CPUs that have not shot,
      `guest` is one plus the visitors, and nobody reads while the content is written or
      wiped: there is a visitor only while the master collects. */
  lemma HandshakeExact(s: State, i: Cpu)
    requires Reachable(s) && !s.crashed && i < |s.th| && OwnsMaster(s.th[i])
    ensures s.list.master && forall j :: 0 <= j < |s.th| && OwnsMaster(s.th[j]) ==> j == i
    ensures Collecting(s.th[i]) ==> s.sync.count == |Owed(s)|
    ensures Guested(s.th[i]) ==> s.list.guest == 1 + |Visitors(s)|
    ensures Published(s.th[i]) ==> s.list.data == Some(ContentOf(s.th[i].op))
    ensures !Collecting(s.th[i]) ==> Visitors(s) == {} && Owed(s) == {}
    ensures !Collecting(s.th[i]) && !s.th[i].pc.Send? ==> s.sync.count == 0
  {
    ReachableInv(s);
    var b :| Handshake(s, b) && Coherence(s);
    assert b == Some(i);
    if !Collecting(s.th[i]) {
      QuietSets(s);
      forall c | 0 <= c < |s.th| ensures !(s.th[c].Run? && s.th[c].pc.Call?) {
        assert c != i ==> !OwnsMaster(s.th[c]);
      }
    }
  }

  // ---------------------------------------------------------------- coherence

  /** When `unmap_page` returns, the page has no present entry and no CPU has it cached. */
  lemma UnmapPageCoherent(s: State, i: Cpu)
    requires Reachable(s) && !s.crashed && i < |s.th|
    requires s.th[i].Run? && s.th[i].op.UnmapPage? && s.th[i].pc.Return?
    ensures !Present(s.pt, s.th[i].op.page)
    ensures forall c :: 0 <= c < |s.th| ==> s.th[i].op.page !in s.tlb[c]
  {
    ReachableInv(s);
    assert Hidden(s, i);
    forall c | 0 <= c < |s.th| ensures s.th[i].op.page !in s.tlb[c] {
      Uncached(s, i, c);
    }
  }

  /** When `set_flags` returns after a shootdown, every cached copy is the live entry. */
  lemma SetFlagsCoherent(s: State, i: Cpu)
    requires Reachable(s) && !s.crashed && i < |s.th|
    requires s.th[i].Run? && s.th[i].op.SetFlags? && s.th[i].pc.Return?
    ensures forall c :: 0 <= c < |s.th| ==> !Stale(s, c, s.th[i].op.page)
  {
    ReachableInv(s);
    assert Settled(s, i);
  }

  lemma CoversBeforeEnd(t: Thread)
    requires t.Run? && (t.pc.Final? || t.pc.Return?)
    ensures !Unsent(t) && !Collecting(t)
  {
  }

  /** An edit that is still in flight without the memory map's mutex is an `unmap_range`. */
  lemma KeepersOwnMap(t: Thread)
    requires t.Run? && Shape(t) && Cleared(t) != [] && (Unsent(t) || Collecting(t))
    ensures OwnsMap(t) || t.op.UnmapRange?
    ensures !t.pc.Quick?
  {
  }

  lemma StaleIsCovered(s: State, c: Cpu, p: Page)
    requires Reachable(s) && !s.crashed && c < |s.th| && Stale(s, c, p)
    ensures Covered(s, c, p)
  {
    ReachableInv(s);
  }

  /** Once the shootdown of `unmap_range` is over, a CPU disagrees with the table on a page
      of the range only if another operation on that page is itself still in flight to that
      CPU. */
  lemma RangeFlushed(s: State, i: Cpu, c: Cpu, p: Page)
    requires Reachable(s) && !s.crashed && i < |s.th| && c < |s.th|
    requires s.th[i].Run? && s.th[i].op.UnmapRange? && (s.th[i].pc.Final? || s.th[i].pc.Return?)
    requires p in PagesOf(s.th[i].op) && Stale(s, c, p)
    ensures exists j :: 0 <= j < |s.th| && j != i && Covers(s, j, c, p)
  {
    StaleIsCovered(s, c, p);
    var j :| 0 <= j < |s.th| && Covers(s, j, c, p);
    CoversBeforeEnd(s.th[i]);
  }

  /** When `unmap_range` returns it owns the memory map's mutex, so that other operation is
      a second `unmap_range` that has cleared the page as well. */
  lemma UnmapRangeCoherent(s: State, i: Cpu, c: Cpu, p: Page)
    requires Reachable(s) && !s.crashed && i < |s.th| && c < |s.th|
    requires s.th[i].Run? && s.th[i].op.UnmapRange? && s.th[i].pc.Return?
    requires p in PagesOf(s.th[i].op) && Stale(s, c, p)
    ensures exists j :: 0 <= j < |s.th| && j != i && s.th[j].Run? && s.th[j].op.UnmapRange?
                        && Covers(s, j, c, p)
  {
    RangeFlushed(s, i, c, p);
    var j :| 0 <= j < |s.th| && j != i && Covers(s, j, c, p);
    ReachableInv(s);
    var b :| Handshake(s, b) && Coherence(s);
    assert Shape(s.th[j]) && (OwnsMap(s.th[j]) <==> s.mm == Some(j));
    KeepersOwnMap(s.th[j]);
    assert OwnsMap(s.th[i]);
  }

  /** On the short path of `set_flags` (the entry was not present, no shootdown is sent)
      coherence rests on others: it fails only while an `unmap_range` of another CPU that
      cleared the page has not reached that CPU with its shootdown. */
  lemma QuickPathCoherent(s: State, i: Cpu, c: Cpu)
    requires Reachable(s) && !s.crashed && i < |s.th| && c < |s.th|
    requires s.th[i].Run? && s.th[i].pc.Quick?
    requires Shape(s.th[i]) && Stale(s, c, s.th[i].op.page)
    ensures exists j :: 0 <= j < |s.th| && j != i && s.th[j].Run? && s.th[j].op.UnmapRange?
                        && Covers(s, j, c, s.th[i].op.page)
  {
    StaleIsCovered(s, c, s.th[i].op.page);
    var j :| 0 <= j < |s.th| && Covers(s, j, c, s.th[i].op.page);
    ReachableInv(s);
    var b :| Handshake(s, b) && Coherence(s);
    assert Shape(s.th[j]) && (OwnsMap(s.th[j]) <==> s.mm == Some(j));
    KeepersOwnMap(s.th[j]);
    assert OwnsMap(s.th[i]);
  }

  // ---------------------------------------------------------------- progress

  function Accesses(ls: seq<Label>): nat {
    if ls == [] then 0 else (if IsAccess(ls[0]) then 1 else 0) + Accesses(ls[1..])
  }

  lemma {:induction false} AccessesFromInv(s: State, ls: seq<Label>)
    requires Inv(s) && Runs(s, ls) && !After(s, ls).crashed
    ensures Accesses(ls) + Rank(After(s, ls)) <= Rank(s)
    decreases |ls|
  {
    if ls != [] {
      var s' := Apply(s, ls[0]);
      assert !s'.crashed;
      KeepInv(s, ls[0]);
      RankFalls(s, ls[0]);
      AccessesFromInv(s', ls[1..]);
    }
  }

  /** No run, however it interleaves, makes more accesses than the start allows. */
  lemma AccessesBounded(s: State, ls: seq<Label>)
    requires Init(s) && Runs(s, ls) && !After(s, ls).crashed
    ensures Accesses(ls) <= Rank(s)
  {
    InitInv(s);
    AccessesFromInv(s, ls);
  }

  /** A state in which every CPU only spins is one in which every operation has returned. */
  lemma StuckIsFinished(s: State)
    requires Reachable(s) && !s.crashed
    requires forall l :: IsAccess(l) ==> !Enabled(s, l)
    ensures Finished(s)
  {
    ReachableInv(s);
    if !Finished(s) {
      var l := NoDeadlock(s);
      assert false;
    }
  }
}
