/**
 TLB coherence over every run: a cached translation may disagree with the live
 table only while the operation that changed the entry has not yet flushed that
 CPU, and none does when the operation returns.
 */
module TlbCoherence {
  import opened Options
  import opened TlbMachine
  import opened TlbHandshake

  // ---------------------------------------------------------------- pending flushes

  /** Before the interrupts are sent no CPU has been asked to flush anything. */
  predicate Unsent(t: Thread) {
    t.Run? && (t.pc.Edit? || t.pc.Invlpg? || t.pc.WantMaster? || t.pc.Fill? || t.pc.Publish?
               || t.pc.WantSync? || t.pc.Store? || t.pc.Send?)
  }

  /** The entries that the operation has already made not-present. */
  function Cleared(t: Thread): seq<Page>
    requires t.Run?
  {
    if t.pc.WantMap? then []
    else if t.pc.Edit? && t.pc.k <= |PagesOf(t.op)| then PagesOf(t.op)[..t.pc.k]
    else if t.pc.Invlpg? && t.pc.k < |PagesOf(t.op)| then PagesOf(t.op)[..t.pc.k + 1]
    else PagesOf(t.op)
  }

  /** The handler will still invalidate p. */
  predicate HandlerDue(h: Handler, data: Option<Content>, p: Page) {
    || h.Check? || h.LoadMaster? || h.LoadGuest? || h.Enter?
    || (h.Flush? && data.Some? && h.k <= |FlushList(data.value)| && p in FlushList(data.value)[h.k..])
  }

  /** CPU c will still invalidate p for the shootdown in progress. */
  predicate FlushDue(s: State, c: Cpu, p: Page)
    requires Wf(s) && c < |s.th|
  {
    c in s.ipi || (s.th[c].Run? && s.th[c].pc.Call?) || HandlerDue(s.hd[c], s.list.data, p)
  }

  /** The operation of CPU i has changed p and CPU c has not flushed it since. */
  predicate Covers(s: State, i: Cpu, c: Cpu, p: Page)
    requires Wf(s) && i < |s.th| && c < |s.th|
  {
    var t := s.th[i];
    && t.Run? && p in Cleared(t)
    && (Unsent(t) || (Collecting(t) && FlushDue(s, c, p)))
  }

  predicate Covered(s: State, c: Cpu, p: Page)
    requires Wf(s) && c < |s.th|
  {
    exists i :: 0 <= i < |s.th| && Covers(s, i, c, p)
  }

  // ---------------------------------------------------------------- invariant

  /** `unmap_page` or `set_flags` keeps its entry not-present under the mutex. */
  predicate Hides(t: Thread) {
    && t.Run? && Keeps(t.op)
    && (t.pc.Invlpg? || (t.pc.Edit? && t.pc.k >= 1) || t.pc.WantMaster? || OwnsMaster(t)
        || t.pc.Final? || (t.pc.Return? && t.op.UnmapPage?))
  }

  ghost predicate Coverage(s: State)
    requires Wf(s)
  {
    forall c, p :: 0 <= c < |s.th| && p in s.tlb[c] && Stale(s, c, p) ==> Covered(s, c, p)
  }

  ghost predicate Hidden(s: State, i: Cpu)
    requires Wf(s) && i < |s.th| && s.th[i].Run? && Keeps(s.th[i].op)
  {
    var p := s.th[i].op.page;
    && !Present(s.pt, p)
    && forall c :: 0 <= c < |s.th| && p in s.tlb[c] ==> Covers(s, i, c, p)
  }

  ghost predicate Settled(s: State, i: Cpu)
    requires Wf(s) && i < |s.th| && s.th[i].Run? && s.th[i].op.SetFlags?
  {
    forall c :: 0 <= c < |s.th| ==> !Stale(s, c, s.th[i].op.page)
  }

  ghost predicate Coherence(s: State)
    requires Wf(s)
  {
    && Coverage(s)
    && (forall i :: 0 <= i < |s.th| && Hides(s.th[i]) ==> Hidden(s, i))
    && (forall i :: 0 <= i < |s.th| && s.th[i].Run? && s.th[i].op.SetFlags? && s.th[i].pc.Return?
          ==> Settled(s, i))
  }

  ghost predicate Inv(s: State) {
    exists b :: Handshake(s, b) && Coherence(s)
  }

  // ---------------------------------------------------------------- a pending flush is not lost

  lemma PagesFlushed(op: Op, p: Page)
    requires p in PagesOf(op)
    ensures p in FlushList(ContentOf(op))
  {
  }

  /** A flush that is due stays due, or the entry leaves the TLB with it. */
  lemma DueHandle(h: Handler, list: ListMutex, tlb: map<Page, Pte>, op: Op, p: Page)
    requires list.data == Some(ContentOf(op)) && p in PagesOf(op)
    requires HandlerDue(h, list.data, p) && p in HandlerTlb(tlb, h, list)
    ensures HandlerDue(HandlerAfter(h, list), list.data, p)
  {
    PagesFlushed(op, p);
    var fl := FlushList(ContentOf(op));
    if h.Flush? {
      assert h.k < |fl| ==> fl[h.k..] == [fl[h.k]] + fl[h.k + 1..];
    }
  }

  lemma CoverHandle(s: State, b: Option<Cpu>, a: Cpu, i: Cpu, c: Cpu, p: Page)
    requires Handshake(s, b) && Enabled(s, Handle(a)) && i < |s.th| && c < |s.th|
    requires Covers(s, i, c, p) && p in Apply(s, Handle(a)).tlb[c]
    ensures Covers(Apply(s, Handle(a)), i, c, p)
  {
    HandlerHasOwner(s, b, a);
    HandlerFrame(s, b, a);
    if a == c && Collecting(s.th[i]) {
      assert b == Some(i);
      if HandlerDue(s.hd[c], s.list.data, p) {
        DueHandle(s.hd[c], s.list, s.tlb[c], s.th[i].op, p);
      }
    }
  }

  lemma CoverOther(s: State, b: Option<Cpu>, a: Cpu, i: Cpu, c: Cpu, p: Page)
    requires Handshake(s, b) && Enabled(s, Step(a)) && !Apply(s, Step(a)).crashed
    requires i < |s.th| && c < |s.th| && i != a
    requires Covers(s, i, c, p)
    ensures Covers(Apply(s, Step(a)), i, c, p)
  {
    if Collecting(s.th[i]) {
      assert b == Some(i);
      assert !OwnsMaster(s.th[a]);
      assert Shape(s.th[a]);
      OutsideFrame(s, a);
    }
  }

  lemma CoverCollect(s: State, b: Option<Cpu>, a: Cpu, c: Cpu, p: Page)
    requires Handshake(s, b) && Enabled(s, Step(a)) && Collecting(s.th[a])
    requires c < |s.th| && Covers(s, a, c, p)
    ensures Covers(Apply(s, Step(a)), a, c, p)
  {
    assert b == Some(a);
    OwnerFrame(s, a);
    assert c in Owed(s) || !Owes(s, c);
  }

  lemma CoverSend(s: State, a: Cpu, c: Cpu, p: Page)
    requires Wf(s) && Enabled(s, Step(a)) && s.th[a].Run? && s.th[a].pc.Send?
    requires c < |s.th| && Covers(s, a, c, p)
    ensures Covers(Apply(s, Step(a)), a, c, p)
  {
    var s' := Apply(s, Step(a));
    assert s'.th[a] == Run(s.th[a].op, Call);
    assert c != a ==> c in s'.ipi;
    assert FlushDue(s', c, p);
  }

  lemma CoverUnsent(t: Thread, pt: map<Page, Pte>, p: Page)
    requires t.Run? && Shape(t) && Unsent(t) && !t.pc.Send?
    requires p in Cleared(t)
    ensures var t' := ThreadAfter(t, pt); t'.Run? && Unsent(t') && p in Cleared(t')
  {
  }

  lemma CoverOwn(s: State, b: Option<Cpu>, a: Cpu, c: Cpu, p: Page)
    requires Handshake(s, b) && Enabled(s, Step(a)) && !Apply(s, Step(a)).crashed
    requires c < |s.th| && s.th[a].Run?
    requires Covers(s, a, c, p)
    ensures Covers(Apply(s, Step(a)), a, c, p)
  {
    assert Shape(s.th[a]);
    if Collecting(s.th[a]) {
      CoverCollect(s, b, a, c, p);
    } else if s.th[a].pc.Send? {
      CoverSend(s, a, c, p);
    } else {
      CoverUnsent(s.th[a], s.pt, p);
    }
  }

  lemma CoverKept(s: State, b: Option<Cpu>, l: Label, i: Cpu, c: Cpu, p: Page)
    requires Handshake(s, b) && Enabled(s, l) && !Apply(s, l).crashed
    requires i < |s.th| && c < |s.th|
    requires Covers(s, i, c, p) && p in Apply(s, l).tlb[c]
    ensures Covers(Apply(s, l), i, c, p)
  {
    match l
    case Refill(_, _) =>
    case Evict(_, _) =>
    case Deliver(_) =>
    case Handle(a) => CoverHandle(s, b, a, i, c, p);
    case Step(a) =>
      if i == a {
        CoverOwn(s, b, a, c, p);
      } else {
        CoverOther(s, b, a, i, c, p);
      }
  }

  // ---------------------------------------------------------------- edits

  /** The entry that the next access of t writes, if it writes one. */
  predicate Writes(pt: map<Page, Pte>, t: Thread, p: Page) {
    && t.Run?
    && (if AtEntry(t) then p == PagesOf(t.op)[t.pc.k]
        else (t.pc.Edit? && t.op.MapPage? && p == t.op.page)
             || (t.pc.Final? && t.op.SetFlags? && p == t.op.page))
  }

  /** An access writes one entry at most, and only with the memory map's mutex. */
  lemma TableFrame(pt: map<Page, Pte>, t: Thread, p: Page)
    requires t.Run? && Shape(t) && !Panics(pt, t)
    ensures !Writes(pt, t, p) ==>
              (p in TableAfter(pt, t) <==> p in pt) && (p in pt ==> TableAfter(pt, t)[p] == pt[p])
    ensures Writes(pt, t, p) ==> OwnsMap(t)
    ensures Writes(pt, t, p) && ThreadAfter(t, pt).Run? && ThreadAfter(t, pt).pc.Invlpg? ==>
              !Present(TableAfter(pt, t), p) && p in Cleared(ThreadAfter(t, pt))
    ensures Writes(pt, t, p) && !(ThreadAfter(t, pt).Run? && ThreadAfter(t, pt).pc.Invlpg?) ==>
              t.pc.Final? || !Present(pt, p)
  {
  }

  lemma TlbOnlyGains(s: State, l: Label, c: Cpu, p: Page)
    requires Wf(s) && Enabled(s, l) && c < |s.th|
    requires p in Apply(s, l).tlb[c]
    ensures l == Refill(c, p) || (p in s.tlb[c] && Apply(s, l).tlb[c][p] == s.tlb[c][p])
  {
  }

  /** Once its shootdown is over, the entry of a hiding operation is cached nowhere. */
  lemma Uncached(s: State, i: Cpu, c: Cpu)
    requires Wf(s) && Coherence(s) && i < |s.th| && c < |s.th|
    requires Hides(s.th[i]) && (s.th[i].pc.Final? || s.th[i].pc.Return?)
    ensures s.th[i].op.page !in s.tlb[c]
  {
    assert Hidden(s, i);
  }

  lemma KeepCoverage(s: State, b: Option<Cpu>, l: Label, c: Cpu, p: Page)
    requires Handshake(s, b) && Coherence(s) && Enabled(s, l) && !Apply(s, l).crashed
    requires c < |s.th| && p in Apply(s, l).tlb[c] && Stale(Apply(s, l), c, p)
    ensures Covered(Apply(s, l), c, p)
  {
    var s' := Apply(s, l);
    TlbOnlyGains(s, l, c, p);
    if Stale(s, c, p) {
      var i :| 0 <= i < |s.th| && Covers(s, i, c, p);
      CoverKept(s, b, l, i, c, p);
    } else {
      assert l.Step?;
      var t := s.th[l.c];
      assert Shape(t);
      TableFrame(s.pt, t, p);
      if t.pc.Final? {
        Uncached(s, l.c, c);
      }
      assert Covers(s', l.c, c, p);
    }
  }

  lemma KeepHidden(s: State, b: Option<Cpu>, l: Label, i: Cpu)
    requires Handshake(s, b) && Coherence(s) && Enabled(s, l) && !Apply(s, l).crashed
    requires i < |s.th| && Hides(Apply(s, l).th[i])
    ensures Hidden(Apply(s, l), i)
  {
    var s' := Apply(s, l);
    if l.Step? && l.c == i {
      KeepHiddenOwn(s, b, i);
    } else {
      assert s'.th[i] == s.th[i] && Hidden(s, i);
      var p := s.th[i].op.page;
      MutexProtects(s, b, l, i, p);
      forall c | 0 <= c < |s.th| && p in s'.tlb[c] ensures Covers(s', i, c, p) {
        TlbOnlyGains(s, l, c, p);
        CoverKept(s, b, l, i, c, p);
      }
    }
  }

  lemma KeepHiddenOwn(s: State, b: Option<Cpu>, i: Cpu)
    requires Handshake(s, b) && Coherence(s) && Enabled(s, Step(i)) && !Apply(s, Step(i)).crashed
    requires i < |s.th| && Hides(Apply(s, Step(i)).th[i])
    ensures Hidden(Apply(s, Step(i)), i)
  {
    var l := Step(i);
    var s' := Apply(s, l);
    assert Shape(s.th[i]);
    HidesFrom(s.pt, s.th[i]);
    if Hides(s.th[i]) {
      assert Hidden(s, i);
      var p := s.th[i].op.page;
      forall c | 0 <= c < |s.th| && p in s'.tlb[c] ensures Covers(s', i, c, p) {
        TlbOnlyGains(s, l, c, p);
        CoverKept(s, b, l, i, c, p);
      }
    }
  }

  /** An operation starts to hide its entry when it clears it, and does not show it again
      before its last write. */
  lemma HidesFrom(pt: map<Page, Pte>, t: Thread)
    requires t.Run? && Shape(t) && !Panics(pt, t) && Hides(ThreadAfter(t, pt))
    ensures ThreadAfter(t, pt).op == t.op
    ensures Hides(t) ==> TableAfter(pt, t) == pt
    ensures !Hides(t) ==>
              && !Present(TableAfter(pt, t), t.op.page)
              && Unsent(ThreadAfter(t, pt)) && t.op.page in Cleared(ThreadAfter(t, pt))
  {
  }

  /** Nobody else writes an entry of the CPU that owns the memory map's mutex. */
  lemma MutexProtects(s: State, b: Option<Cpu>, l: Label, i: Cpu, p: Page)
    requires Locks(s, b) && Enabled(s, l) && !Apply(s, l).crashed
    requires i < |s.th| && OwnsMap(s.th[i]) && l != Step(i)
    ensures p in Apply(s, l).pt <==> p in s.pt
    ensures p in s.pt ==> Apply(s, l).pt[p] == s.pt[p]
  {
    if l.Step? && s.th[l.c].Run? {
      assert Shape(s.th[l.c]);
      TableFrame(s.pt, s.th[l.c], p);
    }
  }

  lemma StaysFresh(s: State, b: Option<Cpu>, l: Label, i: Cpu, c: Cpu, p: Page)
    requires Locks(s, b) && Enabled(s, l) && !Apply(s, l).crashed
    requires i < |s.th| && c < |s.th| && OwnsMap(s.th[i]) && l != Step(i)
    requires !Stale(s, c, p)
    ensures !Stale(Apply(s, l), c, p)
  {
    MutexProtects(s, b, l, i, p);
    if p in Apply(s, l).tlb[c] {
      TlbOnlyGains(s, l, c, p);
    }
  }

  lemma FinalReturns(t: Thread, pt: map<Page, Pte>)
    requires t.Run? && ThreadAfter(t, pt).Run? && ThreadAfter(t, pt).pc.Return?
    ensures t.pc.Final? && ThreadAfter(t, pt).op == t.op
  {
  }

  /** How a `set_flags` that took the long path can be about to return. */
  lemma ReturnFrom(s: State, l: Label, i: Cpu)
    requires Wf(s) && Enabled(s, l) && !Apply(s, l).crashed && i < |s.th|
    requires var t := Apply(s, l).th[i]; t.Run? && t.pc.Return?
    ensures l != Step(i) ==> s.th[i] == Apply(s, l).th[i]
    ensures l == Step(i) ==> s.th[i].Run? && s.th[i].pc.Final? && s.th[i].op == Apply(s, l).th[i].op
  {
    if l == Step(i) && s.th[i].Run? {
      FinalReturns(s.th[i], s.pt);
    }
  }

  lemma KeepSettled(s: State, b: Option<Cpu>, l: Label, i: Cpu)
    requires Handshake(s, b) && Coherence(s) && Enabled(s, l) && !Apply(s, l).crashed
    requires i < |s.th|
    requires var t := Apply(s, l).th[i]; t.Run? && t.op.SetFlags? && t.pc.Return?
    ensures Settled(Apply(s, l), i)
  {
    ReturnFrom(s, l, i);
    if l == Step(i) {
      SettledAtLast(s, b, i);
    } else {
      assert Settled(s, i);
      var p := s.th[i].op.page;
      forall c | 0 <= c < |s.th| ensures !Stale(Apply(s, l), c, p) {
        StaysFresh(s, b, l, i, c, p);
      }
    }
  }

  lemma SettledAtLast(s: State, b: Option<Cpu>, i: Cpu)
    requires Handshake(s, b) && Coherence(s) && Enabled(s, Step(i))
    requires s.th[i].Run? && s.th[i].op.SetFlags? && s.th[i].pc.Final?
    ensures Settled(Apply(s, Step(i)), i)
  {
    var s' := Apply(s, Step(i));
    forall c | 0 <= c < |s.th| ensures !Stale(s', c, s.th[i].op.page) {
      Uncached(s, i, c);
      assert s'.tlb[c] == s.tlb[c];
    }
  }

  lemma KeepCoherence(s: State, b: Option<Cpu>, l: Label)
    requires Handshake(s, b) && Coherence(s) && Enabled(s, l) && !Apply(s, l).crashed
    ensures Coherence(Apply(s, l))
  {
    var s' := Apply(s, l);
    forall c, p | 0 <= c < |s'.th| && p in s'.tlb[c] && Stale(s', c, p) ensures Covered(s', c, p) {
      KeepCoverage(s, b, l, c, p);
    }
    forall i | 0 <= i < |s'.th| && Hides(s'.th[i]) ensures Hidden(s', i) {
      KeepHidden(s, b, l, i);
    }
    forall i | 0 <= i < |s'.th| && s'.th[i].Run? && s'.th[i].op.SetFlags? && s'.th[i].pc.Return?
      ensures Settled(s', i)
    {
      KeepSettled(s, b, l, i);
    }
  }

  /** Every label keeps the handshake and coherence. */
  lemma KeepInv(s: State, l: Label)
    requires Inv(s) && Enabled(s, l) && !Apply(s, l).crashed
    ensures Inv(Apply(s, l))
  {
    var b :| Handshake(s, b) && Coherence(s);
    KeepHandshake(s, b, l);
    KeepCoherence(s, b, l);
  }
}
