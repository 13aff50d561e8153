/**
 When coherence fails after all: runs in which an `unmap_range`, or the short path of
 `set_flags`, returns while a CPU still uses an old translation, for all work lists of the
 kind that allows it.
 */
module TlbRaces {
  import opened Options
  import opened TlbMachine
  import opened TlbHandshake
  import opened TlbCoherence
  import opened TlbProgress
  import opened TlbTheorems
  import opened TlbLists

  // ---------------------------------------------------------------- building runs

  lemma {:induction false} RunsAppend(s: State, ls: seq<Label>, l: Label)
    requires Wf(s) && Runs(s, ls) && Enabled(After(s, ls), l)
    ensures Runs(s, ls + [l]) && After(s, ls + [l]) == Apply(After(s, ls), l)
    decreases |ls|
  {
    if ls == [] {
      assert Runs(Apply(s, l), []);
    } else {
      RunsAppend(Apply(s, ls[0]), ls[1..], l);
      assert (ls + [l])[1..] == ls[1..] + [l];
    }
  }

  lemma LeadsNext(s0: State, s: State, l: Label)
    requires Leads(s0, s) && Enabled(s, l)
    ensures Leads(s0, Apply(s, l))
  {
    var ls :| Runs(s0, ls) && After(s0, ls) == s;
    RunsAppend(s0, ls, l);
  }

  lemma LeadsHere(s: State)
    requires Wf(s)
    ensures Leads(s, s)
  {
    assert Runs(s, []) && After(s, []) == s;
  }

  /** CPU d has the same thread, list and TLB in both states. */
  predicate SameCpu(s: State, s': State, d: Cpu)
    requires Wf(s) && Wf(s') && |s'.th| == |s.th| && d < |s.th|
  {
    s'.th[d] == s.th[d] && s'.todo[d] == s.todo[d] && s'.tlb[d] == s.tlb[d]
  }

  /** Only the table, the mutex, and CPU c's own thread, list and TLB are different. */
  ghost predicate OnlyBy(s: State, s': State, c: Cpu)
    requires Wf(s)
  {
    && Wf(s') && |s'.th| == |s.th| && !s'.crashed
    && s'.list == s.list && s'.sync == s.sync && s'.ipi == s.ipi && s'.hd == s.hd
    && forall d :: 0 <= d < |s.th| && d != c ==> SameCpu(s, s', d)
  }

  lemma OnlyByBoth(s: State, s1: State, s2: State, c: Cpu)
    requires Wf(s) && OnlyBy(s, s1, c) && OnlyBy(s1, s2, c)
    ensures OnlyBy(s, s2, c)
  {
    forall d | 0 <= d < |s.th| && d != c ensures SameCpu(s, s2, d) {
      assert SameCpu(s, s1, d) && SameCpu(s1, s2, d);
    }
  }

  /** Takes the first operation from the list. */
  lemma BeginBy(s0: State, s: State, c: Cpu) returns (s': State)
    requires Leads(s0, s) && !s.crashed && c < |s.th| && s.hd[c] == Off
    requires s.th[c] == Idle && s.todo[c] != []
    ensures Leads(s0, s') && OnlyBy(s, s', c) && s'.pt == s.pt && s'.mm == s.mm && s'.tlb[c] == s.tlb[c]
    ensures s'.th[c] == Run(s.todo[c][0], WantMap) && s'.todo[c] == s.todo[c][1..]
  {
    s' := Apply(s, Step(c));
    LeadsNext(s0, s, Step(c));
  }

  /** One access outside the owner's region. */
  lemma StepBy(s0: State, s: State, c: Cpu) returns (s': State)
    requires Leads(s0, s) && !s.crashed && c < |s.th| && ThreadEnabled(s, c)
    requires s.th[c].Run? && Shape(s.th[c]) && !Panics(s.pt, s.th[c])
    requires !OwnsMaster(s.th[c]) && !s.th[c].pc.WantMaster?
    ensures Leads(s0, s') && OnlyBy(s, s', c) && s'.todo[c] == s.todo[c]
    ensures s'.th[c] == ThreadAfter(s.th[c], s.pt) && s'.pt == TableAfter(s.pt, s.th[c])
    ensures s'.mm == MutexAfter(s.mm, s.th[c], c) && s'.tlb[c] == TlbAfter(s.tlb[c], s.th[c])
  {
    s' := Apply(s, Step(c));
    OutsideThread(s.th[c], s.pt, s.list, s.sync, |s.th|);
    LeadsNext(s0, s, Step(c));
  }

  /** CPU c can make the access that pc stands for. */
  ghost predicate Ready(s0: State, s: State, c: Cpu, op: Op, pc: Pc) {
    Leads(s0, s) && !s.crashed && c < |s.th| && s.hd[c] == Off && s.th[c] == Run(op, pc)
  }

  /** CPU c alone moved and now stands at pc. */
  ghost predicate Moved(s0: State, s: State, s': State, c: Cpu, op: Op, pc: Pc)
    requires Wf(s) && c < |s.th|
  {
    && Leads(s0, s') && OnlyBy(s, s', c)
    && s'.th[c] == Run(op, pc) && s'.todo[c] == s.todo[c]
  }

  lemma TakeMap(s0: State, s: State, c: Cpu, op: Op) returns (s': State)
    requires Ready(s0, s, c, op, WantMap) && s.mm == None && !op.MapPage?
    ensures Moved(s0, s, s', c, op, Edit(0))
    ensures s'.mm == Some(c) && s'.pt == s.pt && s'.tlb[c] == s.tlb[c]
  {
    s' := StepBy(s0, s, c);
  }

  lemma ClearEntry(s0: State, s: State, c: Cpu, op: Op, k: nat) returns (s': State)
    requires Ready(s0, s, c, op, Edit(k)) && op.UnmapRange? && k < |PagesOf(op)| && s.mm == Some(c)
    ensures Moved(s0, s, s', c, op, Invlpg(k))
    ensures s'.mm == Some(c) && s'.pt == WithFlags(s.pt, PagesOf(op)[k], 0, false)
  {
    s' := StepBy(s0, s, c);
  }

  lemma FlushEntry(s0: State, s: State, c: Cpu, op: Op, k: nat) returns (s': State)
    requires Ready(s0, s, c, op, Invlpg(k)) && op.UnmapRange? && k < |PagesOf(op)| && s.mm == Some(c)
    ensures Moved(s0, s, s', c, op, Edit(k + 1)) && s'.mm == Some(c) && s'.pt == s.pt
  {
    s' := StepBy(s0, s, c);
  }

  lemma GiveBack(s0: State, s: State, c: Cpu, op: Op) returns (s': State)
    requires Ready(s0, s, c, op, Edit(|PagesOf(op)|)) && op.UnmapRange? && s.mm == Some(c)
    ensures Moved(s0, s, s', c, op, WantMaster) && s'.mm == None && s'.pt == s.pt
  {
    s' := StepBy(s0, s, c);
  }

  lemma QuickWrite(s0: State, s: State, c: Cpu, op: Op) returns (s': State)
    requires Ready(s0, s, c, op, Edit(0)) && op.SetFlags? && !Present(s.pt, op.page) && s.mm == Some(c)
    ensures Moved(s0, s, s', c, op, Quick) && s'.mm == Some(c) && s'.tlb[c] == s.tlb[c]
    ensures s'.pt == WithFlags(s.pt, op.page, op.flags, op.present)
  {
    assert PagesOf(op) == [op.page];
    s' := StepBy(s0, s, c);
  }

  lemma QuickReturn(s0: State, s: State, c: Cpu, op: Op) returns (s': State)
    requires Ready(s0, s, c, op, Quick) && op.SetFlags?
    ensures Leads(s0, s') && OnlyBy(s, s', c) && s'.th[c] == Idle && s'.todo[c] == s.todo[c]
    ensures s'.mm == None && s'.pt == s.pt
  {
    s' := StepBy(s0, s, c);
  }

  lemma LastAccess(s0: State, s: State, c: Cpu, op: Op) returns (s': State)
    requires Ready(s0, s, c, op, Final) && op.UnmapRange? && s.mm == None
    ensures Moved(s0, s, s', c, op, Return) && s'.pt == s.pt && s'.tlb[c] == s.tlb[c]
  {
    s' := StepBy(s0, s, c);
  }

  lemma RefillBy(s0: State, s: State, c: Cpu, p: Page) returns (s': State)
    requires Leads(s0, s) && !s.crashed && c < |s.th| && Present(s.pt, p)
    ensures Leads(s0, s') && OnlyBy(s, s', c) && s'.todo[c] == s.todo[c] && s'.th[c] == s.th[c]
    ensures s'.pt == s.pt && s'.mm == s.mm && p in s'.tlb[c] && s'.tlb[c][p] == s.pt[p]
  {
    s' := Apply(s, Refill(c, p));
    LeadsNext(s0, s, Refill(c, p));
  }

  /** The pages from index k on were made not-present, their frames kept. */
  ghost predicate Edited(pt: map<Page, Pte>, pt': map<Page, Pte>, pages: seq<Page>, k: nat) {
    && k <= |pages|
    && (forall q :: FrameAt(pt', q) == FrameAt(pt, q))
    && (forall q :: !Present(pt, q) ==> !Present(pt', q))
    && (forall q :: q in pages[k..] ==> !Present(pt', q))
  }

  lemma EditedNone(pt: map<Page, Pte>, pages: seq<Page>)
    ensures Edited(pt, pt, pages, |pages|)
  {
    assert pages[|pages|..] == [];
  }

  lemma EditedMore(pt: map<Page, Pte>, pt': map<Page, Pte>, pages: seq<Page>, k: nat)
    requires k < |pages| && Edited(WithFlags(pt, pages[k], 0, false), pt', pages, k + 1)
    ensures Edited(pt, pt', pages, k)
  {
    var mid := WithFlags(pt, pages[k], 0, false);
    assert !Present(mid, pages[k]);
    forall q ensures FrameAt(mid, q) == FrameAt(pt, q) && (!Present(pt, q) ==> !Present(mid, q)) {
    }
    assert pages[k..] == [pages[k]] + pages[k + 1..];
  }

  /** One turn of the loop of `unmap_range`. */
  lemma EditOne(s0: State, s: State, c: Cpu, op: Op, k: nat) returns (s': State)
    requires Ready(s0, s, c, op, Edit(k)) && op.UnmapRange? && k < |PagesOf(op)| && s.mm == Some(c)
    ensures Moved(s0, s, s', c, op, Edit(k + 1))
    ensures s'.mm == Some(c) && s'.pt == WithFlags(s.pt, PagesOf(op)[k], 0, false)
  {
    var s1 := ClearEntry(s0, s, c, op, k);
    s' := FlushEntry(s0, s1, c, op, k);
    OnlyByBoth(s, s1, s', c);
  }

  /** The loop of `unmap_range`, up to where the mutex is free again. */
  lemma {:induction false} EditLoop(s0: State, s: State, c: Cpu, op: Op, k: nat) returns (s': State)
    requires Ready(s0, s, c, op, Edit(k)) && op.UnmapRange? && k <= |PagesOf(op)| && s.mm == Some(c)
    ensures Moved(s0, s, s', c, op, WantMaster) && s'.mm == None
    ensures Edited(s.pt, s'.pt, PagesOf(op), k)
    decreases |PagesOf(op)| - k
  {
    if k == |PagesOf(op)| {
      s' := GiveBack(s0, s, c, op);
      EditedNone(s.pt, PagesOf(op));
    } else {
      var s1 := EditOne(s0, s, c, op, k);
      s' := EditLoop(s0, s1, c, op, k + 1);
      EditedMore(s.pt, s'.pt, PagesOf(op), k);
      OnlyByBoth(s, s1, s', c);
    }
  }

  /** An `unmap_range` that finds the mutex free clears its pages and gives it back. */
  lemma ClearPages(s0: State, s: State, c: Cpu, op: Op) returns (s': State)
    requires Leads(s0, s) && !s.crashed && c < |s.th| && s.hd[c] == Off && s.mm == None
    requires s.th[c] == Idle && s.todo[c] != [] && s.todo[c][0] == op && op.UnmapRange?
    ensures Leads(s0, s') && OnlyBy(s, s', c) && s'.mm == None && s'.todo[c] == s.todo[c][1..]
    ensures s'.th[c] == Run(op, WantMaster)
    ensures forall q :: FrameAt(s'.pt, q) == FrameAt(s.pt, q)
    ensures forall q :: q in PagesOf(op) ==> !Present(s'.pt, q)
  {
    var s1 := BeginBy(s0, s, c);
    var s2 := TakeMap(s0, s1, c, op);
    s' := EditLoop(s0, s2, c, op, 0);
    OnlyByBoth(s, s1, s2, c);
    OnlyByBoth(s, s2, s', c);
    assert PagesOf(op)[0..] == PagesOf(op);
  }

  /** A `set_flags` that finds the mutex free and the entry not present takes the short path. */
  lemma TakeQuickPath(s0: State, s: State, c: Cpu, op: Op) returns (s': State)
    requires Leads(s0, s) && !s.crashed && c < |s.th| && s.hd[c] == Off && s.mm == None
    requires s.th[c] == Idle && s.todo[c] != [] && s.todo[c][0] == op && op.SetFlags?
    requires !Present(s.pt, op.page)
    ensures Leads(s0, s') && OnlyBy(s, s', c) && s'.mm == Some(c) && s'.todo[c] == s.todo[c][1..]
    ensures s'.th[c] == Run(op, Quick) && s'.tlb[c] == s.tlb[c]
    ensures s'.pt == WithFlags(s.pt, op.page, op.flags, op.present)
  {
    var s1 := BeginBy(s0, s, c);
    var s2 := TakeMap(s0, s1, c, op);
    s' := QuickWrite(s0, s2, c, op);
    OnlyByBoth(s, s1, s2, c);
    OnlyByBoth(s, s2, s', c);
  }

  // ---------------------------------------------------------------- the race of the short path

  /** Whatever the table, the other CPUs and the rest of the lists: if CPU a is to unmap a
      range that holds the page, and the flags that CPU b is to set make another entry of
      it, then `set_flags` can return while CPU b still uses the old entry. */
  lemma QuickPathRace(s0: State, a: Cpu, b: Cpu) returns (s: State)
    requires Init(s0) && a < |s0.th| && b < |s0.th| && a != b
    requires s0.todo[a] != [] && s0.todo[a][0].UnmapRange?
    requires s0.todo[b] != [] && s0.todo[b][0].SetFlags?
    requires var op := s0.todo[b][0];
             && op.page in PagesOf(s0.todo[a][0]) && Present(s0.pt, op.page)
             && s0.pt[op.page] != Pte(s0.pt[op.page].frame, op.flags, op.present)
    ensures Leads(s0, s) && !s.crashed && |s.th| == |s0.th|
    ensures s.th[b] == Run(s0.todo[b][0], Quick) && Stale(s, b, s0.todo[b][0].page)
  {
    var p := s0.todo[b][0].page;
    LeadsHere(s0);
    var s1 := RefillBy(s0, s0, b, p);
    assert SameCpu(s0, s1, a);
    var s2 := ClearPages(s0, s1, a, s0.todo[a][0]);
    assert SameCpu(s1, s2, b) && FrameAt(s2.pt, p) == FrameAt(s1.pt, p);
    s := TakeQuickPath(s0, s2, b, s0.todo[b][0]);
    assert p in s.tlb[b];
  }

  /** One operation for CPU a, others for CPU b, none for the rest. */
  function Lists(n: nat, a: Cpu, b: Cpu, first: Op, others: seq<Op>): (r: seq<seq<Op>>)
    ensures |r| == n
  {
    seq(n, c => if c == a then [first] else if c == b then others else [])
  }

  /** n idle CPUs with empty TLBs. */
  function Start(n: nat, pt: map<Page, Pte>, todo: seq<seq<Op>>): State {
    State(pt, seq(n, c => map[]), None, ListMutex(false, 0, None), SyncCounter(false, 0), {},
          seq(n, c => Idle), seq(n, c => Off), todo, false)
  }

  lemma StartInit(n: nat, pt: map<Page, Pte>, todo: seq<seq<Op>>)
    requires n >= 1 && |todo| == n
    ensures Init(Start(n, pt, todo)) && |Start(n, pt, todo).th| == n
  {
  }

  /** The short path of b returns while some CPU has an old translation of the page. */
  ghost predicate QuickStale(s0: State, s: State, b: Cpu, op: Op)
    requires op.SetFlags?
  {
    && Init(s0) && Leads(s0, s) && !s.crashed && b < |s.th| && s.th[b] == Run(op, Quick)
    && exists c :: 0 <= c < |s.th| && Stale(s, c, op.page)
  }

  /** When one CPU sets flags and another unmaps a range, the short path can return with an
      old translation in use exactly when the range holds the page. */
  lemma QuickPathIff(n: nat, a: Cpu, b: Cpu, range: Op, flags: Op)
    requires a < n && b < n && a != b && range.UnmapRange? && flags.SetFlags?
    ensures (exists s0: State, s: State :: s0.todo == Lists(n, a, b, range, [flags]) && QuickStale(s0, s, b, flags))
            <==> flags.page in PagesOf(range)
  {
    var todo := Lists(n, a, b, range, [flags]);
    if flags.page in PagesOf(range) {
      var pt: map<Page, Pte> := map[flags.page := Pte(1, flags.flags + 1, true)];
      var s0 := Start(n, pt, todo);
      StartInit(n, pt, todo);
      var s := QuickPathRace(s0, a, b);
      assert s0.todo == todo && QuickStale(s0, s, b, flags);
    } else {
      forall s0: State, s: State | s0.todo == todo && QuickStale(s0, s, b, flags) ensures false {
        var c :| 0 <= c < |s.th| && Stale(s, c, flags.page);
        QuickAlone(s0, s, b, c);
      }
    }
  }

  // ---------------------------------------------------------------- the race of unmap_range

  /** The owner's accesses and the handlers change neither the table nor another thread. */
  lemma OwnerLabelFrame(s: State, h: Cpu, l: Label)
    requires Wf(s) && Enabled(s, l) && h < |s.th| && OwnsMaster(s.th[h]) && s.list.master
    requires IsAccess(l) && (l.Step? ==> l.c == h)
    ensures var s' := Apply(s, l);
            && !s'.crashed && s'.pt == s.pt && s'.mm == s.mm && s'.todo == s.todo
            && s'.th == s.th[h := s'.th[h]]
            && (s'.th[h] == Run(s.th[h].op, Final) || (OwnsMaster(s'.th[h]) && s'.th[h].op == s.th[h].op))
  {
  }

  /** One access that brings the shootdown of h closer to its end. */
  lemma OwnerTurn(s0: State, s: State, h: Cpu) returns (s': State)
    requires Init(s0) && Leads(s0, s) && !s.crashed && h < |s.th| && OwnsMaster(s.th[h])
    ensures Leads(s0, s') && !s'.crashed && |s'.th| == |s.th| && Rank(s') < Rank(s)
    ensures s'.pt == s.pt && s'.mm == s.mm && s'.todo == s.todo && s'.th == s.th[h := s'.th[h]]
    ensures s'.th[h] == Run(s.th[h].op, Final) || (OwnsMaster(s'.th[h]) && s'.th[h].op == s.th[h].op)
  {
    ReachableInv(s);
    var b :| Handshake(s, b) && Coherence(s);
    assert b == Some(h);
    var l := OwnerCanMove(s, h);
    OwnerLabelFrame(s, h, l);
    RankFalls(s, l);
    LeadsNext(s0, s, l);
    s' := Apply(s, l);
  }

  /** A shootdown that has begun can be brought to its end while nothing else moves. */
  lemma {:induction false} FinishShootdown(s0: State, s: State, h: Cpu) returns (s': State)
    requires Init(s0) && Leads(s0, s) && !s.crashed && h < |s.th| && OwnsMaster(s.th[h])
    ensures Leads(s0, s') && !s'.crashed && |s'.th| == |s.th|
    ensures s'.pt == s.pt && s'.mm == s.mm && s'.todo == s.todo
    ensures s'.th == s.th[h := Run(s.th[h].op, Final)]
    decreases Rank(s)
  {
    s' := OwnerTurn(s0, s, h);
    if s'.th[h] != Run(s.th[h].op, Final) {
      s' := FinishShootdown(s0, s', h);
    }
  }

  /** Without an owner no handler runs. */
  lemma NobodyOwns(s: State)
    requires Reachable(s) && !s.crashed && Wf(s)
    requires forall c :: 0 <= c < |s.th| ==> !OwnsMaster(s.th[c])
    ensures Quiet(s) && !s.list.master
  {
    ReachableInv(s);
    var b :| Handshake(s, b) && Coherence(s);
    assert b == None;
  }

  /** CPU a clears its pages and has the list of the shootdown. */
  lemma RangeToShootdown(s0: State, a: Cpu, op: Op) returns (s: State)
    requires Init(s0) && a < |s0.th| && s0.todo[a] != [] && s0.todo[a][0] == op && op.UnmapRange?
    ensures Leads(s0, s) && !s.crashed && |s.th| == |s0.th| && s.mm == None && s.th[a] == Run(op, Fill)
    ensures forall d :: 0 <= d < |s.th| && d != a ==> s.th[d] == Idle && s.todo[d] == s0.todo[d]
    ensures forall q :: q in PagesOf(op) ==> !Present(s.pt, q)
  {
    LeadsHere(s0);
    var s1 := ClearPages(s0, s0, a, op);
    forall d | 0 <= d < |s0.th| && d != a ensures s1.th[d] == Idle && s1.todo[d] == s0.todo[d] {
      assert SameCpu(s0, s1, d);
    }
    LeadsNext(s0, s1, Step(a));
    s := Apply(s1, Step(a));
  }

  /** CPU a unmaps its range and stands before the last access of `unmap_range`. */
  lemma RangeToLast(s0: State, a: Cpu, op: Op) returns (s: State)
    requires Init(s0) && a < |s0.th| && s0.todo[a] != [] && s0.todo[a][0] == op && op.UnmapRange?
    ensures Leads(s0, s) && !s.crashed && |s.th| == |s0.th| && s.mm == None && Quiet(s)
    ensures s.th[a] == Run(op, Final)
    ensures forall d :: 0 <= d < |s.th| && d != a ==> s.th[d] == Idle && s.todo[d] == s0.todo[d]
    ensures forall q :: q in PagesOf(op) ==> !Present(s.pt, q)
  {
    var s1 := RangeToShootdown(s0, a, op);
    s := FinishShootdown(s0, s1, a);
    NobodyOwns(s);
  }

  /** While CPU a stands before its last access, CPU b sets flags on a page that is not
      present, a loads the entry, and b unmaps a range that holds the page. */
  lemma MeanwhileOther(s0: State, s: State, a: Cpu, b: Cpu, flags: Op, range: Op) returns (s': State)
    requires Leads(s0, s) && !s.crashed && a < |s.th| && b < |s.th| && a != b && s.mm == None && Quiet(s)
    requires s.th[b] == Idle && |s.todo[b]| >= 2 && s.todo[b][0] == flags && s.todo[b][1] == range
    requires flags.SetFlags? && flags.present && range.UnmapRange? && flags.page in PagesOf(range)
    requires !Present(s.pt, flags.page)
    ensures Leads(s0, s') && !s'.crashed && |s'.th| == |s.th| && s'.mm == None && s'.hd == s.hd
    ensures s'.th[a] == s.th[a] && flags.page in s'.tlb[a] && !Present(s'.pt, flags.page)
  {
    var s1 := TakeQuickPath(s0, s, b, flags);
    var s2 := QuickReturn(s0, s1, b, flags);
    assert SameCpu(s, s1, a) && SameCpu(s1, s2, a);
    var s3 := RefillBy(s0, s2, a, flags.page);
    assert SameCpu(s2, s3, b);
    s' := ClearPages(s0, s3, b, range);
    assert SameCpu(s3, s', a);
  }

  /** A second CPU that sets flags on a page of the range, which is not present any more, and
      then unmaps it again, leaves CPU a with an old translation when a returns. */
  lemma UnmapRangeRace(s0: State, a: Cpu, b: Cpu) returns (s: State)
    requires Init(s0) && a < |s0.th| && b < |s0.th| && a != b
    requires s0.todo[a] != [] && s0.todo[a][0].UnmapRange?
    requires |s0.todo[b]| >= 2 && s0.todo[b][0].SetFlags? && s0.todo[b][0].present
    requires s0.todo[b][1].UnmapRange?
    requires s0.todo[b][0].page in PagesOf(s0.todo[a][0]) && s0.todo[b][0].page in PagesOf(s0.todo[b][1])
    ensures Leads(s0, s) && !s.crashed && |s.th| == |s0.th|
    ensures s.th[a] == Run(s0.todo[a][0], Return) && Stale(s, a, s0.todo[b][0].page)
  {
    var s1 := RangeToLast(s0, a, s0.todo[a][0]);
    var s2 := MeanwhileOther(s0, s1, a, b, s0.todo[b][0], s0.todo[b][1]);
    s := LastAccess(s0, s2, a, s0.todo[a][0]);
  }

  /** `unmap_range` of a returns while some CPU has an old translation of p. */
  ghost predicate RangeStale(s0: State, s: State, a: Cpu, op: Op, p: Page) {
    && Init(s0) && Leads(s0, s) && !s.crashed && a < |s.th| && s.th[a] == Run(op, Return)
    && exists c :: 0 <= c < |s.th| && Stale(s, c, p)
  }

  lemma NoRangeRace(s0: State, s: State, a: Cpu, b: Cpu, first: Op, flags: Op, second: Op)
    requires s0.todo == Lists(|s0.todo|, a, b, first, [flags, second])
    requires a != b && first.UnmapRange? && second.UnmapRange? && flags.SetFlags? && flags.page in PagesOf(first)
    requires !(flags.present && flags.page in PagesOf(second))
    ensures !RangeStale(s0, s, a, first, flags.page)
  {
    if RangeStale(s0, s, a, first, flags.page) {
      var c :| 0 <= c < |s.th| && Stale(s, c, flags.page);
      if flags.present {
        RangeAlone(s0, s, a, c, flags.page);
      } else {
        RangeStaysUnmapped(s0, s, a, c, flags.page);
      }
    }
  }

  /** When another CPU sets flags on a page of the range and then unmaps a range of its own,
      `unmap_range` can return with an old translation of that page in use exactly when those
      flags make it present again and the second range holds it as well. */
  lemma UnmapRangeIff(n: nat, a: Cpu, b: Cpu, first: Op, flags: Op, second: Op)
    requires a < n && b < n && a != b && first.UnmapRange? && second.UnmapRange?
    requires flags.SetFlags? && flags.page in PagesOf(first)
    ensures (exists s0: State, s: State :: s0.todo == Lists(n, a, b, first, [flags, second])
                                           && RangeStale(s0, s, a, first, flags.page))
            <==> flags.present && flags.page in PagesOf(second)
  {
    var todo := Lists(n, a, b, first, [flags, second]);
    if flags.present && flags.page in PagesOf(second) {
      var s0 := Start(n, map[], todo);
      StartInit(n, map[], todo);
      var s := UnmapRangeRace(s0, a, b);
      assert s0.todo == todo && RangeStale(s0, s, a, first, flags.page);
    } else {
      forall s0: State, s: State | s0.todo == todo ensures !RangeStale(s0, s, a, first, flags.page) {
        NoRangeRace(s0, s, a, b, first, flags, second);
      }
    }
  }
}
