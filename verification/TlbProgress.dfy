/**
 Progress of the shootdown protocol: no reachable state is stuck, and the number
 of accesses that any run can make is bounded before it starts, so every
 shootdown ends whatever the interleaving.
 */
module TlbProgress {
  import opened Options
  import opened TlbMachine
  import opened TlbHandshake
  import opened TlbCoherence

  /** Every operation has returned and no interrupt is left to serve. */
  ghost predicate Finished(s: State)
    requires Wf(s)
  {
    Quiet(s) && forall c :: 0 <= c < |s.th| ==> s.th[c] == Idle && s.todo[c] == []
  }

  /** Accesses of the program, as opposed to what a TLB does on its own. */
  predicate IsAccess(l: Label) {
    l.Deliver? || l.Handle? || l.Step?
  }

  // ---------------------------------------------------------------- no deadlock

  lemma OwnerCanMove(s: State, h: Cpu) returns (l: Label)
    requires Handshake(s, Some(h)) && !s.crashed
    ensures IsAccess(l) && Enabled(s, l) && (l.Step? ==> l.c == h)
  {
    if c :| 0 <= c < |s.th| && s.hd[c] != Off {
      l := Handle(c);
    } else if s.ipi != {} {
      var c :| c in s.ipi;
      l := Deliver(c);
    } else {
      QuietSets(s);
      if s.th[h].pc.Await? {
        forall c | 0 <= c < |s.th| ensures !Owes(s, c) {
          assert c != h ==> !OwnsMaster(s.th[c]);
        }
        assert Owed(s) == {};
      }
      l := Step(h);
    }
  }

  /** Some CPU has a non-spinning access in every state that is not finished. */
  lemma NoDeadlock(s: State) returns (l: Label)
    requires Inv(s) && !s.crashed && !Finished(s)
    ensures IsAccess(l) && Enabled(s, l)
  {
    var b :| Handshake(s, b) && Coherence(s);
    if b.Some? {
      l := OwnerCanMove(s, b.value);
    } else if s.mm.Some? {
      assert OwnsMap(s.th[s.mm.value]) && !OwnsMaster(s.th[s.mm.value]);
      l := Step(s.mm.value);
    } else {
      var c :| 0 <= c < |s.th| && !(s.th[c] == Idle && s.todo[c] == []);
      assert !OwnsMap(s.th[c]) && !OwnsMaster(s.th[c]);
      l := Step(c);
    }
  }

  // ---------------------------------------------------------------- rank

  /** What one CPU may have to do for the shootdown of op. */
  function Budget(op: Op): nat {
    9 + |FlushList(ContentOf(op))|
  }

  /** What is left to do from pc on; x is for all CPUs, y for the handler called here. */
  function PcRank(pc: Pc, left: nat, x: nat, y: nat): nat {
    match pc
    case WantMap => 18 + x + 2 * left
    case Edit(k) => 17 + x + (if k <= left then 2 * (left - k) else 0)
    case Invlpg(k) => 16 + x + (if k <= left then 2 * (left - k) else 0)
    case WantMaster => 16 + x
    case Fill => 15 + x
    case Publish => 14 + x
    case WantSync => 13 + x
    case Store => 12 + x
    case Send => 11 + x
    case Call => 10 + y
    case InCall => 9
    case Await => 8
    case Unlock => 7
    case Drain => 6
    case Unguest => 5
    case Wipe => 4
    case Release => 3
    case Final => 2
    case Return => 1
    case Quick => 1
    case Mapped => 1
  }

  function ThreadRank(t: Thread, n: nat): nat {
    match t
    case Idle => 0
    case Run(op, pc) => PcRank(pc, |PagesOf(op)|, Budget(op) + n * Budget(op), Budget(op))
  }

  function TodoRank(ops: seq<Op>, n: nat): nat {
    if ops == [] then 0 else ThreadRank(Run(ops[0], WantMap), n) + 1 + TodoRank(ops[1..], n)
  }

  function HandlerRank(h: Handler, pending: bool, flushes: nat): nat {
    match h
    case Off => if pending then 8 + flushes else 0
    case Check => 7 + flushes
    case LoadMaster => 6 + flushes
    case LoadGuest(_) => 5 + flushes
    case Enter => 4 + flushes
    case Flush(k) => if k <= flushes then 3 + flushes - k else 3
    case Leave => 2
    case Shoot => 1
  }

  function Flushes(data: Option<Content>): nat {
    if data.Some? then |FlushList(data.value)| else 0
  }

  function Sum(a: seq<nat>): nat {
    if a == [] then 0 else a[0] + Sum(a[1..])
  }

  function ThreadRanks(s: State): seq<nat>
    requires Wf(s)
  {
    seq(|s.th|, c requires 0 <= c < |s.th| =>
      ThreadRank(s.th[c], |s.th|) + TodoRank(s.todo[c], |s.th|))
  }

  function HandlerRanks(s: State): seq<nat>
    requires Wf(s)
  {
    seq(|s.th|, c requires 0 <= c < |s.th| =>
      HandlerRank(s.hd[c], c in s.ipi, Flushes(s.list.data)))
  }

  function Rank(s: State): nat
    requires Wf(s)
  {
    Sum(ThreadRanks(s)) + Sum(HandlerRanks(s))
  }

  lemma {:induction false} SumUpdate(a: seq<nat>, c: nat, x: nat)
    requires c < |a|
    ensures Sum(a[c := x]) == Sum(a) - a[c] + x
  {
    if c == 0 {
      assert a[c := x][1..] == a[1..];
    } else {
      SumUpdate(a[1..], c - 1, x);
      assert a[c := x][1..] == a[1..][c - 1 := x];
    }
  }

  lemma {:induction false} SumBound(a: seq<nat>, k: nat)
    requires forall i :: 0 <= i < |a| ==> a[i] <= k
    ensures Sum(a) <= |a| * k
  {
    if a != [] {
      SumBound(a[1..], k);
    }
  }

  // ---------------------------------------------------------------- the rank falls

  lemma PcRankFalls(t: Thread, pt: map<Page, Pte>, z: nat, y: nat)
    requires t.Run? && Shape(t)
    ensures var t' := ThreadAfter(t, pt); var left := |PagesOf(t.op)|;
            t'.Run? ==>
              && t'.op == t.op
              && PcRank(t'.pc, left, y + z, y) < PcRank(t.pc, left, y + z, y)
              && (t.pc.Send? ==> PcRank(t'.pc, left, y + z, y) + z < PcRank(t.pc, left, y + z, y))
              && (t.pc.Call? ==> PcRank(t'.pc, left, y + z, y) + y < PcRank(t.pc, left, y + z, y))
    ensures PcRank(t.pc, |PagesOf(t.op)|, y + z, y) > 0
    ensures t.pc.Send? || t.pc.Call? ==> ThreadAfter(t, pt).Run?
  {
  }

  lemma RunRank(t: Thread, n: nat)
    requires t.Run?
    ensures ThreadRank(t, n) == PcRank(t.pc, |PagesOf(t.op)|, Budget(t.op) + n * Budget(t.op), Budget(t.op))
  {
  }

  lemma FallsBy(t: Thread, t': Thread, n: nat, z: nat, y: nat)
    requires t.Run? && y == Budget(t.op) && z == n * Budget(t.op)
    requires t'.Run? ==> t'.op == t.op
    ensures var left := |PagesOf(t.op)|;
            ThreadRank(t', n) == (if t'.Run? then PcRank(t'.pc, left, y + z, y) else 0)
            && ThreadRank(t, n) == PcRank(t.pc, left, y + z, y)
  {
    RunRank(t, n);
    if t'.Run? {
      RunRank(t', n);
    }
  }

  /** How far the rank of a moving thread falls; enough to pay for the handlers it starts. */
  lemma ThreadRankFalls(t: Thread, pt: map<Page, Pte>, n: nat)
    requires t.Run? && Shape(t)
    ensures ThreadRank(ThreadAfter(t, pt), n) < ThreadRank(t, n)
    ensures t.pc.Send? ==>
              ThreadRank(ThreadAfter(t, pt), n) + n * Budget(t.op) < ThreadRank(t, n)
    ensures t.pc.Call? ==> ThreadRank(ThreadAfter(t, pt), n) + Budget(t.op) < ThreadRank(t, n)
  {
    var z, y := n * Budget(t.op), Budget(t.op);
    PcRankFalls(t, pt, z, y);
    FallsBy(t, ThreadAfter(t, pt), n, z, y);
  }

  lemma SumMoved(a: seq<nat>, a': seq<nat>, c: nat)
    requires |a'| == |a| && c < |a|
    requires forall d :: 0 <= d < |a| && d != c ==> a'[d] == a[d]
    ensures Sum(a') == Sum(a) - a[c] + a'[c]
  {
    assert a' == a[c := a'[c]];
    SumUpdate(a, c, a'[c]);
  }

  /** One CPU's thread moved: the sum moves with it. */
  lemma ThreadRanksMoved(s: State, s': State, c: Cpu)
    requires Wf(s) && Wf(s') && |s'.th| == |s.th| && c < |s.th|
    requires s'.th == s.th[c := s'.th[c]] && s'.todo == s.todo[c := s'.todo[c]]
    ensures Sum(ThreadRanks(s')) ==
            Sum(ThreadRanks(s)) - ThreadRanks(s)[c] + ThreadRanks(s')[c]
  {
    forall d | 0 <= d < |s.th| && d != c ensures ThreadRanks(s')[d] == ThreadRanks(s)[d] {
      assert s'.th[d] == s.th[d] && s'.todo[d] == s.todo[d];
    }
    SumMoved(ThreadRanks(s), ThreadRanks(s'), c);
  }

  /** One CPU's handler moved and the content stayed. */
  lemma HandlerRanksMoved(s: State, s': State, c: Cpu)
    requires Wf(s) && Wf(s') && |s'.th| == |s.th| && c < |s.th|
    requires s'.hd == s.hd[c := s'.hd[c]] && s'.list.data == s.list.data
    requires forall d :: 0 <= d < |s.th| && d != c ==> (d in s'.ipi <==> d in s.ipi)
    ensures Sum(HandlerRanks(s')) ==
            Sum(HandlerRanks(s)) - HandlerRanks(s)[c] + HandlerRanks(s')[c]
  {
    SumMoved(HandlerRanks(s), HandlerRanks(s'), c);
  }

  lemma ThreadSum(s: State, c: Cpu)
    requires Wf(s) && Enabled(s, Step(c)) && !Apply(s, Step(c)).crashed && Shape(s.th[c])
    ensures var d := Sum(ThreadRanks(s)) - Sum(ThreadRanks(Apply(s, Step(c))));
            && d >= 1
            && (s.th[c].Run? && s.th[c].pc.Send? ==> d > |s.th| * Budget(s.th[c].op))
            && (s.th[c].Run? && s.th[c].pc.Call? ==> d > Budget(s.th[c].op))
  {
    var s' := Apply(s, Step(c));
    ThreadRanksMoved(s, s', c);
    if s.th[c].Run? {
      ThreadRankFalls(s.th[c], s.pt, |s.th|);
      assert s'.th[c] == ThreadAfter(s.th[c], s.pt);
    }
  }

  lemma QuietSum(s: State)
    requires Wf(s) && Quiet(s)
    ensures Sum(HandlerRanks(s)) == 0
  {
    SumBound(HandlerRanks(s), 0);
  }

  lemma SendSum(s: State, s': State, c: Cpu)
    requires Handshake(s, Some(c)) && s.th[c].pc.Send? && OwnerMove(s, s', c)
    ensures Sum(HandlerRanks(s')) <= |s.th| * Budget(s.th[c].op)
  {
    SumBound(HandlerRanks(s'), Budget(s.th[c].op));
  }

  lemma OwnerSum(s: State, s': State, c: Cpu)
    requires Handshake(s, Some(c)) && ThreadEnabled(s, c) && OwnerMove(s, s', c)
    requires !s.th[c].pc.Send?
    ensures var d := Sum(HandlerRanks(s')) - Sum(HandlerRanks(s));
            if s.th[c].pc.Call? then d <= Budget(s.th[c].op) else d == 0
  {
    if s.th[c].pc.Call? {
      HandlerRanksMoved(s, s', c);
    } else if Collecting(s.th[c]) {
      assert HandlerRanks(s') == HandlerRanks(s);
    } else {
      QuietSum(s);
      QuietSum(s');
    }
  }

  /** The handlers that a thread's access starts cost less than the thread paid. */
  lemma HandlerSum(s: State, b: Option<Cpu>, c: Cpu)
    requires Handshake(s, b) && Enabled(s, Step(c)) && !Apply(s, Step(c)).crashed
    ensures var d := Sum(HandlerRanks(Apply(s, Step(c)))) - Sum(HandlerRanks(s));
            if s.th[c].Run? && s.th[c].pc.Send? then d <= |s.th| * Budget(s.th[c].op)
            else if s.th[c].Run? && s.th[c].pc.Call? then d <= Budget(s.th[c].op)
            else d == 0
  {
    assert Shape(s.th[c]);
    if !OwnsMaster(s.th[c]) {
      OutsideFrame(s, c);
      assert HandlerRanks(Apply(s, Step(c))) == HandlerRanks(s);
    } else {
      OwnerFrame(s, c);
      if s.th[c].pc.Send? {
        SendSum(s, Apply(s, Step(c)), c);
      } else {
        OwnerSum(s, Apply(s, Step(c)), c);
      }
    }
  }

  lemma HandlerRankFalls(h: Handler, list: ListMutex, pending: bool)
    requires h != Off && list.data.Some? && HandlerOk(h, list.data.value) && list.guest >= 1
    ensures HandlerRank(HandlerAfter(h, list), false, Flushes(list.data))
            < HandlerRank(h, pending, Flushes(list.data))
  {
  }

  lemma HandleFalls(s: State, b: Option<Cpu>, c: Cpu)
    requires Handshake(s, b) && Enabled(s, Handle(c))
    ensures Rank(Apply(s, Handle(c))) < Rank(s)
  {
    var s' := Apply(s, Handle(c));
    HandlerHasOwner(s, b, c);
    HandlerFrame(s, b, c);
    HandlerRankFalls(s.hd[c], s.list, c in s.ipi);
    assert c !in s.ipi;
    assert ThreadRanks(s') == ThreadRanks(s);
    HandlerRanksMoved(s, s', c);
  }

  lemma DeliverFalls(s: State, c: Cpu)
    requires Wf(s) && Enabled(s, Deliver(c))
    ensures Rank(Apply(s, Deliver(c))) < Rank(s)
  {
    var s' := Apply(s, Deliver(c));
    assert ThreadRanks(s') == ThreadRanks(s);
    HandlerRanksMoved(s, s', c);
  }

  /** Every access of the program lowers the rank; a TLB load or eviction keeps it. */
  lemma RankFalls(s: State, l: Label)
    requires Inv(s) && Enabled(s, l) && !Apply(s, l).crashed
    ensures IsAccess(l) ==> Rank(Apply(s, l)) < Rank(s)
    ensures !IsAccess(l) ==> Rank(Apply(s, l)) == Rank(s)
  {
    var b :| Handshake(s, b) && Coherence(s);
    match l
    case Deliver(c) => DeliverFalls(s, c);
    case Handle(c) => HandleFalls(s, b, c);
    case Step(c) => assert Shape(s.th[c]); ThreadSum(s, c); HandlerSum(s, b, c);
    case _ =>
      assert ThreadRanks(Apply(s, l)) == ThreadRanks(s);
      assert HandlerRanks(Apply(s, l)) == HandlerRanks(s);
  }
}
