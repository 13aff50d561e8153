/**
 The handshake of the two shootdown locks: who may be where, what `guest` and
 `count` are worth, and when the content is there to be read.  The invariant is
 kept by every label of every CPU.
 */
module TlbHandshake {
  import opened Options
  import opened TlbMachine

  // ---------------------------------------------------------------- phases

  /** From the compare-exchange on `master` to the store that releases it. */
  predicate OwnsMaster(t: Thread) {
    t.Run? && (t.pc.Fill? || t.pc.Publish? || Guested(t) || t.pc.Wipe? || t.pc.Release?)
  }

  /** The owner's own unit of `guest` is counted. */
  predicate Guested(t: Thread) {
    t.Run? && (t.pc.WantSync? || OwnsSync(t) || t.pc.Drain? || t.pc.Unguest?)
  }

  predicate OwnsSync(t: Thread) {
    t.Run? && (t.pc.Store? || t.pc.Send? || Collecting(t) || t.pc.Unlock?)
  }

  /** The interrupts are out and the owner waits for the count. */
  predicate Collecting(t: Thread) {
    t.Run? && (t.pc.Call? || t.pc.InCall? || t.pc.Await?)
  }

  predicate Published(t: Thread) {
    t.Run? && (t.pc.Publish? || Guested(t) || t.pc.Wipe?)
  }

  predicate OwnsMap(t: Thread) {
    t.Run? && (t.pc.Edit? || t.pc.Invlpg? || t.pc.Return? || t.pc.Quick? || t.pc.Mapped?
               || (Keeps(t.op) && (t.pc.WantMaster? || OwnsMaster(t) || t.pc.Final?)))
  }

  /** Positions that the operation can be in at all. */
  predicate Shape(t: Thread) {
    t.Run? ==>
      && (t.pc.Edit? ==> t.pc.k <= |PagesOf(t.op)|)
      && (t.pc.Invlpg? ==> t.pc.k < |PagesOf(t.op)|)
      && (t.pc.Quick? ==> t.op.SetFlags?)
      && (t.pc.Mapped? ==> t.op.MapPage?)
      && (t.op.MapPage? ==> t.pc.WantMap? || t.pc.Edit? || t.pc.Mapped?)
  }

  // ---------------------------------------------------------------- counted sets

  /** The handler of c is inside the visited region. */
  predicate Visiting(h: Handler) {
    h.Flush? || h.Leave?
  }

  function Visitors(s: State): set<Cpu>
    requires Wf(s)
  {
    set c | c in Ids(|s.th|) && Visiting(s.hd[c])
  }

  /** c still has to call `shoot` for the shootdown in progress. */
  predicate Owes(s: State, c: Cpu)
    requires Wf(s) && c < |s.th|
  {
    c in s.ipi || s.hd[c] != Off || (s.th[c].Run? && s.th[c].pc.Call?)
  }

  function Owed(s: State): set<Cpu>
    requires Wf(s)
  {
    set c | c in Ids(|s.th|) && Owes(s, c)
  }

  // ---------------------------------------------------------------- invariant

  predicate HandlerOk(h: Handler, ct: Content) {
    && (h.LoadGuest? ==> h.m)
    && (h.Flush? ==> h.k <= |FlushList(ct)|)
  }

  ghost predicate Locks(s: State, b: Option<Cpu>) {
    && Wf(s)
    && (forall c :: 0 <= c < |s.th| ==> Shape(s.th[c]))
    && (forall c :: 0 <= c < |s.th| ==> (OwnsMap(s.th[c]) <==> s.mm == Some(c)))
    && (forall c :: 0 <= c < |s.th| ==> (OwnsMaster(s.th[c]) <==> b == Some(c)))
    && (s.mm.Some? ==> s.mm.value < |s.th|)
    && (b.Some? ==> b.value < |s.th|)
    && s.list.master == b.Some?
  }

  /** Nothing of a shootdown is under way on any CPU. */
  ghost predicate Quiet(s: State)
    requires Wf(s)
  {
    s.ipi == {} && forall c :: 0 <= c < |s.th| ==> s.hd[c] == Off
  }

  ghost predicate Exchange(s: State, h: Cpu)
    requires Wf(s) && h < |s.th|
  {
    var t := s.th[h];
    && OwnsMaster(t)
    && s.list.data == (if Published(t) then Some(ContentOf(t.op)) else None)
    && s.sync.lock == OwnsSync(t)
    && s.list.guest == (if Guested(t) then 1 else 0) + |Visitors(s)|
    && s.sync.count == (if t.pc.Send? then |s.th| else if Collecting(t) then |Owed(s)| else 0)
    && (!Collecting(t) ==> Quiet(s))
    && h !in s.ipi
    && (!t.pc.InCall? ==> s.hd[h] == Off)
    && (forall c :: c in s.ipi ==> 0 <= c < |s.th| && s.hd[c] == Off)
    && (forall c :: 0 <= c < |s.th| ==> HandlerOk(s.hd[c], ContentOf(t.op)))
  }

  /** `b` is the CPU that owns the shootdown list, if one does. */
  ghost predicate Handshake(s: State, b: Option<Cpu>) {
    && Locks(s, b)
    && match b
       case None => Quiet(s) && s.list.data == None && !s.sync.lock && s.list.guest == 0 && s.sync.count == 0
       case Some(h) => Exchange(s, h)
  }

  function NextOwner(s: State, l: Label, b: Option<Cpu>): Option<Cpu>
    requires Wf(s) && Enabled(s, l)
  {
    if l.Step? && s.th[l.c].Run? then
      if s.th[l.c].pc.WantMaster? then Some(l.c)
      else if s.th[l.c].pc.Release? then None
      else b
    else b
  }

  // ---------------------------------------------------------------- preservation

  lemma InitHandshake(s: State)
    requires Init(s)
    ensures Handshake(s, None)
  {
  }

  lemma QuietSets(s: State)
    requires Wf(s) && Quiet(s)
    ensures Visitors(s) == {}
    ensures (forall c :: 0 <= c < |s.th| ==> !(s.th[c].Run? && s.th[c].pc.Call?)) ==> Owed(s) == {}
  {
  }

  /** The CPU c moved and the two owners changed by c alone, if at all. */
  predicate MovedBy(s: State, s': State, b: Option<Cpu>, b': Option<Cpu>, c: Cpu)
    requires Wf(s) && c < |s.th|
  {
    && Wf(s') && |s'.th| == |s.th|
    && s'.th == s.th[c := s'.th[c]]
    && Shape(s'.th[c])
    && (OwnsMap(s'.th[c]) <==> s'.mm == Some(c))
    && (OwnsMaster(s'.th[c]) <==> b' == Some(c))
    && s'.list.master == b'.Some?
    && (s'.mm == s.mm || (s.mm == None && s'.mm == Some(c)) || (s.mm == Some(c) && s'.mm == None))
    && (b' == b || (b == None && b' == Some(c)) || (b == Some(c) && b' == None))
  }

  lemma LocksMoved(s: State, s': State, b: Option<Cpu>, b': Option<Cpu>, c: Cpu)
    requires Locks(s, b) && c < |s.th| && MovedBy(s, s', b, b', c)
    ensures Locks(s', b')
  {
  }

  /** How one access moves a thread between the phases. */
  lemma PhaseAfter(t: Thread, pt: map<Page, Pte>)
    requires t.Run? && Shape(t) && !Panics(pt, t)
    ensures var t' := ThreadAfter(t, pt);
            && Shape(t')
            && (OwnsMaster(t') <==> t.pc.WantMaster? || (OwnsMaster(t) && !t.pc.Release?))
            && (Published(t') <==> t.pc.Fill? || (Published(t) && !t.pc.Wipe?))
            && (Guested(t') <==> t.pc.Publish? || (Guested(t) && !t.pc.Unguest?))
            && (OwnsSync(t') <==> t.pc.WantSync? || (OwnsSync(t) && !t.pc.Unlock?))
            && (Collecting(t') <==> t.pc.Send? || (Collecting(t) && !t.pc.Await?))
  {
  }

  lemma MapAfter(t: Thread, pt: map<Page, Pte>, mm: Option<Cpu>, c: Cpu)
    requires t.Run? && Shape(t) && !Panics(pt, t)
    requires OwnsMap(t) <==> mm == Some(c)
    requires t.pc.WantMap? || (t.pc.Final? && t.op.UnmapRange?) ==> mm == None
    ensures OwnsMap(ThreadAfter(t, pt)) <==> MutexAfter(mm, t, c) == Some(c)
    ensures var m' := MutexAfter(mm, t, c);
            m' == mm || (mm == None && m' == Some(c)) || (mm == Some(c) && m' == None)
  {
  }

  lemma ThreadMoves(s: State, b: Option<Cpu>, c: Cpu)
    requires Locks(s, b) && Enabled(s, Step(c))
    requires !Apply(s, Step(c)).crashed
    ensures MovedBy(s, Apply(s, Step(c)), b, NextOwner(s, Step(c), b), c)
  {
    assert Shape(s.th[c]);
    if s.th[c].Run? {
      PhaseAfter(s.th[c], s.pt);
      MapAfter(s.th[c], s.pt, s.mm, c);
    }
  }

  /** A thread outside the owner's region leaves the data of both locks alone. */
  lemma OutsideThread(t: Thread, pt: map<Page, Pte>, list: ListMutex, sync: SyncCounter, n: nat)
    requires t.Run? && Shape(t) && !OwnsMaster(t) && !Panics(pt, t)
    ensures SyncAfter(sync, t, n) == sync && !t.pc.Send? && !t.pc.Call?
    ensures ListAfter(list, t) == if t.pc.WantMaster? then list.(master := true) else list
    ensures var t' := ThreadAfter(t, pt);
            && (t'.Run? ==> !t'.pc.Call?)
            && (OwnsMaster(t') <==> t.pc.WantMaster?)
            && (t.pc.WantMaster? ==> t'.pc.Fill?)
  {
    PhaseAfter(t, pt);
  }

  /** A step outside the owner's region leaves both locks' data and every handler alone. */
  lemma OutsideFrame(s: State, c: Cpu)
    requires Wf(s) && Enabled(s, Step(c)) && !OwnsMaster(s.th[c])
    requires Shape(s.th[c]) && !Apply(s, Step(c)).crashed
    ensures var s' := Apply(s, Step(c));
            && s'.hd == s.hd && s'.ipi == s.ipi && s'.sync == s.sync
            && s'.list == (if s.th[c].Run? && s.th[c].pc.WantMaster? then s.list.(master := true)
                           else s.list)
            && s.hd[c] == Off && s'.th == s.th[c := s'.th[c]]
            && (s'.th[c].Run? ==> !s'.th[c].pc.Call?)
            && (OwnsMaster(s'.th[c]) <==> s.th[c].Run? && s.th[c].pc.WantMaster?)
            && (s.th[c].Run? && s.th[c].pc.WantMaster? ==> s'.th[c].pc.Fill?)
  {
    if s.th[c].Run? {
      OutsideThread(s.th[c], s.pt, s.list, s.sync, |s.th|);
    }
  }

  lemma SameSets(s: State, s': State)
    requires Wf(s) && Wf(s') && |s.th| == |s'.th|
    requires forall c :: 0 <= c < |s.th| ==> Visiting(s.hd[c]) == Visiting(s'.hd[c])
    requires forall c :: 0 <= c < |s.th| ==> Owes(s, c) == Owes(s', c)
    ensures Visitors(s) == Visitors(s') && Owed(s) == Owed(s')
  {
  }

  lemma ExchangeOutside(s: State, s': State, h: Cpu, c: Cpu)
    requires Wf(s) && Wf(s') && |s'.th| == |s.th| && h < |s.th| && c < |s.th| && h != c
    requires Exchange(s, h) && s'.th == s.th[c := s'.th[c]]
    requires s'.hd == s.hd && s'.ipi == s.ipi && s'.list == s.list && s'.sync == s.sync
    requires !(s.th[c].Run? && s.th[c].pc.Call?) && !(s'.th[c].Run? && s'.th[c].pc.Call?)
    ensures Exchange(s', h)
  {
    SameSets(s, s');
  }

  lemma KeepOutside(s: State, b: Option<Cpu>, c: Cpu)
    requires Handshake(s, b) && Enabled(s, Step(c))
    requires !Apply(s, Step(c)).crashed && !OwnsMaster(s.th[c])
    requires Locks(Apply(s, Step(c)), NextOwner(s, Step(c), b))
    ensures Handshake(Apply(s, Step(c)), NextOwner(s, Step(c), b))
  {
    var s' := Apply(s, Step(c));
    OutsideFrame(s, c);
    if b.Some? {
      ExchangeOutside(s, s', b.value, c);
    } else if s.th[c].Run? && s.th[c].pc.WantMaster? {
      QuietSets(s');
    }
  }

  /** What the owner's next access changes, and that nothing else does. */
  predicate OwnerMove(s: State, s': State, c: Cpu)
    requires Wf(s) && c < |s.th| && s.th[c].Run?
  {
    var pc := s.th[c].pc;
    && Wf(s') && |s'.th| == |s.th|
    && s'.th == s.th[c := ThreadAfter(s.th[c], s.pt)]
    && s'.hd == (if pc.Call? then s.hd[c := Check] else s.hd)
    && s'.ipi == (if pc.Send? then s.ipi + Others(|s.th|, c) else s.ipi)
    && s'.list == ListAfter(s.list, s.th[c])
    && s'.sync == SyncAfter(s.sync, s.th[c], |s.th|)
  }

  lemma OwnerFrame(s: State, c: Cpu)
    requires Wf(s) && Enabled(s, Step(c)) && OwnsMaster(s.th[c])
    ensures OwnerMove(s, Apply(s, Step(c)), c)
  {
  }

  lemma ExchangeOwner(s: State, s': State, c: Cpu)
    requires Handshake(s, Some(c)) && ThreadEnabled(s, c) && OwnerMove(s, s', c)
    requires !Collecting(s.th[c]) && !s.th[c].pc.Send?
    requires Locks(s', if s.th[c].pc.Release? then None else Some(c))
    ensures Handshake(s', if s.th[c].pc.Release? then None else Some(c))
  {
    assert Shape(s.th[c]);
    PhaseAfter(s.th[c], s.pt);
    QuietSets(s);
    QuietSets(s');
  }

  /** Once the interrupts are out, every CPU owes one `shoot`. */
  lemma SendSets(s: State, s': State, c: Cpu)
    requires Wf(s) && c < |s.th| && Quiet(s) && s.th[c].Run? && s.th[c].pc.Send?
    requires OwnerMove(s, s', c)
    ensures Owed(s') == Ids(|s.th|) && Visitors(s') == {} && Visitors(s) == {}
  {
    assert s'.th[c].pc.Call?;
    forall d | d in Ids(|s.th|) ensures Owes(s', d) {
      assert d != c ==> d in s'.ipi;
    }
  }

  lemma ExchangeSend(s: State, s': State, c: Cpu)
    requires Wf(s) && c < |s.th| && Exchange(s, c) && s.th[c].Run? && s.th[c].pc.Send?
    requires OwnerMove(s, s', c)
    ensures Exchange(s', c)
  {
    SendSets(s, s', c);
    assert s'.th[c] == Run(s.th[c].op, Call);
    assert s'.list == s.list && s'.sync == s.sync && s'.hd == s.hd;
    assert s'.ipi == Others(|s.th|, c);
  }

  lemma NobodyOwes(s: State, c: Cpu)
    requires Handshake(s, Some(c)) && s.th[c].pc.Await? && s.sync.count == 0
    ensures Quiet(s)
  {
    assert Owed(s) == {};
    forall d | 0 <= d < |s.th| ensures s.hd[d] == Off && d !in s.ipi {
      assert d !in Owed(s);
    }
    assert s.ipi == {};
  }

  lemma ExchangeCollect(s: State, s': State, c: Cpu)
    requires Handshake(s, Some(c)) && ThreadEnabled(s, c) && OwnerMove(s, s', c)
    requires Collecting(s.th[c]) && Locks(s', Some(c))
    ensures Handshake(s', Some(c))
  {
    SameSets(s, s');
    if s.th[c].pc.Await? {
      NobodyOwes(s, c);
      QuietSets(s');
    }
  }

  lemma KeepThread(s: State, b: Option<Cpu>, c: Cpu)
    requires Handshake(s, b) && Enabled(s, Step(c))
    requires !Apply(s, Step(c)).crashed
    ensures Handshake(Apply(s, Step(c)), NextOwner(s, Step(c), b))
  {
    ThreadMoves(s, b, c);
    LocksMoved(s, Apply(s, Step(c)), b, NextOwner(s, Step(c), b), c);
    if !OwnsMaster(s.th[c]) {
      KeepOutside(s, b, c);
    } else {
      OwnerFrame(s, c);
      if s.th[c].pc.Send? {
        ExchangeSend(s, Apply(s, Step(c)), c);
      } else if Collecting(s.th[c]) {
        ExchangeCollect(s, Apply(s, Step(c)), c);
      } else {
        ExchangeOwner(s, Apply(s, Step(c)), c);
      }
    }
  }

  // ---------------------------------------------------------------- handlers

  /** Any running handler belongs to a shootdown whose owner is collecting. */
  lemma HandlerHasOwner(s: State, b: Option<Cpu>, c: Cpu)
    requires Handshake(s, b) && c < |s.th|
    requires s.hd[c] != Off || c in s.ipi
    ensures b.Some? && Collecting(s.th[b.value]) && c in Owed(s)
    ensures s.list.master && s.list.guest >= 1 && s.sync.count >= 1
    ensures s.list.data == Some(ContentOf(s.th[b.value].op))
    ensures Visiting(s.hd[c]) ==> c in Visitors(s) && s.list.guest >= 2
  {
    assert c in Owed(s);
    if Visiting(s.hd[c]) {
      assert c in Visitors(s);
    }
  }

  /** What the handler of CPU c changes for the shootdown of CPU b. */
  predicate HandlerMove(s: State, s': State, b: Cpu, c: Cpu) {
    && Wf(s) && Wf(s') && !s'.crashed && |s'.th| == |s.th| && b < |s.th| && c < |s.th| && s.th[b].Run?
    && s'.th == s.th && s'.mm == s.mm && s'.list.master == s.list.master && s'.ipi == s.ipi
    && s'.list.data == s.list.data && s'.sync.lock == s.sync.lock
    && s.hd[c] != Off && s'.hd == s.hd[c := s'.hd[c]]
    && (s'.hd[c] == Off <==> s.hd[c].Shoot?)
    && (Visiting(s'.hd[c]) <==> s.hd[c].Enter? || s.hd[c].Flush?)
    && HandlerOk(s'.hd[c], ContentOf(s.th[b].op))
    && s'.list.guest == s.list.guest + (if s.hd[c].Enter? then 1 else if s.hd[c].Leave? then -1 else 0)
    && s'.sync.count == s.sync.count - (if s.hd[c].Shoot? then 1 else 0)
  }

  lemma HandlerFrame(s: State, b: Option<Cpu>, c: Cpu)
    requires Handshake(s, b) && Enabled(s, Handle(c))
    ensures b.Some? && HandlerMove(s, Apply(s, Handle(c)), b.value, c)
  {
    HandlerHasOwner(s, b, c);
    assert HandlerOk(s.hd[c], ContentOf(s.th[b.value].op));
  }

  /** One handler moved: the counted sets change by that CPU alone. */
  lemma HandlerSets(s: State, s': State, c: Cpu)
    requires Wf(s) && Wf(s') && c < |s.th| && s'.th == s.th && s'.ipi == s.ipi
    requires s'.hd == s.hd[c := s'.hd[c]] && s.hd[c] != Off
    requires c !in s.ipi && !(s.th[c].Run? && s.th[c].pc.Call?)
    ensures Owed(s') == (if s'.hd[c] == Off then Owed(s) - {c} else Owed(s))
    ensures Visitors(s') ==
            (if Visiting(s'.hd[c]) then Visitors(s) + {c} else Visitors(s) - {c})
  {
  }

  lemma KeepHandlerMove(s: State, s': State, b: Cpu, c: Cpu)
    requires Handshake(s, Some(b)) && HandlerMove(s, s', b, c)
    ensures Handshake(s', Some(b))
  {
    HandlerHasOwner(s, Some(b), c);
    assert c != b ==> !OwnsMaster(s.th[c]);
    HandlerSets(s, s', c);
  }

  lemma KeepHandler(s: State, b: Option<Cpu>, c: Cpu)
    requires Handshake(s, b) && Enabled(s, Handle(c))
    ensures Handshake(Apply(s, Handle(c)), b)
  {
    HandlerFrame(s, b, c);
    KeepHandlerMove(s, Apply(s, Handle(c)), b.value, c);
  }

  lemma KeepDeliver(s: State, b: Option<Cpu>, c: Cpu)
    requires Handshake(s, b) && Enabled(s, Deliver(c))
    ensures Handshake(Apply(s, Deliver(c)), b)
  {
    HandlerHasOwner(s, b, c);
    SameSets(s, Apply(s, Deliver(c)));
  }

  lemma KeepTlbMove(s: State, b: Option<Cpu>, l: Label)
    requires Handshake(s, b) && Enabled(s, l) && (l.Refill? || l.Evict?)
    ensures Handshake(Apply(s, l), b)
  {
    SameSets(s, Apply(s, l));
  }

  /** Every label keeps the handshake. */
  lemma KeepHandshake(s: State, b: Option<Cpu>, l: Label)
    requires Handshake(s, b) && Enabled(s, l)
    requires !Apply(s, l).crashed
    ensures Handshake(Apply(s, l), NextOwner(s, l, b))
  {
    match l
    case Refill(_, _) => KeepTlbMove(s, b, l);
    case Evict(_, _) => KeepTlbMove(s, b, l);
    case Deliver(c) => KeepDeliver(s, b, c);
    case Handle(c) => KeepHandler(s, b, c);
    case Step(c) => KeepThread(s, b, c);
  }
}
