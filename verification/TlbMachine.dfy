/**
 The TLB shootdown protocol of the kernel as a state machine.

 Every CPU runs a list of page-table operations.  A label names the CPU that
 moves next; one label is one atomic access of the source (a compare-exchange,
 a fetch-add, a store, one `invlpg`, one page-table-entry write).  Between any
 two labels a CPU may load a live entry into its TLB or lose one.
 */
module TlbMachine {
  import opened Options

  type Cpu = nat
  type Page = nat

  /** A raw page table entry; an entry that is all zero is absent from the table map. */
  datatype Pte = Pte(frame: nat, flags: nat, present: bool)

  /** What a shootdown asks every CPU to drop.  `end` is exclusive. */
  datatype Content = Short(page: Page) | Iter(start: Page, end: Page)

  /** The operations of the memory map that edit 4 KiB entries. */
  datatype Op =
    | UnmapPage(page: Page)
    | SetFlags(page: Page, flags: nat, present: bool)
    | UnmapRange(start: Page, len: nat)
    | MapPage(page: Page, pte: Pte)

  /** Where a CPU stands inside an operation: the access it makes next. */
  datatype Pc =
    | WantMap                // spin on the memory map's mutex
    | Edit(k: nat)           // k entries are already not-present and flushed here
    | Invlpg(k: nat)         // entry k is not-present, the local TLB still to be flushed
    | WantMaster             // spin on the shootdown list's `master`
    | Fill                   // write the content
    | Publish                // add the master's own `guest`
    | WantSync               // spin on the sync counter's lock
    | Store                  // store the CPU count
    | Send                   // interrupt every other CPU
    | Call                   // call the handler on this CPU
    | InCall                 // the handler runs on this CPU
    | Await                  // spin until the count is zero
    | Unlock                 // release the sync counter's lock
    | Drain                  // guard drop: spin while guests remain
    | Unguest                // remove the master's own `guest`
    | Wipe                   // reset the content
    | Release                // release `master`
    | Final                  // after the shootdown: second write, or take the mutex again
    | Return                 // release the mutex and return
    | Quick                  // `set_flags` met an entry that was not present
    | Mapped                 // `map_page` wrote its entry: local flush, then return

  datatype Thread = Idle | Run(op: Op, pc: Pc)

  /** The interrupt handler of a CPU: the access it makes next. */
  datatype Handler =
    | Off
    | Check                  // first load of `master`
    | LoadMaster
    | LoadGuest(m: bool)     // load of `guest`, after `master` was read as m
    | Enter                  // visitor's fetch-add on `guest`
    | Flush(k: nat)          // k addresses of the content are invalidated
    | Leave                  // visitor's fetch-sub on `guest`
    | Shoot                  // fetch-sub on `count`

  /** `ShootdownListMutex`: must be held by its master for the content to be read. */
  datatype ListMutex = ListMutex(master: bool, guest: int, data: Option<Content>)

  /** `ShootdownSyncCounter`. */
  datatype SyncCounter = SyncCounter(lock: bool, count: int)

  /** The live table, every CPU's TLB, the mutex of the memory map, the two shootdown
      locks, the pending interrupts, and each CPU's thread, handler and work list. */
  datatype State = State(
    pt: map<Page, Pte>,
    tlb: seq<map<Page, Pte>>,
    mm: Option<Cpu>,
    list: ListMutex,
    sync: SyncCounter,
    ipi: set<Cpu>,
    th: seq<Thread>,
    hd: seq<Handler>,
    todo: seq<seq<Op>>,
    crashed: bool)

  datatype Label =
    | Refill(c: Cpu, p: Page)
    | Evict(c: Cpu, p: Page)
    | Deliver(c: Cpu)
    | Handle(c: Cpu)
    | Step(c: Cpu)

  // ---------------------------------------------------------------- operations

  function Span(start: Page, len: nat): (r: seq<Page>)
    ensures |r| == len
    ensures forall i :: 0 <= i < len ==> r[i] == start + i
    ensures forall p :: p in r <==> start <= p < start + len
  {
    if len == 0 then [] else Span(start, len - 1) + [start + len - 1]
  }

  /** The CPUs 0 .. n - 1. */
  function Ids(n: nat): (r: set<Cpu>)
    ensures |r| == n
    ensures forall c :: c in r <==> 0 <= c < n
  {
    if n == 0 then {} else Ids(n - 1) + {n - 1}
  }

  /** The entries an operation makes not-present, in order. */
  function PagesOf(op: Op): seq<Page> {
    match op
    case UnmapPage(p) => [p]
    case SetFlags(p, _, _) => [p]
    case UnmapRange(start, len) => Span(start, len)
    case MapPage(_, _) => []
  }

  /** The message of the shootdown; a range is sent with one page too many at its end, and an
      empty one as if it were page 0. */
  function ContentOf(op: Op): Content {
    match op
    case UnmapPage(p) => Short(p)
    case SetFlags(p, _, _) => Short(p)
    case UnmapRange(start, len) => if len == 0 then Iter(0, 2) else Iter(start, start + len + 1)
    case MapPage(p, _) => Short(p)
  }

  function FlushList(ct: Content): seq<Page> {
    match ct
    case Short(p) => [p]
    case Iter(start, end) => if start < end then Span(start, end - start) else []
  }

  /** Operations that keep the memory map's mutex for the whole shootdown. */
  predicate Keeps(op: Op) {
    op.UnmapPage? || op.SetFlags?
  }

  /** `entry.set_flags`: an all-zero entry stays all-zero when its flags are cleared. */
  function WithFlags(pt: map<Page, Pte>, p: Page, flags: nat, present: bool): map<Page, Pte> {
    var frame := if p in pt then pt[p].frame else 0;
    if frame == 0 && flags == 0 && !present then pt - {p}
    else pt[p := Pte(frame, flags, present)]
  }

  function FrameAt(pt: map<Page, Pte>, p: Page): nat {
    if p in pt then pt[p].frame else 0
  }

  predicate Present(pt: map<Page, Pte>, p: Page) {
    p in pt && pt[p].present
  }

  // ---------------------------------------------------------------- one access

  /** The entry the edit loop reaches next. */
  predicate AtEntry(t: Thread) {
    t.Run? && t.pc.Edit? && t.pc.k < |PagesOf(t.op)|
  }

  /** The access makes the kernel panic: unmapping nothing, or mapping over an entry. */
  predicate Panics(pt: map<Page, Pte>, t: Thread) {
    && t.Run? && t.pc.Edit?
    && ((AtEntry(t) && t.op.UnmapPage? && t.op.page !in pt) || (t.op.MapPage? && t.op.page in pt))
  }

  /** `set_flags` on an entry that is not present skips the shootdown. */
  predicate TakesQuickPath(pt: map<Page, Pte>, t: Thread) {
    AtEntry(t) && t.op.SetFlags? && !Present(pt, t.op.page)
  }

  function ThreadAfter(t: Thread, pt: map<Page, Pte>): Thread
    requires t.Run?
  {
    var op := t.op;
    match t.pc
    case WantMap => Run(op, Edit(0))
    case Edit(k) =>
      if op.MapPage? then Run(op, Mapped)
      else if TakesQuickPath(pt, t) then Run(op, Quick)
      else if k < |PagesOf(op)| then Run(op, Invlpg(k))
      else Run(op, WantMaster)
    case Invlpg(k) => Run(op, Edit(k + 1))
    case WantMaster => Run(op, Fill)
    case Fill => Run(op, Publish)
    case Publish => Run(op, WantSync)
    case WantSync => Run(op, Store)
    case Store => Run(op, Send)
    case Send => Run(op, Call)
    case Call => Run(op, InCall)
    case InCall => Run(op, Await)
    case Await => Run(op, Unlock)
    case Unlock => Run(op, Drain)
    case Drain => Run(op, Unguest)
    case Unguest => Run(op, Wipe)
    case Wipe => Run(op, Release)
    case Release => Run(op, Final)
    case Final => Run(op, Return)
    case Return => Idle
    case Quick => Idle
    case Mapped => Idle
  }

  /** The live table after the access: `unmap` empties the entry, `unmap_range` and
      `set_flags` clear its flags, `set_flags` ends by writing the new ones. */
  function TableAfter(pt: map<Page, Pte>, t: Thread): map<Page, Pte>
    requires t.Run?
  {
    if AtEntry(t) then
      var p := PagesOf(t.op)[t.pc.k];
      if t.op.UnmapPage? then pt - {p}
      else if TakesQuickPath(pt, t) then WithFlags(pt, p, t.op.flags, t.op.present)
      else WithFlags(pt, p, 0, false)
    else if t.pc.Edit? && t.op.MapPage? then pt[t.op.page := t.op.pte]
    else if t.pc.Final? && t.op.SetFlags? then WithFlags(pt, t.op.page, t.op.flags, t.op.present)
    else pt
  }

  function MutexAfter(mm: Option<Cpu>, t: Thread, c: Cpu): Option<Cpu>
    requires t.Run?
  {
    if t.pc.WantMap? || (t.pc.Final? && t.op.UnmapRange?) then Some(c)
    else if t.pc.Return? || t.pc.Quick? || t.pc.Mapped? then None
    else if t.pc.Edit? && t.op.UnmapRange? && !AtEntry(t) then None
    else mm
  }

  function ListAfter(list: ListMutex, t: Thread): ListMutex
    requires t.Run?
  {
    match t.pc
    case WantMaster => list.(master := true)
    case Fill => list.(data := Some(ContentOf(t.op)))
    case Publish => list.(guest := list.guest + 1)
    case Unguest => list.(guest := list.guest - 1)
    case Wipe => list.(data := None)
    case Release => list.(master := false)
    case _ => list
  }

  function SyncAfter(sync: SyncCounter, t: Thread, cpus: nat): SyncCounter
    requires t.Run?
  {
    match t.pc
    case WantSync => sync.(lock := true)
    case Store => sync.(count := cpus)
    case Unlock => sync.(lock := false)
    case _ => sync
  }

  /** The local `invlpg` of the edit loop and of `map_page`. */
  function TlbAfter(tlb: map<Page, Pte>, t: Thread): map<Page, Pte>
    requires t.Run?
  {
    if t.pc.Invlpg? && t.pc.k < |PagesOf(t.op)| then tlb - {PagesOf(t.op)[t.pc.k]}
    else if t.pc.Mapped? && t.op.MapPage? then tlb - {t.op.page}
    else tlb
  }

  function HandlerAfter(h: Handler, list: ListMutex): Handler {
    match h
    case Off => Off
    case Check => LoadMaster
    case LoadMaster => LoadGuest(list.master)
    case LoadGuest(m) => if m && list.guest == 0 then LoadMaster else Enter
    case Enter => Flush(0)
    case Flush(k) =>
      if list.data.Some? && k < |FlushList(list.data.value)| then Flush(k + 1) else Leave
    case Leave => Shoot
    case Shoot => Off
  }

  function HandlerTlb(tlb: map<Page, Pte>, h: Handler, list: ListMutex): map<Page, Pte> {
    if h.Flush? && list.data.Some? && h.k < |FlushList(list.data.value)|
    then tlb - {FlushList(list.data.value)[h.k]}
    else tlb
  }

  // ---------------------------------------------------------------- labels

  predicate Wf(s: State) {
    |s.th| == |s.tlb| == |s.hd| == |s.todo| && |s.th| >= 1
  }

  /** A spinning CPU is one whose label is not enabled. */
  predicate ThreadEnabled(s: State, c: Cpu)
    requires Wf(s) && c < |s.th|
  {
    && s.hd[c] == Off
    && match s.th[c]
       case Idle => s.todo[c] != []
       case Run(op, pc) =>
         && (pc == WantMap ==> s.mm == None)
         && (pc == WantMaster ==> !s.list.master)
         && (pc == WantSync ==> !s.sync.lock)
         && (pc == Await ==> s.sync.count == 0)
         && (pc == Drain ==> s.list.guest <= 1)
         && (pc == Final && op.UnmapRange? ==> s.mm == None)
  }

  predicate Enabled(s: State, l: Label)
    requires Wf(s)
  {
    && !s.crashed
    && l.c < |s.th|
    && match l
       case Refill(c, p) => Present(s.pt, p)
       case Evict(c, p) => true
       case Deliver(c) => c in s.ipi && s.hd[c] == Off
       case Handle(c) => s.hd[c] != Off
       case Step(c) => ThreadEnabled(s, c)
  }

  function Others(n: nat, c: Cpu): set<Cpu> {
    Ids(n) - {c}
  }

  function ApplyThread(s: State, c: Cpu): (r: State)
    requires Wf(s) && c < |s.th| && ThreadEnabled(s, c)
    ensures Wf(r) && |r.th| == |s.th|
  {
    if s.th[c].Idle? then
      s.(th := s.th[c := Run(s.todo[c][0], WantMap)], todo := s.todo[c := s.todo[c][1..]])
    else
      var t := s.th[c];
      if Panics(s.pt, t) then s.(crashed := true)
      else State(
        TableAfter(s.pt, t),
        s.tlb[c := TlbAfter(s.tlb[c], t)],
        MutexAfter(s.mm, t, c),
        ListAfter(s.list, t),
        SyncAfter(s.sync, t, |s.th|),
        if t.pc.Send? then s.ipi + Others(|s.th|, c) else s.ipi,
        s.th[c := ThreadAfter(t, s.pt)],
        if t.pc.Call? then s.hd[c := Check] else s.hd,
        s.todo,
        false)
  }

  function ApplyHandler(s: State, c: Cpu): (r: State)
    requires Wf(s) && c < |s.th|
    ensures Wf(r) && |r.th| == |s.th|
  {
    var h := s.hd[c];
    if h.Check? && !s.list.master then s.(crashed := true)   // `visit()` gave None
    else s.(
      tlb := s.tlb[c := HandlerTlb(s.tlb[c], h, s.list)],
      hd := s.hd[c := HandlerAfter(h, s.list)],
      list := if h.Enter? then s.list.(guest := s.list.guest + 1)
              else if h.Leave? then s.list.(guest := s.list.guest - 1)
              else s.list,
      sync := if h.Shoot? then s.sync.(count := s.sync.count - 1) else s.sync)
  }

  function Apply(s: State, l: Label): (r: State)
    requires Wf(s) && Enabled(s, l)
    ensures Wf(r) && |r.th| == |s.th|
  {
    match l
    case Refill(c, p) =>
      var cached: map<Page, Pte> := s.tlb[c][p := s.pt[p]];
      s.(tlb := s.tlb[c := cached])
    case Evict(c, p) => s.(tlb := s.tlb[c := s.tlb[c] - {p}])
    case Deliver(c) => s.(hd := s.hd[c := Check], ipi := s.ipi - {c})
    case Handle(c) => ApplyHandler(s, c)
    case Step(c) => ApplyThread(s, c)
  }

  // ---------------------------------------------------------------- runs

  /** CPU c holds a cached translation of p that the table does not have. */
  predicate Stale(s: State, c: Cpu, p: Page)
    requires Wf(s) && c < |s.th|
  {
    p in s.tlb[c] && !(p in s.pt && s.pt[p].present && s.pt[p] == s.tlb[c][p])
  }

  /** Shootdowns are idle, no CPU is inside an operation, every TLB agrees with the table. */
  ghost predicate Init(s: State) {
    && Wf(s)
    && s.mm == None && s.list == ListMutex(false, 0, None) && s.sync == SyncCounter(false, 0)
    && s.ipi == {} && !s.crashed
    && (forall c :: 0 <= c < |s.th| ==> s.th[c] == Idle && s.hd[c] == Off)
    && (forall c, p :: 0 <= c < |s.th| && p in s.tlb[c] ==> !Stale(s, c, p))
  }

  /** The labels can be taken one after the other from s. */
  predicate Runs(s: State, ls: seq<Label>)
    requires Wf(s)
    decreases |ls|
  {
    ls == [] || (Enabled(s, ls[0]) && Runs(Apply(s, ls[0]), ls[1..]))
  }

  /** The state after the labels. */
  function After(s: State, ls: seq<Label>): (r: State)
    requires Wf(s) && Runs(s, ls)
    ensures Wf(r) && |r.th| == |s.th|
    decreases |ls|
  {
    if ls == [] then s else After(Apply(s, ls[0]), ls[1..])
  }
}
