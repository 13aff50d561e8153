/**
 `unmap_range(..).clear()`: with the memory map's mutex that `unmap_range` returned with, the
 entries of the range are zeroed one by one, and no shootdown follows.  Any other CPU moves
 between two of these writes.
 */
module TlbClearing {
  import opened Options
  import opened TlbMachine
  import opened TlbHandshake
  import opened TlbCoherence
  import opened TlbTheorems
  import opened TlbLists
  import opened TlbRaces

  /** A step of another CPU or of a TLB, or the next entry zeroed. */
  datatype Act = Other(l: Label) | Zero

  /** The machine, and how many entries are zeroed. */
  datatype Clearing = Clearing(s: State, k: nat)

  predicate CanAct(x: Clearing, i: Cpu, pages: seq<Page>, act: Act)
    requires Wf(x.s)
  {
    match act
    case Other(l) => l != Step(i) && Enabled(x.s, l)
    case Zero => x.k < |pages| && !x.s.crashed
  }

  function Acted(x: Clearing, i: Cpu, pages: seq<Page>, act: Act): (r: Clearing)
    requires Wf(x.s) && CanAct(x, i, pages, act)
    ensures Wf(r.s) && |r.s.th| == |x.s.th|
  {
    match act
    case Other(l) => Clearing(Apply(x.s, l), x.k)
    case Zero => Clearing(x.s.(pt := x.s.pt - {pages[x.k]}), x.k + 1)
  }

  predicate Acts(x: Clearing, i: Cpu, pages: seq<Page>, acts: seq<Act>)
    requires Wf(x.s)
    decreases |acts|
  {
    acts == [] ||
    (CanAct(x, i, pages, acts[0]) && Acts(Acted(x, i, pages, acts[0]), i, pages, acts[1..]))
  }

  function AfterActs(x: Clearing, i: Cpu, pages: seq<Page>, acts: seq<Act>): (r: Clearing)
    requires Wf(x.s) && Acts(x, i, pages, acts)
    ensures Wf(r.s) && |r.s.th| == |x.s.th|
    decreases |acts|
  {
    if acts == [] then x else AfterActs(Acted(x, i, pages, acts[0]), i, pages, acts[1..])
  }

  /** CPU i unmapped its range in a run from s0, and then zeroed every entry of it. */
  ghost predicate ClearedBy(s0: State, s: State, i: Cpu, op: Op, acts: seq<Act>) {
    && Init(s0) && Leads(s0, s) && !s.crashed && i < |s.th| && op.UnmapRange? && s.th[i] == Run(op, Return)
    && Acts(Clearing(s, 0), i, PagesOf(op), acts)
    && AfterActs(Clearing(s, 0), i, PagesOf(op), acts).k == |PagesOf(op)|
  }

  // ---------------------------------------------------------------- when it is safe

  /** The page is not present and cached nowhere. */
  ghost predicate Gone(s: State, p: Page)
    requires Wf(s)
  {
    !Present(s.pt, p) && forall c :: 0 <= c < |s.th| ==> p !in s.tlb[c]
  }

  lemma KeepGone(s0: State, x: Clearing, i: Cpu, pages: seq<Page>, act: Act, p: Page)
    requires FromLists(s0, x.s) && !Presenter(s0.todo, p) && Gone(x.s, p) && CanAct(x, i, pages, act)
    ensures FromLists(s0, Acted(x, i, pages, act).s) && Gone(Acted(x, i, pages, act).s, p)
  {
    if act.Other? {
      KeepLists(s0, x.s, act.l);
      StaysAbsent(s0, x.s, act.l, p);
      forall c | 0 <= c < |x.s.th| ensures p !in Apply(x.s, act.l).tlb[c] {
        if p in Apply(x.s, act.l).tlb[c] {
          TlbOnlyGains(x.s, act.l, c, p);
        }
      }
    }
  }

  lemma {:induction false} ActsKeepGone(s0: State, x: Clearing, i: Cpu, pages: seq<Page>, acts: seq<Act>, p: Page)
    requires FromLists(s0, x.s) && !Presenter(s0.todo, p) && Gone(x.s, p) && Acts(x, i, pages, acts)
    ensures Gone(AfterActs(x, i, pages, acts).s, p)
    decreases |acts|
  {
    if acts != [] {
      KeepGone(s0, x, i, pages, acts[0], p);
      ActsKeepGone(s0, Acted(x, i, pages, acts[0]), i, pages, acts[1..], p);
    }
  }

  /** If no CPU is to make a page of the range present, then after `clear` no CPU can use it,
      whatever happened between the writes. */
  lemma ClearSafe(s0: State, s: State, i: Cpu, op: Op, acts: seq<Act>, p: Page)
    requires ClearedBy(s0, s, i, op, acts) && p in PagesOf(op) && !Presenter(s0.todo, p)
    ensures Gone(AfterActs(Clearing(s, 0), i, PagesOf(op), acts).s, p)
  {
    RangeStaysUnmapped(s0, s, i, i, p);
    forall c | 0 <= c < |s.th| ensures p !in s.tlb[c] {
      RangeStaysUnmapped(s0, s, i, c, p);
    }
    LeadsLists(s0, s);
    ActsKeepGone(s0, Clearing(s, 0), i, PagesOf(op), acts, p);
  }

  // ---------------------------------------------------------------- when it is not

  /** Zeroing the rest without a move of anybody else. */
  lemma {:induction false} ZeroRest(x: Clearing, i: Cpu, pages: seq<Page>) returns (acts: seq<Act>)
    requires Wf(x.s) && !x.s.crashed && x.k <= |pages|
    ensures Acts(x, i, pages, acts)
    ensures var r := AfterActs(x, i, pages, acts);
            && r.k == |pages| && r.s == x.s.(pt := r.s.pt) && (forall q :: q in pages[x.k..] ==> q !in r.s.pt)
            && (forall q :: q !in x.s.pt ==> q !in r.s.pt)
    decreases |pages| - x.k
  {
    if x.k == |pages| {
      acts := [];
    } else {
      var y := Acted(x, i, pages, Zero);
      var rest := ZeroRest(y, i, pages);
      acts := [Zero] + rest;
      assert acts[1..] == rest;
      assert pages[x.k..] == [pages[x.k]] + pages[x.k + 1..];
    }
  }

  /** CPU a stands before its last access; CPU b makes the page present, and a loads it. */
  lemma LoadedMeanwhile(s0: State, s: State, a: Cpu, b: Cpu, flags: Op) returns (s': State)
    requires Leads(s0, s) && !s.crashed && a < |s.th| && b < |s.th| && a != b && s.mm == None && Quiet(s)
    requires s.th[b] == Idle && s.todo[b] != [] && s.todo[b][0] == flags
    requires flags.SetFlags? && flags.present && !Present(s.pt, flags.page)
    ensures Leads(s0, s') && !s'.crashed && |s'.th| == |s.th| && s'.mm == None && s'.hd == s.hd
    ensures s'.th[a] == s.th[a] && flags.page in s'.tlb[a] && s'.th[b] == Idle
    ensures forall d :: 0 <= d < |s.th| && d != a && d != b ==> s'.th[d] == s.th[d]
  {
    var s1 := TakeQuickPath(s0, s, b, flags);
    var s2 := QuickReturn(s0, s1, b, flags);
    assert SameCpu(s, s1, a) && SameCpu(s1, s2, a);
    s' := RefillBy(s0, s2, a, flags.page);
    assert SameCpu(s2, s', b);
    forall d | 0 <= d < |s.th| && d != a && d != b ensures s'.th[d] == s.th[d] {
      assert SameCpu(s, s1, d) && SameCpu(s1, s2, d) && SameCpu(s2, s', d);
    }
  }

  /** `unmap_range` of a returns with the page in a's TLB, while every other CPU is idle. */
  lemma LoadedAtReturn(s0: State, a: Cpu, b: Cpu) returns (s: State)
    requires Init(s0) && a < |s0.th| && b < |s0.th| && a != b
    requires s0.todo[a] != [] && s0.todo[a][0].UnmapRange?
    requires s0.todo[b] != [] && s0.todo[b][0].SetFlags? && s0.todo[b][0].present
    requires s0.todo[b][0].page in PagesOf(s0.todo[a][0])
    ensures Leads(s0, s) && !s.crashed && |s.th| == |s0.th| && s.th[a] == Run(s0.todo[a][0], Return)
    ensures s0.todo[b][0].page in s.tlb[a]
    ensures forall d :: 0 <= d < |s.th| && d != a ==> s.th[d] == Idle
  {
    var s1 := RangeToLast(s0, a, s0.todo[a][0]);
    var s2 := LoadedMeanwhile(s0, s1, a, b, s0.todo[b][0]);
    s := LastAccess(s0, s2, a, s0.todo[a][0]);
    forall d | 0 <= d < |s.th| && d != a ensures s.th[d] == Idle {
      assert SameCpu(s2, s, d);
    }
  }

  /** From every start in which another CPU is to make a page of the range present, `clear` can
      leave CPU a with a translation of that page that the table does not have, and that no
      operation will flush. */
  lemma ClearRace(s0: State, a: Cpu, b: Cpu) returns (s: State, acts: seq<Act>)
    requires Init(s0) && a < |s0.th| && b < |s0.th| && a != b
    requires s0.todo[a] != [] && s0.todo[a][0].UnmapRange?
    requires s0.todo[b] != [] && s0.todo[b][0].SetFlags? && s0.todo[b][0].present
    requires s0.todo[b][0].page in PagesOf(s0.todo[a][0])
    ensures ClearedBy(s0, s, a, s0.todo[a][0], acts)
    ensures var r := AfterActs(Clearing(s, 0), a, PagesOf(s0.todo[a][0]), acts).s;
            var p := s0.todo[b][0].page;
            |r.th| == |s0.th| && Stale(r, a, p) && !Covered(r, a, p)
  {
    var op, p := s0.todo[a][0], s0.todo[b][0].page;
    s := LoadedAtReturn(s0, a, b);
    acts := ZeroRest(Clearing(s, 0), a, PagesOf(op));
    var r := AfterActs(Clearing(s, 0), a, PagesOf(op), acts).s;
    assert PagesOf(op)[0..] == PagesOf(op);
    CoversBeforeEnd(s.th[a]);
    assert p !in r.pt && p in r.tlb[a];
  }

  /** Some CPU has an old translation of p after `clear`. */
  ghost predicate ClearStale(s0: State, s: State, i: Cpu, op: Op, acts: seq<Act>, p: Page) {
    && ClearedBy(s0, s, i, op, acts)
    && var r := AfterActs(Clearing(s, 0), i, PagesOf(op), acts).s;
       exists c :: 0 <= c < |r.th| && Stale(r, c, p)
  }

  /** When another CPU sets flags on a page of the range, `clear` can leave an old translation
      of it exactly when those flags make it present. */
  lemma ClearIff(n: nat, a: Cpu, b: Cpu, range: Op, flags: Op)
    requires a < n && b < n && a != b && range.UnmapRange? && flags.SetFlags? && flags.page in PagesOf(range)
    ensures (exists s0: State, s: State, acts ::
               s0.todo == Lists(n, a, b, range, [flags]) && ClearStale(s0, s, a, range, acts, flags.page))
            <==> flags.present
  {
    var todo := Lists(n, a, b, range, [flags]);
    if flags.present {
      var s0 := Start(n, map[], todo);
      StartInit(n, map[], todo);
      var s, acts := ClearRace(s0, a, b);
      assert s0.todo == todo && ClearStale(s0, s, a, range, acts, flags.page);
    } else {
      forall s0: State, s: State, acts
        | s0.todo == todo && ClearStale(s0, s, a, range, acts, flags.page) ensures false
      {
        ClearSafe(s0, s, a, range, acts, flags.page);
      }
    }
  }
}
