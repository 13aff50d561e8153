/**
 The EHCI asynchronous schedule: a circular list of queue heads that the driver
 edits while the controller walks it (sections 4.8.1 and 4.8.2 of the EHCI
 specification 1.0).  The driver's `Vec` is the plain form; the horizontal links are
 what the controller follows.  The controller may take any number of links between
 two writes of the driver: `ticks(i)` links before its i-th write.
 */
module AsyncSchedule {

  /** The address of a queue head. */
  type Qh = nat

  type Links = map<Qh, Qh>

  // ---------------------------------------------------------------- following links

  /** The queue head after n links. */
  function Advance(next: Links, q: Qh, n: nat): Qh
    decreases n
  {
    if n == 0 then q else Advance(next, if q in next then next[q] else q, n - 1)
  }

  /** The list head is at most n links away. */
  predicate Reaches(next: Links, q: Qh, head: Qh, n: nat)
    decreases n
  {
    q == head || (n > 0 && q in next && Reaches(next, next[q], head, n - 1))
  }

  predicate Distinct(list: seq<Qh>) {
    forall i, j :: 0 <= i < j < |list| ==> list[i] != list[j]
  }

  predicate RingLink(list: seq<Qh>, next: Links, i: nat)
    requires i < |list|
  {
    list[i] in next && next[list[i]] == list[if i + 1 < |list| then i + 1 else 0]
  }

  /** The links are exactly the cyclic order of the list. */
  ghost predicate Ring(list: seq<Qh>, next: Links) {
    && |list| > 0 && Distinct(list)
    && forall i {:trigger RingLink(list, next, i)} :: 0 <= i < |list| ==> RingLink(list, next, i)
  }

  function Position(list: seq<Qh>, q: Qh): (i: nat)
    requires q in list
    ensures i < |list| && list[i] == q && q !in list[..i]
  {
    if list[0] == q then 0 else 1 + Position(list[1..], q)
  }

  // ---------------------------------------------------------------- removal in progress

  /** The first index from `from` on whose queue head is not being dropped; else the head. */
  function NextLive(list: seq<Qh>, gone: set<Qh>, from: nat): (j: nat)
    ensures |list| > 0 ==> j < |list|
    ensures j == 0 || (from <= j < |list| && list[j] !in gone)
    decreases |list| - from
  {
    if from >= |list| then 0
    else if list[from] !in gone then from
    else NextLive(list, gone, from + 1)
  }

  /** The last index before t whose queue head is not being dropped, given that one exists. */
  function PrevLive(list: seq<Qh>, gone: set<Qh>, t: nat): (j: nat)
    requires 0 < t <= |list| && list[0] !in gone
    ensures j < t && list[j] !in gone
    ensures forall i :: j < i < t ==> list[i] in gone
  {
    if list[t - 1] !in gone then t - 1 else PrevLive(list, gone, t - 1)
  }

  /** Links go forward or to the head, and those of live queue heads to the next live one. */
  predicate LinkOk(list: seq<Qh>, gone: set<Qh>, next: Links, i: nat)
    requires i < |list|
  {
    && list[i] in next
    && (next[list[i]] == list[0] || next[list[i]] in list[i + 1..])
    && (list[i] !in gone ==> next[list[i]] == list[NextLive(list, gone, i + 1)])
  }

  ghost predicate Linked(list: seq<Qh>, gone: set<Qh>, next: Links) {
    && |list| > 0 && Distinct(list) && list[0] !in gone
    && forall i {:trigger LinkOk(list, gone, next, i)} ::
         0 <= i < |list| ==> LinkOk(list, gone, next, i)
  }

  /** The link of q stays on the list and leads to its head within the list's length. */
  predicate LeadsHome(list: seq<Qh>, next: Links, q: Qh)
    requires |list| > 0
  {
    q in next && next[q] in list && Reaches(next, next[q], list[0], |list| - 1)
  }

  /** From every queue head of the list, dropped or not, the links lead back to the head. */
  ghost predicate Closed(list: seq<Qh>, next: Links) {
    && |list| > 0
    && forall q {:trigger LeadsHome(list, next, q)} :: q in list ==> LeadsHome(list, next, q)
  }

  /** Where the link of the queue head at i leads. */
  lemma LinkTarget(list: seq<Qh>, gone: set<Qh>, next: Links, i: nat) returns (j: nat)
    requires Linked(list, gone, next) && i < |list|
    ensures j < |list| && list[i] in next && next[list[i]] == list[j] && (j == 0 || j > i)
  {
    assert LinkOk(list, gone, next, i);
    j := 0;
    if next[list[i]] != list[0] {
      var k :| 0 <= k < |list[i + 1..]| && list[i + 1..][k] == next[list[i]];
      j := i + 1 + k;
    }
  }

  lemma {:induction false} ReachesForward(list: seq<Qh>, gone: set<Qh>, next: Links, i: nat)
    requires Linked(list, gone, next) && i < |list|
    ensures Reaches(next, list[i], list[0], |list| - i)
    decreases |list| - i
  {
    if i != 0 {
      var j := LinkTarget(list, gone, next, i);
      if j != 0 {
        ReachesForward(list, gone, next, j);
        ReachesMore(next, list[j], list[0], |list| - j, |list| - i - 1);
      }
    }
  }

  lemma {:induction false} ReachesMore(next: Links, q: Qh, head: Qh, n: nat, m: nat)
    requires Reaches(next, q, head, n) && n <= m
    ensures Reaches(next, q, head, m)
    decreases n
  {
    if q != head {
      ReachesMore(next, next[q], head, n - 1, m - 1);
    }
  }

  /** A list in the middle of removals is still closed: stale links only go forward. */
  lemma LinkedClosed(list: seq<Qh>, gone: set<Qh>, next: Links)
    requires Linked(list, gone, next)
    ensures Closed(list, next)
  {
    forall q | q in list ensures LeadsHome(list, next, q) {
      var i :| 0 <= i < |list| && list[i] == q;
      var j := LinkTarget(list, gone, next, i);
      if j != 0 {
        ReachesForward(list, gone, next, j);
        ReachesMore(next, list[j], list[0], |list| - j, |list| - 1);
      }
    }
  }

  /** The controller never leaves a closed list. */
  lemma {:induction false} AdvanceStays(list: seq<Qh>, next: Links, q: Qh, n: nat)
    requires Closed(list, next) && q in list
    ensures Advance(next, q, n) in list
    decreases n
  {
    if n > 0 {
      assert LeadsHome(list, next, q);
      AdvanceStays(list, next, next[q], n - 1);
    }
  }

  lemma RingLinked(list: seq<Qh>, gone: set<Qh>, next: Links)
    requires Ring(list, next) && forall q :: q in list ==> q !in gone
    ensures Linked(list, gone, next) && Closed(list, next)
  {
    forall i | 0 <= i < |list| ensures LinkOk(list, gone, next, i) {
      assert RingLink(list, next, i);
      if i + 1 < |list| {
        assert list[i + 1..][0] == list[i + 1];
      }
    }
    LinkedClosed(list, gone, next);
  }

  // ---------------------------------------------------------------- unlinking one

  lemma {:induction false} NextLiveSkips(list: seq<Qh>, gone: set<Qh>, t: nat, from: nat)
    requires t < |list| && Distinct(list) && from <= |list|
    requires NextLive(list, gone, from) != t || t == 0
    ensures t > 0 ==> NextLive(list, gone + {list[t]}, from) == NextLive(list, gone, from)
    decreases |list| - from
  {
    if from < |list| && list[from] in gone {
      NextLiveSkips(list, gone, t, from + 1);
    }
  }

  lemma {:induction false} NextLiveFrom(list: seq<Qh>, gone: set<Qh>, from: nat, t: nat)
    requires from <= t <= |list|
    requires forall i :: from <= i < t ==> list[i] in gone
    ensures NextLive(list, gone, from) == NextLive(list, gone, t)
    decreases t - from
  {
    if from < t {
      NextLiveFrom(list, gone, from + 1, t);
    }
  }

  lemma {:induction false} NextLiveIs(list: seq<Qh>, gone: set<Qh>, i: nat, t: nat)
    requires i < |list| && 0 < t < |list| && NextLive(list, gone, i + 1) == t
    ensures forall k :: i < k < t ==> list[k] in gone
    decreases |list| - i
  {
    if i + 1 < |list| && list[i + 1] in gone {
      NextLiveIs(list, gone, i + 1, t);
    }
  }

  /** A queue head that is not the live predecessor of t needs no new link. */
  lemma UnlinkOther(list: seq<Qh>, gone: set<Qh>, next: Links, t: nat, i: nat)
    requires Linked(list, gone, next) && 0 < t < |list| && i < |list|
    requires i != PrevLive(list, gone + {list[t]}, t)
    ensures LinkOk(list, gone + {list[t]}, next, i)
  {
    assert LinkOk(list, gone, next, i);
    if list[i] !in gone && i != t {
      if NextLive(list, gone, i + 1) == t {
        NextLiveIs(list, gone, i, t);
      } else {
        NextLiveSkips(list, gone, t, i + 1);
      }
    }
  }

  /** Marking the queue head at t and pointing its live predecessor past it keeps every
      link good. */
  lemma Unlink(list: seq<Qh>, gone: set<Qh>, next: Links, t: nat)
    requires Linked(list, gone, next) && 0 < t < |list|
    ensures var gone' := gone + {list[t]};
            var j := NextLive(list, gone', t);
            Linked(list, gone', next[list[PrevLive(list, gone', t)] := list[j]])
  {
    var gone' := gone + {list[t]};
    var v := PrevLive(list, gone', t);
    var j := NextLive(list, gone', t);
    var next' := next[list[v] := list[j]];
    forall i | 0 <= i < |list| ensures LinkOk(list, gone', next', i) {
      if i == v {
        NextLiveFrom(list, gone', v + 1, t);
        if j != 0 {
          assert list[i + 1..][j - i - 1] == list[j];
        }
      } else {
        UnlinkOther(list, gone, next, t, i);
      }
    }
  }

  // ---------------------------------------------------------------- what is left

  /** `retain`: the queue heads that are not being dropped, in order. */
  function Live(list: seq<Qh>, gone: set<Qh>): (r: seq<Qh>)
    ensures forall q :: q in r <==> q in list && q !in gone
  {
    if list == [] then []
    else (if list[0] in gone then [] else [list[0]]) + Live(list[1..], gone)
  }

  lemma {:induction false} LiveDistinct(list: seq<Qh>, gone: set<Qh>)
    requires Distinct(list)
    ensures Distinct(Live(list, gone))
  {
    if list != [] {
      LiveDistinct(list[1..], gone);
    }
  }

  lemma {:induction false} LiveFirst(list: seq<Qh>, gone: set<Qh>, i: nat)
    requires 0 < i <= |list|
    ensures var l := Live(list[i..], gone);
            if l == [] then NextLive(list, gone, i) == 0
            else NextLive(list, gone, i) > 0 && l[0] == list[NextLive(list, gone, i)]
    decreases |list| - i
  {
    if i < |list| {
      assert list[i..][1..] == list[i + 1..];
      LiveFirst(list, gone, i + 1);
    }
  }

  /** Each queue head of the sequence links to the next one, the last one to `end`. */
  predicate Chain(l: seq<Qh>, next: Links, end: Qh) {
    l == [] ||
    (l[0] in next && next[l[0]] == (if |l| > 1 then l[1] else end) && Chain(l[1..], next, end))
  }

  lemma {:induction false} ChainAt(l: seq<Qh>, next: Links, end: Qh, k: nat)
    requires Chain(l, next, end) && k < |l|
    ensures l[k] in next && next[l[k]] == if k + 1 < |l| then l[k + 1] else end
  {
    if k > 0 {
      ChainAt(l[1..], next, end, k - 1);
    }
  }

  lemma {:induction false} LiveChain(list: seq<Qh>, gone: set<Qh>, next: Links, i: nat)
    requires Linked(list, gone, next) && i <= |list|
    ensures Chain(Live(list[i..], gone), next, list[0])
    decreases |list| - i
  {
    if i < |list| {
      assert list[i..][1..] == list[i + 1..];
      LiveChain(list, gone, next, i + 1);
      var l, rest := Live(list[i..], gone), Live(list[i + 1..], gone);
      if list[i] in gone {
        assert l == rest;
      } else {
        assert l == [list[i]] + rest && l[1..] == rest;
        LiveFirst(list, gone, i + 1);
        assert LinkOk(list, gone, next, i);
      }
    }
  }

  /** The live queue heads form a ring of their own. */
  lemma LiveRing(list: seq<Qh>, gone: set<Qh>, next: Links)
    requires Linked(list, gone, next)
    ensures Ring(Live(list, gone), next) && Live(list, gone)[0] == list[0]
  {
    LiveDistinct(list, gone);
    LiveChain(list, gone, next, 0);
    assert list[0..] == list;
    var l := Live(list, gone);
    assert l[0] == list[0];
    forall k | 0 <= k < |l| ensures RingLink(l, next, k) {
      ChainAt(l, next, list[0], k);
    }
  }

  /** The two writes of an insertion: the first is not reachable yet, the second closes the
      longer ring. */
  lemma RingInsert(list: seq<Qh>, next: Links, queue: Qh)
    requires Ring(list, next) && queue !in list
    ensures Ring(list, next[queue := list[0]])
    ensures Ring(list + [queue], next[queue := list[0]][list[|list| - 1] := queue])
  {
    var longer, next1 := list + [queue], next[queue := list[0]];
    var next2 := next1[list[|list| - 1] := queue];
    forall i | 0 <= i < |list| ensures RingLink(list, next1, i) {
      assert RingLink(list, next, i);
    }
    forall i | 0 <= i < |longer| ensures RingLink(longer, next2, i) {
      assert i + 1 < |list| ==> list[i] != list[|list| - 1] && RingLink(list, next, i);
    }
  }

  // ---------------------------------------------------------------- the driver

  datatype DropResult = Dropped | Panicked

  /** An endpoint that `drop_endpoints` panics on: not on the list, or the list head. */
  predicate Refused(list: seq<Qh>, e: Qh) {
    e !in list || e == list[0]
  }

  function ToSet(s: seq<Qh>): set<Qh> {
    set e | e in s
  }

  class Ehci {
    var asyncList: seq<Qh>
    var next: Links
    var waiting: set<Qh>          // `waiting_for_drop` flags
    var controller: Qh            // the queue head the controller stands on
    var doorbell: bool

    /** Between two calls: the links are the cyclic order of the list and the controller
        is on it. */
    ghost predicate Valid()
      reads this
    {
      && Ring(asyncList, next)
      && (forall q :: q in asyncList ==> q !in waiting)
      && controller in asyncList
    }

    /** `init_head_table`: the head links to itself and the controller starts there. */
    constructor (head: Qh)
      ensures Valid() && asyncList == [head] && waiting == {} && !doorbell
    {
      asyncList, next, waiting := [head], map[head := head], {};
      controller, doorbell := head, false;
    }

    /** The controller follows n links. */
    method Hardware(n: nat)
      modifies this`controller
      ensures controller == Advance(next, old(controller), n)
    {
      var i := 0;
      while i < n
        invariant i <= n
        invariant Advance(next, controller, n - i) == Advance(next, old(controller), n)
      {
        if controller in next {
          controller := next[controller];
        }
        i := i + 1;
      }
    }

    /** `insert_into_async`: after each of the two writes the controller sees a closed
        cycle through the head, and afterwards the ring is the longer list. */
    method Insert(queue: Qh, ticks: nat -> nat) returns (ghost seen: seq<Links>)
      requires Valid() && queue !in asyncList && queue !in waiting
      modifies this`asyncList, this`next, this`controller
      ensures Valid() && asyncList == old(asyncList) + [queue]
      ensures |seen| == 2 && seen[1] == next
      ensures Ring(old(asyncList), seen[0]) && Closed(old(asyncList), seen[0])
      ensures Ring(asyncList, seen[1]) && Closed(asyncList, seen[1])
      ensures controller == Advance(seen[0], Advance(old(next), old(controller), ticks(0)), ticks(1))
    {
      RingInsert(asyncList, next, queue);
      RingLinked(asyncList, waiting, next);
      Run(ticks(0));
      next := next[queue := asyncList[0]];
      ghost var first := next;
      RingLinked(asyncList, waiting, next);
      Run(ticks(1));
      next := next[asyncList[|asyncList| - 1] := queue];
      asyncList := asyncList + [queue];
      RingLinked(asyncList, waiting, next);
      seen := [first, next];
    }

    /** The controller runs on a closed list, which it does not leave. */
    method Run(n: nat)
      requires Closed(asyncList, next) && controller in asyncList
      modifies this`controller
      ensures controller in asyncList && controller == Advance(next, old(controller), n)
    {
      AdvanceStays(asyncList, next, controller, n);
      Hardware(n);
    }

    /** One turn of the loop of `drop_endpoints`: marks the queue head at t and points its
        live predecessor at its live successor. */
    method UnlinkOne(t: nat, n: nat)
      requires Linked(asyncList, waiting, next) && controller in asyncList && 0 < t < |asyncList|
      modifies this`next, this`waiting, this`controller
      ensures Linked(asyncList, waiting, next) && controller in asyncList
      ensures Closed(asyncList, next)
      ensures waiting == old(waiting) + {asyncList[t]}
      ensures controller == Advance(old(next), old(controller), n)
    {
      LinkedClosed(asyncList, waiting, next);
      Run(n);
      Unlink(asyncList, waiting, next, t);
      waiting := waiting + {asyncList[t]};
      var prev := PrevLive(asyncList, waiting, t);
      var succ := NextLive(asyncList, waiting, t);
      next := next[asyncList[prev] := asyncList[succ]];
      LinkedClosed(asyncList, waiting, next);
    }

    /** The loop of `drop_endpoints`.  After every write, from every queue head of the list
        the links lead back to the head. */
    method Unlinking(endpoints: seq<Qh>, ticks: nat -> nat) returns (r: DropResult, ghost seen: seq<Links>)
      requires Valid()
      modifies this`next, this`waiting, this`controller
      ensures r.Panicked? <==>
                exists i :: 0 <= i < |endpoints| && Refused(asyncList, endpoints[i])
      ensures r.Dropped? ==>
                && waiting == old(waiting) + ToSet(endpoints)
                && Linked(asyncList, waiting, next) && controller in asyncList
                && |seen| == |endpoints|
      ensures forall i :: 0 <= i < |seen| ==> Closed(asyncList, seen[i])
    {
      seen := [];
      RingLinked(asyncList, waiting, next);
      var n := 0;
      while n < |endpoints|
        invariant n <= |endpoints| && |seen| == n
        invariant Linked(asyncList, waiting, next) && controller in asyncList
        invariant waiting == old(waiting) + ToSet(endpoints[..n])
        invariant forall i :: 0 <= i < n ==> !Refused(asyncList, endpoints[i])
        invariant forall i :: 0 <= i < |seen| ==> Closed(asyncList, seen[i])
      {
        if Refused(asyncList, endpoints[n]) {
          return Panicked, seen;
        }
        var t := Position(asyncList, endpoints[n]);
        UnlinkOne(t, ticks(n));
        seen := seen + [next];
        assert endpoints[..n + 1] == endpoints[..n] + [endpoints[n]];
        n := n + 1;
      }
      assert endpoints[..n] == endpoints;
      r := Dropped;
    }

    /** The controller acknowledges the doorbell only while it stands on a queue head that
        is still linked; it runs `n` links and then until that is the case. */
    method AwaitDoorbell(n: nat)
      requires Linked(asyncList, waiting, next) && controller in asyncList && doorbell
      modifies this`controller, this`doorbell
      ensures !doorbell && controller in asyncList && controller !in waiting
    {
      LinkedClosed(asyncList, waiting, next);
      Run(n);
      ghost var i: nat :| i < |asyncList| && asyncList[i] == controller;
      while controller in waiting
        invariant i < |asyncList| && asyncList[i] == controller
        decreases if i == 0 then 0 else |asyncList| - i
      {
        ghost var j := LinkTarget(asyncList, waiting, next, i);
        controller := next[controller];
        i := j;
      }
      doorbell := false;
    }

    /** `drop_endpoints`: afterwards the ring is exactly the list without the dropped
        endpoints, in order, and the controller can never reach a dropped one again. */
    method DropEndpoints(endpoints: seq<Qh>, ticks: nat -> nat) returns (r: DropResult, ghost seen: seq<Links>)
      requires Valid()
      modifies this
      ensures r.Panicked? <==>
                exists i :: 0 <= i < |endpoints| && Refused(old(asyncList), endpoints[i])
      ensures r.Dropped? ==>
                && Valid() && !doorbell
                && asyncList == Live(old(asyncList), ToSet(endpoints))
                && asyncList[0] == old(asyncList)[0]
                && (forall q :: q in asyncList ==> q in next && next[q] !in endpoints)
                && (forall n: nat :: Advance(next, controller, n) in asyncList)
                && (forall n: nat :: Advance(next, controller, n) !in endpoints)
      ensures forall i :: 0 <= i < |seen| ==> Closed(old(asyncList), seen[i])
    {
      r, seen := Unlinking(endpoints, ticks);
      if r.Panicked? {
        return;
      }
      doorbell := true;
      AwaitDoorbell(ticks(|endpoints|));
      LiveRing(asyncList, waiting, next);
      LiveAgrees(asyncList, waiting, ToSet(endpoints));
      asyncList := Live(asyncList, waiting);
      RingLinked(asyncList, waiting, next);
      forall q | q in asyncList ensures q in next && next[q] in asyncList {
        assert LeadsHome(asyncList, next, q);
      }
      forall n: nat ensures Advance(next, controller, n) in asyncList {
        AdvanceStays(asyncList, next, controller, n);
      }
    }
  }

  lemma {:induction false} LiveAgrees(list: seq<Qh>, a: set<Qh>, b: set<Qh>)
    requires forall q :: q in list ==> (q in a <==> q in b)
    ensures Live(list, a) == Live(list, b)
  {
    if list != [] {
      LiveAgrees(list[1..], a, b);
    }
  }
}
