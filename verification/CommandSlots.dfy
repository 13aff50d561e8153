/**
 The command slots of an AHCI port: thirty-two slots, the queue behind them, the futures of
 the commands, and a device that clears issue bits whenever it likes.  Calls do not overlap
 (tasks are scheduled cooperatively), but the device acts between any two statements.
 */
module CommandSlots {
  import opened Options

  const SLOTS: nat := 32

  datatype SlotState = Unlocked | Setup | Running

  datatype CmdState = Waiting | Completed

  datatype Poll = Pending | Ready(buffer: bool)

  /** The identity of a command's future. */
  type Cmd = nat

  // ---------------------------------------------------------------- where the commands are

  /** How many slots hold the command. */
  function Held(active: seq<Option<Cmd>>, c: Cmd): nat {
    if active == [] then 0 else (if active[0] == Some(c) then 1 else 0) + Held(active[1..], c)
  }

  lemma {:induction false} HeldUpdate(active: seq<Option<Cmd>>, i: nat, a: Option<Cmd>, c: Cmd)
    requires i < |active|
    ensures Held(active[i := a], c) ==
            Held(active, c) - (if active[i] == Some(c) then 1 else 0) + (if a == Some(c) then 1 else 0)
  {
    if i == 0 {
      assert active[i := a][1..] == active[1..];
    } else {
      HeldUpdate(active[1..], i - 1, a, c);
      assert active[i := a][1..] == active[1..][i - 1 := a];
    }
  }

  lemma {:induction false} HeldHas(active: seq<Option<Cmd>>, i: nat, c: Cmd)
    requires i < |active| && active[i] == Some(c)
    ensures Held(active, c) >= 1
  {
    if i > 0 {
      HeldHas(active[1..], i - 1, c);
    }
  }

  lemma {:induction false} HeldNone(active: seq<Option<Cmd>>, c: Cmd)
    requires forall i :: 0 <= i < |active| ==> active[i].None?
    ensures Held(active, c) == 0
  {
    if active != [] {
      HeldNone(active[1..], c);
    }
  }

  /** Two slots that hold the same command hold it twice. */
  lemma {:induction false} HeldTwice(active: seq<Option<Cmd>>, i: nat, j: nat, c: Cmd)
    requires i < j < |active| && active[i] == active[j] == Some(c)
    ensures Held(active, c) >= 2
  {
    if i == 0 {
      HeldHas(active[1..], j - 1, c);
    } else {
      HeldTwice(active[1..], i - 1, j - 1, c);
    }
  }

  /** How often the command is in the list. */
  function Times(s: seq<Cmd>, c: Cmd): (n: nat)
    ensures n > 0 <==> c in s
  {
    if s == [] then 0 else (if s[0] == c then 1 else 0) + Times(s[1..], c)
  }

  lemma {:induction false} TimesConcat(s: seq<Cmd>, t: seq<Cmd>, c: Cmd)
    ensures Times(s + t, c) == Times(s, c) + Times(t, c)
  {
    if s == [] {
      assert s + t == t;
    } else {
      TimesConcat(s[1..], t, c);
      assert (s + t)[1..] == s[1..] + t;
    }
  }

  /** The commands submitted, each once, are those started, in the order of submission, and
      then those queued; each one started is in one slot or finished once. */
  ghost predicate Conserved(submitted: seq<Cmd>, started: seq<Cmd>, queue: seq<Cmd>,
                            active: seq<Option<Cmd>>, finished: seq<Cmd>) {
    && submitted == started + queue
    && (forall c :: Times(submitted, c) <= 1)
    && (forall c :: Times(started, c) == Held(active, c) + Times(finished, c))
  }

  /** Every command is in exactly one of queue, slot and finished list, and there once. */
  lemma ExactlyOnePlace(submitted: seq<Cmd>, started: seq<Cmd>, queue: seq<Cmd>,
                        active: seq<Option<Cmd>>, finished: seq<Cmd>, c: Cmd)
    requires Conserved(submitted, started, queue, active, finished)
    ensures Times(queue, c) + Held(active, c) + Times(finished, c) == if c in submitted then 1 else 0
  {
    TimesConcat(started, queue, c);
  }

  /** No two slots hold the same command. */
  lemma SlotsApart(submitted: seq<Cmd>, started: seq<Cmd>, queue: seq<Cmd>,
                   active: seq<Option<Cmd>>, finished: seq<Cmd>, i: nat, j: nat)
    requires Conserved(submitted, started, queue, active, finished)
    requires i < j < |active| && active[i].Some?
    ensures active[i] != active[j]
  {
    ExactlyOnePlace(submitted, started, queue, active, finished, active[i].value);
    if active[i] == active[j] {
      HeldTwice(active, i, j, active[i].value);
    }
  }

  /** A command moves from its slot to the finished list. */
  lemma ConservedFinish(submitted: seq<Cmd>, started: seq<Cmd>, queue: seq<Cmd>,
                        active: seq<Option<Cmd>>, finished: seq<Cmd>, i: nat)
    requires Conserved(submitted, started, queue, active, finished)
    requires i < |active| && active[i].Some?
    ensures Conserved(submitted, started, queue, active[i := None], finished + [active[i].value])
    ensures active[i].value in submitted && active[i].value !in finished && active[i].value !in queue
  {
    var c := active[i].value;
    HeldHas(active, i, c);
    ExactlyOnePlace(submitted, started, queue, active, finished, c);
    forall d ensures Times(started, d) == Held(active[i := None], d) + Times(finished + [c], d) {
      HeldUpdate(active, i, None, d);
      TimesConcat(finished, [c], d);
    }
  }

  /** The front of the queue moves to an empty slot. */
  lemma ConservedStart(submitted: seq<Cmd>, started: seq<Cmd>, queue: seq<Cmd>,
                       active: seq<Option<Cmd>>, finished: seq<Cmd>, i: nat)
    requires Conserved(submitted, started, queue, active, finished)
    requires i < |active| && active[i].None? && queue != []
    ensures Conserved(submitted, started + [queue[0]], queue[1..], active[i := Some(queue[0])], finished)
  {
    var c := queue[0];
    forall d ensures Times(started + [c], d) == Held(active[i := Some(c)], d) + Times(finished, d) {
      HeldUpdate(active, i, Some(c), d);
      TimesConcat(started, [c], d);
    }
  }

  /** A new command goes to the end of the queue. */
  lemma ConservedSubmit(submitted: seq<Cmd>, started: seq<Cmd>, queue: seq<Cmd>,
                        active: seq<Option<Cmd>>, finished: seq<Cmd>, c: Cmd)
    requires Conserved(submitted, started, queue, active, finished) && c !in submitted
    ensures Conserved(submitted + [c], started, queue + [c], active, finished)
    ensures c !in finished
  {
    ExactlyOnePlace(submitted, started, queue, active, finished, c);
    forall d ensures Times(submitted + [c], d) <= 1 {
      TimesConcat(submitted, [c], d);
    }
  }

  // ---------------------------------------------------------------- one slot

  /** What a slot's lock state says of its future, its issue bit and the device. */
  predicate SlotOk(s: SlotState, a: Option<Cmd>, bit: bool, cleared: set<Cmd>) {
    match s
    case Unlocked => a.None? && !bit
    case Setup => bit ==> a.Some?
    case Running => a.Some? && (bit || a.value in cleared)
  }

  class Port {
    const cmd: array<SlotState>
    const active: array<Option<Cmd>>
    var queue: seq<Cmd>
    var issue: set<nat>                   // the issue register, PxCI
    var state: map<Cmd, CmdState>
    var buffers: set<Cmd>                 // the futures that hold a buffer

    ghost var submitted: seq<Cmd>
    ghost var started: seq<Cmd>
    ghost var finished: seq<Cmd>
    ghost var cleared: set<Cmd>           // the commands whose bit the device cleared
    ghost var given: set<Cmd>             // the commands that came with a buffer

    ghost predicate Slots()
      reads this, cmd, active
    {
      && cmd.Length == SLOTS && active.Length == SLOTS
      && (forall i :: i in issue ==> i < SLOTS)
      && (forall i :: 0 <= i < SLOTS ==> SlotOk(cmd[i], active[i], i in issue, cleared))
    }

    ghost predicate Futures()
      reads this
    {
      && (forall c :: c in state <==> c in submitted)
      && (forall c :: c in state ==> (state[c] == Completed <==> c in finished))
      && (forall c :: c in finished ==> c in cleared)
      && (forall c :: c in given && c !in buffers ==> c in finished)
      && buffers <= given && (forall c :: c in given ==> c in submitted)
    }

    /** Commands wait only while every slot is taken. */
    ghost predicate Busy()
      reads this, cmd
    {
      queue != [] ==> forall i :: 0 <= i < cmd.Length ==> cmd[i] == Running
    }

    ghost predicate Inv()
      reads this, cmd, active
    {
      && Slots() && Futures()
      && (forall i :: 0 <= i < SLOTS ==> cmd[i] != Setup)
      && Conserved(submitted, started, queue, active[..], finished)
    }

    ghost predicate Valid()
      reads this, cmd, active
    {
      Inv() && Busy()
    }

    constructor ()
      ensures Valid() && fresh(cmd) && fresh(active) && submitted == []
    {
      cmd := new SlotState[SLOTS](_ => Unlocked);
      active := new Option<Cmd>[SLOTS](_ => None);
      queue, issue, state, buffers := [], {}, map[], {};
      submitted, started, finished, cleared, given := [], [], [], {}, {};
      new;
      forall c ensures Held(active[..], c) == 0 {
        HeldNone(active[..], c);
      }
    }

    /** The device clears any of the issue bits. */
    method Device()
      requires Slots()
      modifies this`issue, this`cleared
      ensures Slots() && issue <= old(issue) && old(cleared) <= cleared
      ensures cleared == old(cleared) + set i | i in old(issue) - issue && active[i].Some? :: active[i].value
    {
      ghost var was := issue;
      var kept :| kept <= issue;
      issue := kept;
      cleared := cleared + set i | i in was - kept && active[i].Some? :: active[i].value;
    }

    /** `get_cmd`: locks the lowest free slot. */
    method GetCmd() returns (slot: Option<nat>)
      requires Slots()
      modifies cmd
      ensures Slots()
      ensures slot.None? ==> cmd[..] == old(cmd[..]) && forall i :: 0 <= i < SLOTS ==> cmd[i] != Unlocked
      ensures slot.Some? ==>
                && slot.value < SLOTS && old(cmd[slot.value]) == Unlocked
                && cmd[..] == old(cmd[..])[slot.value := Setup]
                && forall i :: 0 <= i < slot.value ==> cmd[i] != Unlocked
    {
      for i := 0 to SLOTS
        invariant Slots() && cmd[..] == old(cmd[..])
        invariant forall j :: 0 <= j < i ==> cmd[j] != Unlocked
      {
        if cmd[i] == Unlocked {
          cmd[i] := Setup;
          return Some(i);
        }
      }
      slot := None;
    }

    /** `exec_cmd`: starts the command in the lowest free slot.  The issue bit is never set
        already, and the slot is still in set-up when it is locked fully. */
    method ExecCmd(c: Cmd) returns (slot: Option<nat>)
      requires Slots() && forall i :: 0 <= i < SLOTS ==> cmd[i] != Setup
      modifies cmd, active, this`issue, this`cleared, this`started
      ensures Slots() && old(cleared) <= cleared
      ensures slot.None? ==>
                && (forall i :: 0 <= i < SLOTS ==> old(cmd[i]) == Running)
                && cmd[..] == old(cmd[..]) && active[..] == old(active[..])
                && started == old(started) && issue <= old(issue)
      ensures slot.Some? ==>
                && slot.value < SLOTS && old(cmd[slot.value]) == Unlocked
                && (forall i :: 0 <= i < slot.value ==> old(cmd[i]) == Running)
                && cmd[..] == old(cmd[..])[slot.value := Running]
                && active[..] == old(active[..])[slot.value := Some(c)]
                && started == old(started) + [c] && issue <= old(issue) + {slot.value}
    {
      slot := GetCmd();
      if slot.None? {
        Device();
        return;
      }
      var s := slot.value;
      Device();
      active[s] := Some(c);
      Device();
      assert s !in issue;                 // the panic of `issue`
      issue := issue + {s};
      started := started + [c];
      Device();
      assert cmd[s] == Setup;             // the panic of `full_lock`
      cmd[s] := Running;
    }

    /** `chk_complete`. */
    method ChkComplete(i: nat) returns (done: bool)
      requires Slots() && i < SLOTS
      modifies this`issue, this`cleared
      ensures Slots() && issue <= old(issue) && old(cleared) <= cleared
      ensures done <==> cmd[i] == Running && i !in issue
    {
      if cmd[i] != Running {
        return false;
      }
      Device();
      done := i !in issue;
    }

    /** Takes the future out of its slot, marks it ready and frees the slot. */
    method Finish(i: nat)
      requires Inv() && i < SLOTS && cmd[i] == Running && i !in issue
      modifies cmd, active, this`state, this`finished
      ensures Inv() && active[i].None?
      ensures cmd[..] == old(cmd[..])[i := Unlocked] && active[..] == old(active[..])[i := None]
      ensures finished == old(finished) + [old(active[i]).value]
      ensures old(active[i]).value !in old(finished)
    {
      assert active[i].Some?;             // the panic of `expect("Race")`
      var c := active[i].value;
      ConservedFinish(submitted, started, queue, active[..], finished, i);
      active[i] := None;
      state := state[c := Completed];
      finished := finished + [c];
      cmd[i] := Unlocked;
      assert active[..] == old(active[..])[i := None];
    }

    /** The front of the queue goes into the only free slot. */
    method Refill(i: nat)
      requires Inv() && i < SLOTS && cmd[i] == Unlocked && queue != []
      requires forall j :: 0 <= j < SLOTS && j != i ==> cmd[j] == Running
      modifies cmd, active, this`queue, this`issue, this`started, this`cleared
      ensures Inv() && Busy() && old(cleared) <= cleared
      ensures forall j :: 0 <= j < SLOTS && j != i ==> cmd[j] == old(cmd[j]) && active[j] == old(active[j])
      ensures issue <= old(issue) + {i}
      ensures started == old(started) + [old(queue)[0]] && queue == old(queue)[1..]
    {
      var c := queue[0];
      ConservedStart(submitted, started, queue, active[..], finished, i);
      queue := queue[1..];
      var slot := ExecCmd(c);
      assert slot == Some(i);
    }

    /** One round of the loop of `refresh_exec`: a slot whose bit the device cleared is
        emptied and refilled from the queue.  The result of `exec_cmd` is dropped there, but
        the slot just freed is always found. */
    method RefreshSlot(i: nat)
      requires Valid() && i < SLOTS
      modifies cmd, active, this`queue, this`issue, this`state, this`started, this`finished, this`cleared
      ensures Valid() && old(finished) <= finished && old(cleared) <= cleared
      ensures old(cmd[i]) == Running && i !in old(issue) ==> old(active[i]).value in finished
      ensures forall j :: 0 <= j < SLOTS && j != i ==> cmd[j] == old(cmd[j]) && active[j] == old(active[j])
      ensures issue <= old(issue) + {i}
    {
      var done := ChkComplete(i);
      if done {
        Finish(i);
        if queue != [] {
          Refill(i);
        }
      }
    }

    /** `refresh_exec`: every command the device had completed is finished, and commands are
        left waiting only when every slot is taken again. */
    method RefreshExec()
      requires Valid()
      modifies cmd, active, this`queue, this`issue, this`state, this`started, this`finished, this`cleared
      ensures Valid() && old(finished) <= finished && old(cleared) <= cleared
      ensures forall j :: 0 <= j < SLOTS && old(cmd[j]) == Running && j !in old(issue) ==>
                            old(active[j]).value in finished
    {
      for i := 0 to SLOTS
        invariant Valid() && old(finished) <= finished && old(cleared) <= cleared
        invariant forall j :: 0 <= j < i && old(cmd[j]) == Running && j !in old(issue) ==>
                                old(active[j]).value in finished
        invariant forall j :: i <= j < SLOTS ==> cmd[j] == old(cmd[j]) && active[j] == old(active[j])
        invariant forall j :: i <= j < SLOTS && j in issue ==> j in old(issue)
      {
        RefreshSlot(i);
      }
    }

    /** `construct_future`; the command is not yet started or queued. */
    method ConstructFuture(c: Cmd, withBuffer: bool)
      requires Inv() && c !in submitted
      modifies this`state, this`buffers, this`given, this`submitted
      ensures Futures() && submitted == old(submitted) + [c]
      ensures Conserved(submitted, started, queue + [c], active[..], finished)
      ensures given == if withBuffer then old(given) + {c} else old(given)
    {
      ConservedSubmit(submitted, started, queue, active[..], finished, c);
      state := state[c := Waiting];
      if withBuffer {
        buffers, given := buffers + {c}, given + {c};
      }
      submitted := submitted + [c];
    }

    /** `issue_cmd` up to its wait: the command is started, or queued behind all others, and
        when no slot is free every command the device had completed is finished first. */
    method IssueCmd(c: Cmd, withBuffer: bool)
      requires Valid() && c !in submitted
      modifies this, cmd, active
      ensures Valid() && submitted == old(submitted) + [c]
      ensures old(finished) <= finished && old(cleared) <= cleared
      ensures given == if withBuffer then old(given) + {c} else old(given)
      ensures (exists j :: 0 <= j < SLOTS && old(cmd[j]) == Unlocked) ==>
                started == old(started) + [c] && queue == [] && finished == old(finished)
      ensures c in queue || (forall j :: 0 <= j < SLOTS ==> old(cmd[j]) == Running) ==>
                forall j :: 0 <= j < SLOTS && old(cmd[j]) == Running && j !in old(issue) ==>
                              old(active[j]).value in finished
    {
      ConstructFuture(c, withBuffer);
      var slot := ExecCmd(c);
      if slot.None? {
        queue := queue + [c];
        RefreshExec();
      } else {
        assert queue == [] && queue + [c] == [c];
        ConservedStart(submitted, old(started), [c], old(active[..]), finished, slot.value);
      }
    }

    /** Polling a future: it is ready only after the device cleared the command's bit, and
        then neither the queue nor a slot holds the command, so the device no longer has the
        buffer that goes back to the caller. */
    method PollFuture(c: Cmd) returns (r: Poll)
      requires Valid() && c in submitted
      modifies this`buffers
      ensures Valid()
      ensures r.Ready? <==> c in finished
      ensures r.Ready? ==> c in cleared && c !in queue && Some(c) !in active[..]
      ensures r == if c in finished then Ready(c in old(buffers)) else Pending
      ensures buffers == if r.Ready? then old(buffers) - {c} else old(buffers)
    {
      ExactlyOnePlace(submitted, started, queue, active[..], finished, c);
      if state[c] == Completed {
        if Some(c) in active[..] {
          var i :| 0 <= i < SLOTS && active[i] == Some(c);
          HeldHas(active[..], i, c);
          assert false;
        }
        r := Ready(c in buffers);
        buffers := buffers - {c};
      } else {
        r := Pending;
      }
    }
  }
}
