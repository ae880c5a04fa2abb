/**
  The run queue (sched/src/runqueue.rs): task slots, round-robin choice, blocking and
  waking. In every run, a task that stays ready is chosen within MAX_TASKS picks.
 */
module Sched {
  import opened Words

  const MAX_TASKS := 256

  datatype TaskState = Ready | Running | Blocked | Zombie

  datatype Task = Task(pid: nat, state: TaskState, blockedOn: Option<nat>, pending: nat)

  type Tasks = s: seq<Option<Task>> | |s| == MAX_TASKS witness seq(MAX_TASKS, _ => None)

  predicate IsReady(t: Option<Task>)
  {
    t.Some? && t.value.state == Ready
  }

  function Count(ts: seq<Option<Task>>): nat
  {
    if ts == [] then 0 else Count(ts[..|ts| - 1]) + if ts[|ts| - 1].Some? then 1 else 0
  }

  lemma {:induction false} CountUpdate(ts: seq<Option<Task>>, i: nat, t: Option<Task>)
    requires i < |ts|
    ensures Count(ts[i := t]) == Count(ts) - (if ts[i].Some? then 1 else 0) + (if t.Some? then 1 else 0)
  {
    var n := |ts| - 1;
    if i == n {
      assert ts[i := t][..n] == ts[..n];
    } else {
      assert ts[i := t][..n] == ts[..n][i := t];
      CountUpdate(ts[..n], i, t);
    }
  }

  lemma {:induction false} CountPositive(ts: seq<Option<Task>>, i: nat)
    requires i < |ts| && ts[i].Some?
    ensures Count(ts) > 0
  {
    if i < |ts| - 1 { CountPositive(ts[..|ts| - 1], i); }
  }

  lemma {:induction false} CountZero(ts: seq<Option<Task>>)
    requires Count(ts) == 0
    ensures forall i :: 0 <= i < |ts| ==> ts[i].None?
  {
    if ts != [] { CountZero(ts[..|ts| - 1]); }
  }

  // -------------------------------------------------------------- round robin

  /** How many steps slot `j` lies ahead of the cursor, going around. */
  function Ahead(cursor: nat, j: nat): nat
    requires cursor < MAX_TASKS && j < MAX_TASKS
  {
    if cursor <= j then j - cursor else j + MAX_TASKS - cursor
  }

  /** What the scheduler picks: the ready slot closest ahead of the cursor. */
  ghost predicate Picks(ts: Tasks, cursor: nat, i: nat)
    requires cursor < MAX_TASKS
  {
    && i < MAX_TASKS && IsReady(ts[i])
    && forall k :: 0 <= k < MAX_TASKS && IsReady(ts[k]) ==> Ahead(cursor, i) <= Ahead(cursor, k)
  }

  /** There is only one such slot. */
  lemma PickUnique(ts: Tasks, cursor: nat, i: nat, k: nat)
    requires cursor < MAX_TASKS && Picks(ts, cursor, i) && Picks(ts, cursor, k)
    ensures i == k
  {
  }

  function Next(i: nat): nat
  {
    (i + 1) % 256
  }

  /** Every pick of somebody else brings the cursor closer to a ready slot. */
  lemma PickApproaches(ts: Tasks, cursor: nat, i: nat, j: nat)
    requires cursor < MAX_TASKS && j < MAX_TASKS && Picks(ts, cursor, i) && IsReady(ts[j]) && i != j
    ensures Ahead(Next(i), j) < Ahead(cursor, j)
  {
  }

  /** The slot the scheduler picks, or MAX_TASKS when none is ready. */
  ghost function Picked(ts: Tasks, cursor: nat): nat
    requires cursor < MAX_TASKS
  {
    if i: nat :| Picks(ts, cursor, i) then i else MAX_TASKS
  }

  lemma PickedIs(ts: Tasks, cursor: nat, i: nat)
    requires cursor < MAX_TASKS && Picks(ts, cursor, i)
    ensures Picked(ts, cursor) == i
  {
    PickUnique(ts, cursor, i, Picked(ts, cursor));
  }

  /** Some ready slot is closest, if any is ready. */
  lemma SomeonePicked(ts: Tasks, cursor: nat, j: nat)
    requires cursor < MAX_TASKS && j < MAX_TASKS && IsReady(ts[j])
    ensures Picks(ts, cursor, Picked(ts, cursor))
    decreases Ahead(cursor, j)
  {
    if !Picks(ts, cursor, j) {
      var k :| 0 <= k < MAX_TASKS && IsReady(ts[k]) && Ahead(cursor, k) < Ahead(cursor, j);
      SomeonePicked(ts, cursor, k);
    }
  }

  // ------------------------------------------------------------- the run queue

  /** The first slot at or after `i` that holds the pid, or MAX_TASKS. */
  function SlotFrom(ts: Tasks, pid: nat, i: nat): (j: nat)
    requires i <= MAX_TASKS
    ensures i <= j <= MAX_TASKS && (j < MAX_TASKS ==> ts[j].Some? && ts[j].value.pid == pid)
    ensures forall k :: i <= k < j ==> !(ts[k].Some? && ts[k].value.pid == pid)
    decreases MAX_TASKS - i
  {
    if i == MAX_TASKS || (ts[i].Some? && ts[i].value.pid == pid) then i else SlotFrom(ts, pid, i + 1)
  }

  function SlotOf(ts: Tasks, pid: nat): (i: nat)
    ensures i <= MAX_TASKS && (i < MAX_TASKS ==> ts[i].Some? && ts[i].value.pid == pid)
  {
    SlotFrom(ts, pid, 0)
  }

  /** The first free slot at or after `i`, or MAX_TASKS. */
  function FreeFrom(ts: Tasks, i: nat): (j: nat)
    requires i <= MAX_TASKS
    ensures i <= j <= MAX_TASKS && (j < MAX_TASKS ==> ts[j].None?)
    ensures forall k :: i <= k < j ==> ts[k].Some?
    decreases MAX_TASKS - i
  {
    if i == MAX_TASKS || ts[i].None? then i else FreeFrom(ts, i + 1)
  }

  function FreeOf(ts: Tasks): (i: nat)
    ensures i <= MAX_TASKS && (i < MAX_TASKS ==> ts[i].None?)
    ensures forall k :: 0 <= k < i ==> ts[k].Some?
  {
    FreeFrom(ts, 0)
  }

  /** The slots after `pid` went to sleep on `port`. */
  function AfterBlock(ts: Tasks, pid: nat, port: nat): Tasks
  {
    var i := SlotOf(ts, pid);
    if i == MAX_TASKS then ts else ts[i := Some(ts[i].value.(state := Blocked, blockedOn := Some(port)))]
  }

  /** A task after signal `signo` was delivered: pending, and no longer blocked. */
  function Signalled(t: Task, signo: nat): Task
    requires signo > 0
  {
    t.(pending := Or(t.pending, Pow2(signo - 1)), state := if t.state == Blocked then Ready else t.state)
  }

  /** Exactly one bit is added, and nothing but the state of a sleeper changes besides. */
  lemma SignalledBits(t: Task, signo: nat)
    requires signo > 0
    ensures var t' := Signalled(t, signo);
            && (forall j: nat :: Bit(t'.pending, j) <==> Bit(t.pending, j) || j == signo - 1)
            && t' == t.(pending := t'.pending, state := if t.state == Blocked then Ready else t.state)
  {
    hide Bit, Or, Pow2;
    forall j: nat
      ensures Bit(Or(t.pending, Pow2(signo - 1)), j) <==> Bit(t.pending, j) || j == signo - 1
    {
      OrBits(t.pending, Pow2(signo - 1), j);
      PowerBit(signo - 1, j);
    }
  }

  function AfterSignal(ts: Tasks, pid: nat, signo: nat): Tasks
  {
    var i := SlotOf(ts, pid);
    if i == MAX_TASKS || !(0 < signo <= 64) then ts else ts[i := Some(Signalled(ts[i].value, signo))]
  }

  /** Slot after a wake-up of everyone blocked on `port`. */
  function Woken(t: Option<Task>, port: nat): Option<Task>
  {
    if t.Some? && t.value.blockedOn == Some(port) && t.value.state == Blocked
    then Some(t.value.(state := Ready, blockedOn := None)) else t
  }

  // ------------------------------------------------------------ bounded waiting

  /** What happens to a run queue between and besides picks; `Turn` sets a task running, ready again or dead. */
  datatype Event =
    | Pick
    | Add(t: Task)
    | Sleep(pid: nat, port: nat)
    | Wake(port: nat)
    | Signal(pid: nat, signo: nat)
    | Turn(i: nat, state: TaskState)
    | Reap(i: nat)

  /** The slots after an event other than a pick. */
  function Changed(ts: Tasks, e: Event): Tasks
    requires !e.Pick?
  {
    match e
    case Add(t) => if FreeOf(ts) < MAX_TASKS then ts[FreeOf(ts) := Some(t)] else ts
    case Sleep(pid, port) => AfterBlock(ts, pid, port)
    case Wake(port) => seq(MAX_TASKS, i requires 0 <= i < MAX_TASKS => Woken(ts[i], port))
    case Signal(pid, signo) => AfterSignal(ts, pid, signo)
    case Turn(i, state) => if i < MAX_TASKS && ts[i].Some? then ts[i := Some(ts[i].value.(state := state))] else ts
    case Reap(i) => if i < MAX_TASKS then ts[i := None] else ts
  }

  lemma AllWoken(ts: Tasks, ts': Tasks, port: nat)
    requires forall i :: 0 <= i < MAX_TASKS ==> ts'[i] == Woken(ts[i], port)
    ensures ts' == Changed(ts, Wake(port))
  {
  }

  lemma NobodyPicked(ts: Tasks, cursor: nat)
    requires cursor < MAX_TASKS && forall k :: 0 <= k < MAX_TASKS ==> !IsReady(ts[k])
    ensures Picked(ts, cursor) == MAX_TASKS
  {
  }

  /** The slots picked in a run, in order. */
  ghost function PickLog(ts: Tasks, cursor: nat, es: seq<Event>): seq<nat>
    requires cursor < MAX_TASKS
    decreases |es|
  {
    if es == [] then []
    else if !es[0].Pick? then PickLog(Changed(ts, es[0]), cursor, es[1..])
    else
      var i := Picked(ts, cursor);
      if i < MAX_TASKS then [i] + PickLog(ts, Next(i), es[1..]) else PickLog(ts, cursor, es[1..])
  }

  /** Whenever a pick is made in the run, slot `j` is ready. */
  ghost predicate StaysReady(ts: Tasks, cursor: nat, es: seq<Event>, j: nat)
    requires cursor < MAX_TASKS && j < MAX_TASKS
    decreases |es|
  {
    if es == [] then true
    else if !es[0].Pick? then StaysReady(Changed(ts, es[0]), cursor, es[1..], j)
    else
      var i := Picked(ts, cursor);
      IsReady(ts[j]) && StaysReady(ts, if i < MAX_TASKS then Next(i) else cursor, es[1..], j)
  }

  function PickCount(es: seq<Event>): nat
  {
    if es == [] then 0 else (if es[0].Pick? then 1 else 0) + PickCount(es[1..])
  }

  /** As long as slot `j` is ready and passed over, each pick comes closer to it. */
  lemma {:induction false} PickedAhead(ts: Tasks, cursor: nat, es: seq<Event>, j: nat)
    requires cursor < MAX_TASKS && j < MAX_TASKS && StaysReady(ts, cursor, es, j)
    ensures |PickLog(ts, cursor, es)| == PickCount(es)
    ensures j !in PickLog(ts, cursor, es) ==> |PickLog(ts, cursor, es)| <= Ahead(cursor, j)
    decreases |es|
  {
    hide Picks, Changed;
    if es != [] {
      if es[0].Pick? {
        SomeonePicked(ts, cursor, j);
        var i := Picked(ts, cursor);
        PickInRange(ts, cursor, i);
        if i != j { PickApproaches(ts, cursor, i, j); }
        PickedAhead(ts, Next(i), es[1..], j);
      } else {
        PickedAhead(Changed(ts, es[0]), cursor, es[1..], j);
      }
    }
  }

  lemma PickInRange(ts: Tasks, cursor: nat, i: nat)
    requires cursor < MAX_TASKS && Picks(ts, cursor, i)
    ensures i < MAX_TASKS
  {
  }

  /**
    Bounded waiting: in every run, from any state, a slot that is ready at every pick is
    among the slots picked once MAX_TASKS picks were made, whatever enqueues, removals,
    blocks, wake-ups and signals happen in between.
   */
  lemma BoundedWaiting(ts: Tasks, cursor: nat, es: seq<Event>, j: nat)
    requires cursor < MAX_TASKS && j < MAX_TASKS && StaysReady(ts, cursor, es, j) && PickCount(es) >= MAX_TASKS
    ensures j in PickLog(ts, cursor, es)
  {
    PickedAhead(ts, cursor, es, j);
  }

  class RunQueue {
    var tasks: Tasks
    var len: nat
    var cursor: nat

    ghost predicate Valid()
      reads this
    {
      cursor < MAX_TASKS && len == Count(tasks)
    }

    constructor ()
      ensures Valid() && cursor == 0 && forall i :: 0 <= i < MAX_TASKS ==> tasks[i].None?
    {
      tasks := seq(MAX_TASKS, _ => None);
      len, cursor := 0, 0;
      new;
      AllNone(tasks);
    }

    /** Put a task into the first free slot. */
    method Enqueue(t: Task) returns (ok: bool)
      requires Valid()
      modifies this`tasks, this`len
      ensures Valid()
      ensures var i := FreeOf(old(tasks));
              && (ok <==> i < MAX_TASKS)
              && tasks == if ok then old(tasks)[i := Some(t)] else old(tasks)
    {
      hide Count;
      for i := 0 to MAX_TASKS
        invariant tasks == old(tasks) && Valid() && FreeFrom(tasks, i) == FreeOf(tasks)
      {
        if tasks[i].None? {
          CountUpdate(tasks, i, Some(t));
          tasks := tasks[i := Some(t)];
          len := len + 1;
          return true;
        }
      }
      return false;
    }

    /** Choose the next ready task, round robin. */
    method PickNext() returns (r: Option<nat>)
      requires Valid()
      modifies this`cursor
      ensures Valid()
      ensures r.None? ==> cursor == old(cursor) && forall k :: 0 <= k < MAX_TASKS ==> !IsReady(tasks[k])
      ensures r.Some? ==> Picks(tasks, old(cursor), r.value) && cursor == Next(r.value)
    {
      hide Count;
      if len == 0 {
        CountZero(tasks);
        return None;
      }
      for i := cursor to MAX_TASKS
        invariant cursor == old(cursor) && forall k :: cursor <= k < i ==> !IsReady(tasks[k])
      {
        if tasks[i].Some? && tasks[i].value.state == Ready {
          cursor := (i + 1) % 256;
          return Some(i);
        }
      }
      for i := 0 to cursor
        invariant cursor == old(cursor)
                  && forall k :: 0 <= k < MAX_TASKS && (cursor <= k || k < i) ==> !IsReady(tasks[k])
      {
        if tasks[i].Some? && tasks[i].value.state == Ready {
          cursor := (i + 1) % 256;
          return Some(i);
        }
      }
      return None;
    }

    method FindPid(pid: nat) returns (i: nat)
      ensures i == SlotOf(tasks, pid)
    {
      i := 0;
      while i < MAX_TASKS && !(tasks[i].Some? && tasks[i].value.pid == pid)
        invariant i <= MAX_TASKS && SlotFrom(tasks, pid, i) == SlotOf(tasks, pid)
      {
        i := i + 1;
      }
    }

    /** Replace the task in an occupied slot. */
    method Put(i: nat, t: Task)
      requires Valid() && i < MAX_TASKS && tasks[i].Some?
      modifies this`tasks
      ensures Valid() && tasks == old(tasks)[i := Some(t)]
    {
      hide Count;
      CountUpdate(tasks, i, Some(t));
      tasks := tasks[i := Some(t)];
    }

    /** Block a task on a port. */
    method BlockOnPort(pid: nat, port: nat)
      requires Valid()
      modifies this`tasks
      ensures Valid() && tasks == AfterBlock(old(tasks), pid, port)
    {
      var i := FindPid(pid);
      if i < MAX_TASKS { Put(i, tasks[i].value.(state := Blocked, blockedOn := Some(port))); }
    }

    /** Wake everyone who is blocked on a port. */
    method UnblockPort(port: nat)
      requires Valid()
      modifies this`tasks
      ensures Valid()
      ensures forall i :: 0 <= i < MAX_TASKS ==> tasks[i] == Woken(old(tasks)[i], port)
    {
      hide Count;
      for i := 0 to MAX_TASKS
        invariant Valid()
        invariant forall k :: 0 <= k < MAX_TASKS ==>
                    tasks[k] == if k < i then Woken(old(tasks)[k], port) else old(tasks)[k]
      {
        var t := tasks[i];
        if t.Some? && t.value.blockedOn == Some(port) && t.value.state == Blocked {
          Put(i, t.value.(state := Ready, blockedOn := None));
        }
      }
    }

    /**
      Deliver a signal: a blocked task becomes ready, whatever it was waiting for.
      -3: no such pid, -22: no such signal.
     */
    method DeliverSignal(pid: nat, signo: nat) returns (r: int)
      requires Valid()
      modifies this`tasks
      ensures Valid() && tasks == AfterSignal(old(tasks), pid, signo)
      ensures r == if SlotOf(old(tasks), pid) == MAX_TASKS then -3 else if 0 < signo <= 64 then 0 else -22
      ensures r == 0 ==>
                var i := SlotOf(old(tasks), pid);
                && tasks[i].Some?
                && var t, t' := old(tasks)[i].value, tasks[i].value;
                   && (forall j: nat :: Bit(t'.pending, j) <==> Bit(t.pending, j) || j == signo - 1)
                   && t' == t.(pending := t'.pending, state := if t.state == Blocked then Ready else t.state)
    {
      hide Or, Pow2, Bit;
      var i := FindPid(pid);
      if i == MAX_TASKS { return -3; }
      if !(0 < signo <= 64) { return -22; }
      SignalledBits(tasks[i].value, signo);
      Put(i, Signalled(tasks[i].value, signo));
      return 0;
    }

    /** Take a task out of its slot. */
    method Remove(i: nat) returns (t: Option<Task>)
      requires Valid() && i < MAX_TASKS
      modifies this`tasks, this`len
      ensures Valid() && t == old(tasks)[i] && tasks == old(tasks)[i := None]
    {
      hide Count;
      t := tasks[i];
      CountUpdate(tasks, i, None);
      if t.Some? {
        CountPositive(tasks, i);
        len := len - 1;
      }
      tasks := tasks[i := None];
    }

    /** Let one thing happen. */
    method Perform(e: Event) returns (r: Option<nat>)
      requires Valid()
      modifies this`tasks, this`len, this`cursor
      ensures Valid()
      ensures e.Pick? ==>
                var i := Picked(old(tasks), old(cursor));
                && tasks == old(tasks)
                && if i < MAX_TASKS then r == Some(i) && cursor == Next(i) else r == None && cursor == old(cursor)
      ensures !e.Pick? ==> r == None && cursor == old(cursor) && tasks == Changed(old(tasks), e)
    {
      hide Count, Picks;
      r := None;
      match e
      case Pick =>
        r := PickNext();
        if r.Some? {
          PickedIs(tasks, old(cursor), r.value);
          PickInRange(tasks, old(cursor), r.value);
        } else {
          NobodyPicked(tasks, cursor);
        }
      case Add(t) => var _ := Enqueue(t);
      case Sleep(pid, port) => BlockOnPort(pid, port);
      case Wake(port) =>
        UnblockPort(port);
        AllWoken(old(tasks), tasks, port);
      case Signal(pid, signo) => var _ := DeliverSignal(pid, signo);
      case Turn(i, state) => if i < MAX_TASKS && tasks[i].Some? { Put(i, tasks[i].value.(state := state)); }
      case Reap(i) => if i < MAX_TASKS { var _ := Remove(i); }
    }

    /** Any run: the slots picked are those of `PickLog`. */
    method Run(es: seq<Event>) returns (picks: seq<nat>)
      requires Valid()
      modifies this`tasks, this`len, this`cursor
      ensures Valid() && picks == PickLog(old(tasks), old(cursor), es)
    {
      hide Count, Picked, Changed;
      picks := [];
      for n := 0 to |es|
        invariant Valid() && picks + PickLog(tasks, cursor, es[n..]) == PickLog(old(tasks), old(cursor), es)
      {
        assert es[n..][1..] == es[n + 1..];
        var r := Perform(es[n]);
        if r.Some? { picks := picks + [r.value]; }
      }
    }
  }

  lemma {:induction false} AllNone(ts: seq<Option<Task>>)
    requires forall i :: 0 <= i < |ts| ==> ts[i].None?
    ensures Count(ts) == 0
  {
    if ts != [] { AllNone(ts[..|ts| - 1]); }
  }
}
