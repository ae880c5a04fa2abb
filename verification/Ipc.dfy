/**
  Message passing between tasks on one processor (kernel/src/syscall.rs, ipc/src/port.rs,
  sched/src/lib.rs): create, send, receive, close and signals as atomic steps. No wake-up
  is lost and messages arrive in order.
 */
module Ipc {
  import opened Words
  import opened Ports
  import opened Sched

  // ------------------------------------------------------------ issuing numbers

  /** Every bucket on the probe path of `id` is occupied. */
  predicate WindowFull(b: Table, id: nat)
  {
    forall k :: 0 <= k < PROBES ==> b[Probe(id, k)].id.Some?
  }

  /** After how many attempts number `id` comes up, starting at `start`. */
  function Turn(start: nat, id: nat): nat
    requires start < MAX_PORTS && id < MAX_PORTS
  {
    if start <= id then id - start else id + MAX_PORTS - start
  }

  /** The first free step of a probe path at or after `i`, or PROBES. */
  function FreeFrom(b: Table, id: nat, i: nat): (k: nat)
    requires i <= PROBES
    ensures i <= k <= PROBES && (k < PROBES ==> b[Probe(id, k)].id.None?)
    ensures forall n :: i <= n < k ==> b[Probe(id, n)].id.Some?
    decreases PROBES - i
  {
    if i == PROBES || b[Probe(id, i)].id.None? then i else FreeFrom(b, id, i + 1)
  }

  function FreeStepOf(b: Table, id: nat): (k: nat)
    ensures k <= PROBES && (k < PROBES ==> b[Probe(id, k)].id.None?) && (k == PROBES <==> WindowFull(b, id))
    ensures forall n :: 0 <= n < k ==> b[Probe(id, n)].id.Some?
  {
    FreeFrom(b, id, 0)
  }

  method FreeStep(b: Table, id: nat) returns (i: nat)
    ensures i == FreeStepOf(b, id)
  {
    i := 0;
    while i < PROBES && b[Probe(id, i)].id.Some?
      invariant i <= PROBES && FreeFrom(b, id, i) == FreeStepOf(b, id)
    {
      i := i + 1;
    }
  }

  /** The number issued after `n` attempts from `start` found no room: the next one with room on its path. */
  function IssuedFrom(b: Table, start: nat, n: nat): (r: Option<nat>)
    ensures r.Some? ==> r.value < MAX_PORTS && !WindowFull(b, r.value)
    decreases MAX_PORTS - n
  {
    if n >= MAX_PORTS then None
    else
      var id := (start + n) % 65536;
      if WindowFull(b, id) then IssuedFrom(b, start, n + 1) else Some(id)
  }

  function Issued(b: Table, start: nat): (r: Option<nat>)
    ensures r.Some? ==> r.value < MAX_PORTS && !WindowFull(b, r.value)
  {
    IssuedFrom(b, start, 0)
  }

  /** The table after number `id` was issued to `pid`. */
  function Filled(b: Table, id: nat, pid: nat): Table
    requires !WindowFull(b, id)
  {
    var j := Probe(id, FreeStepOf(b, id));
    b[j := Opened(b[j], id, pid)]
  }

  /** A bucket handed to a new port; the ring restarts empty. */
  function Opened(e: Entry, id: nat, pid: nat): (r: Entry)
    ensures EntryOk(e) ==> EntryOk(r)
  {
    e.(id := Some(id), owner := pid, head := 0, tail := 0)
  }

  lemma OpenedOk(e: Entry, id: nat, pid: nat)
    requires EntryOk(e)
    ensures var r := Opened(e, id, pid); EntryOk(r) && r.id == Some(id) && r.owner == pid && Messages(r) == []
  {
  }

  /** Numbers that come up before the one issued have no room; if none is issued, no number has. */
  lemma {:induction false} IssuedFirst(b: Table, start: nat, n: nat)
    requires start < MAX_PORTS
    ensures var r := IssuedFrom(b, start, n);
            forall k ::
              0 <= k < MAX_PORTS && n <= Turn(start, k) && (r.Some? ==> Turn(start, k) < Turn(start, r.value)) ==>
                WindowFull(b, k)
    decreases MAX_PORTS - n
  {
    hide WindowFull;
    if n < MAX_PORTS {
      var id := (start + n) % 65536;
      TurnOf(start, n);
      if WindowFull(b, id) {
        IssuedFirst(b, start, n + 1);
        forall k | 0 <= k < MAX_PORTS && Turn(start, k) == n
          ensures k == id
        {
          TurnOf(start, n);
        }
      }
    }
  }

  lemma TurnOf(start: nat, n: nat)
    requires start < MAX_PORTS && n < MAX_PORTS
    ensures var id := (start + n) % 65536; id < MAX_PORTS && Turn(start, id) == n
    ensures forall k :: 0 <= k < MAX_PORTS && Turn(start, k) == n ==> k == (start + n) % 65536
  {
  }

  /** If no number is issued, no bucket is free. */
  lemma AllFull(b: Table, start: nat)
    requires start < MAX_PORTS && Issued(b, start).None?
    ensures forall j :: 0 <= j < BUCKETS ==> b[j].id.Some?
  {
    hide EntryOk, IssuedFrom, WindowFull;
    IssuedFirst(b, start, 0);
    forall j | 0 <= j < BUCKETS
      ensures b[j].id.Some?
    {
      FullAt(b, j);
    }
  }

  lemma FullAt(b: Table, j: nat)
    requires j < BUCKETS && WindowFull(b, j)
    ensures b[j].id.Some?
  {
    hide EntryOk;
    assert Probe(j, 0) == j;
  }

  /**
    Issue a port number: the next one, cyclically, with a free bucket on its path. Fails
    only when every bucket is taken.
   */
  method Alloc(b: Table, nextId: nat, pid: nat) returns (r: Option<nat>, b': Table, nextId': nat)
    requires nextId < MAX_PORTS
    ensures r == Issued(b, nextId) && nextId' < MAX_PORTS
    ensures r.None? ==> b' == b && nextId' == nextId && forall j :: 0 <= j < BUCKETS ==> b[j].id.Some?
    ensures r.Some? ==>
              && b' == Filled(b, r.value, pid) && Reached(b', r.value, FreeStepOf(b, r.value))
              && nextId' == (r.value + 1) % 65536
              && forall id :: 0 <= id < MAX_PORTS && Turn(nextId, id) < Turn(nextId, r.value) ==> WindowFull(b, id)
  {
    hide WindowFull, Reached, EntryOk, FreeStepOf, Probe, Turn, Opened, Messages, Filled, Issued, IssuedFrom;
    FirstAttempt(b, nextId);
    nextId', b' := nextId, b;
    for n := 0 to MAX_PORTS
      invariant nextId' < MAX_PORTS && b' == b && nextId' == (nextId + n) % 65536
      invariant IssuedFrom(b, nextId, n) == Issued(b, nextId)
    {
      NextAttempt(b, nextId, n);
      var id := nextId';
      nextId' := (nextId' + 1) % 65536;
      var k := FreeStep(b, id);
      if k < PROBES {
        var j := Probe(id, k);
        FilledHere(b, id, pid);
        b' := b[j := Opened(b[j], id, pid)];
        EarlierFull(b, nextId);
        return Some(id), b', nextId';
      }
    }
    LastAttempt(b, nextId);
    AllFull(b, nextId);
    return None, b, nextId';
  }

  lemma FirstAttempt(b: Table, start: nat)
    ensures IssuedFrom(b, start, 0) == Issued(b, start)
  {
    hide EntryOk;
  }

  /** The attempt with number `n`: issue that number, or go on. */
  lemma NextAttempt(b: Table, start: nat, n: nat)
    requires n < MAX_PORTS
    ensures var id := (start + n) % 65536;
            IssuedFrom(b, start, n) == if FreeStepOf(b, id) == PROBES then IssuedFrom(b, start, n + 1) else Some(id)
  {
    hide EntryOk, FreeStepOf, WindowFull;
  }

  lemma LastAttempt(b: Table, start: nat)
    ensures IssuedFrom(b, start, MAX_PORTS) == None
  {
    hide EntryOk, WindowFull;
  }

  lemma EarlierFull(b: Table, start: nat)
    requires start < MAX_PORTS && Issued(b, start).Some?
    ensures var r := Issued(b, start).value;
            forall id :: 0 <= id < MAX_PORTS && Turn(start, id) < Turn(start, r) ==> WindowFull(b, id)
  {
    hide EntryOk, WindowFull;
    IssuedFirst(b, start, 0);
  }

  /** Filling the first free bucket on its path makes a number findable. */
  lemma FilledHere(b: Table, id: nat, pid: nat)
    requires FreeStepOf(b, id) < PROBES
    ensures var k := FreeStepOf(b, id); var j := Probe(id, k);
            && !WindowFull(b, id) && EntryOk(Opened(b[j], id, pid))
            && Filled(b, id, pid) == b[j := Opened(b[j], id, pid)]
            && Reached(Filled(b, id, pid), id, k)
  {
    hide FreeStepOf, Probe, Reached, EntryOk;
    var k := FreeStepOf(b, id);
    var j := Probe(id, k);
    OpenedOk(b[j], id, pid);
    FillReached(b, id, k, Opened(b[j], id, pid));
  }

  lemma FillReached(b: Table, id: nat, k: nat, e: Entry)
    requires k < PROBES && EntryOk(e) && e.id == Some(id) && forall i :: 0 <= i < k ==> b[Probe(id, i)].id.Some?
    ensures Reached(b[Probe(id, k) := e], id, k)
  {
  }

  // ------------------------------------------------------------------ invariants

  /** Task `t` sleeps on port `p`. */
  predicate Sleeps(t: Option<Task>, p: nat)
  {
    t.Some? && t.value.state == Blocked && t.value.blockedOn == Some(p)
  }

  /** No lost wake-up: whoever sleeps on a port has nothing waiting there. */
  ghost predicate NoLost(b: Table, ts: Tasks)
  {
    forall t, j, p: nat :: 0 <= t < MAX_TASKS && 0 <= j < BUCKETS && Sleeps(ts[t], p) && b[j].id == Some(p) ==>
             Messages(b[j]) == []
  }

  /** Per bucket, what the present port accepted and what it gave out. */
  datatype Log = Log(sent: seq<Message>, got: seq<Message>)

  /** Messages received are a prefix of those accepted, in order; the rest is queued. */
  ghost predicate LogsOk(b: Table, logs: seq<Log>)
  {
    |logs| == BUCKETS && forall j :: 0 <= j < BUCKETS ==> logs[j].sent == logs[j].got + Messages(b[j])
  }

  /** As long as no port was closed, numbers and buckets are handed out in order. */
  predicate Dense(b: Table, nextId: nat)
  {
    nextId <= BUCKETS && forall j :: 0 <= j < BUCKETS ==> b[j].id == if j < nextId then Some(j) else None
  }

  predicate Live(b: Table, id: nat)
  {
    exists j :: 0 <= j < BUCKETS && b[j].id == Some(id)
  }

  lemma CreateUnique(b: Table, j: nat, e: Entry, id: nat)
    requires Unique(b) && j < BUCKETS && EntryOk(e) && e.id == Some(id) && !Live(b, id)
    ensures Unique(b[j := e])
  {
  }

  lemma CreateNoLost(b: Table, ts: Tasks, j: nat, e: Entry)
    requires NoLost(b, ts) && j < BUCKETS && EntryOk(e) && Messages(e) == []
    ensures NoLost(b[j := e], ts)
  {
    hide Messages;
  }

  /** Numbers issued in order are new. */
  lemma DenseIssues(b: Table, nextId: nat, id: nat, i: nat)
    requires Dense(b, nextId) && id < MAX_PORTS && i < PROBES && b[Probe(id, i)].id.None?
    requires forall k :: 0 <= k < MAX_PORTS && Turn(nextId, k) < Turn(nextId, id) ==> WindowFull(b, k)
    requires forall k :: 0 <= k < i ==> b[Probe(id, k)].id.Some?
    ensures id == nextId < BUCKETS && Probe(id, i) == nextId && !Live(b, id)
  {
    assert nextId < BUCKETS;
    assert Probe(nextId, 0) == nextId && b[nextId].id.None?;
    assert id == nextId by {
      assert Turn(nextId, nextId) == 0;
      assert !WindowFull(b, nextId);
    }
    assert i == 0;
  }

  /** A message goes to a bucket: everyone who slept on its port is awake afterwards. */
  lemma SendNoLost(b: Table, ts: Tasks, ts': Tasks, j: nat, e: Entry, p: nat)
    requires NoLost(b, ts) && j < BUCKETS && EntryOk(e) && b[j].id == Some(p) && e.id == Some(p)
    requires forall i :: 0 <= i < MAX_TASKS ==> ts'[i] == Woken(ts[i], p)
    ensures NoLost(b[j := e], ts')
  {
    hide Messages;
    var b': Table := b[j := e];
    forall t, k, q: nat | 0 <= t < MAX_TASKS && 0 <= k < BUCKETS && Sleeps(ts'[t], q) && b'[k].id == Some(q)
      ensures Messages(b'[k]) == []
    {
      assert ts'[t] == Woken(ts[t], p) && Sleeps(ts[t], q) && q != p;
      assert k != j;
    }
  }

  /** Going to sleep on a port that is empty in all its buckets. */
  lemma BlockNoLost(b: Table, ts: Tasks, i: nat, t: Task, p: nat, j: nat)
    requires NoLost(b, ts) && Unique(b) && i < MAX_TASKS && t.blockedOn == Some(p) && j < BUCKETS && b[j].id == Some(p)
             && Messages(b[j]) == []
    ensures NoLost(b, ts[i := Some(t)])
  {
    hide Messages;
    var ts' := ts[i := Some(t)];
    forall x, k, q: nat | 0 <= x < MAX_TASKS && 0 <= k < BUCKETS && Sleeps(ts'[x], q) && b[k].id == Some(q)
      ensures Messages(b[k]) == []
    {
      if x == i { assert q == p && k == j; } else { assert Sleeps(ts[x], q); }
    }
  }

  /** Waking, or taking messages out, keeps everyone's sleep justified. */
  lemma FewerNoLost(b: Table, ts: Tasks, b': Table, ts': Tasks)
    requires NoLost(b, ts)
    requires forall t, p: nat :: 0 <= t < MAX_TASKS && Sleeps(ts'[t], p) ==> Sleeps(ts[t], p)
    requires forall j :: 0 <= j < BUCKETS && b'[j].id.Some? ==>
               b'[j].id == b[j].id && (Messages(b[j]) == [] ==> Messages(b'[j]) == [])
    ensures NoLost(b', ts')
  {
    hide Messages;
  }

  // -------------------------------------------------------------------- the system

  datatype Op =
    | OpCreate(pid: nat)
    | OpClose(port: nat)
    | OpSend(port: nat, msg: Message)
    | OpRecv(pid: nat, port: nat)
    | OpSignal(pid: nat, signo: nat)
    | OpSpawn(pid: nat)       // a new task, ready to run
    | OpDispatch              // the next ready task runs
    | OpYield(i: nat)         // the running task in a slot is ready again
    | OpExit(pid: nat)        // a task is done
    | OpReap(i: nat)          // the slot of a task that is done is emptied

  datatype Out = Done | Number(n: Option<nat>) | Answer(r: int) | Got(r: int, msg: Option<Message>)

  /** The state that operations act on. */
  datatype Snap = Snap(table: Table, nextId: nat, tasks: Tasks, cursor: nat)

  /** Only the queue of bucket `j` changed, to `q`. */
  ghost predicate QueueSet(b: Table, b': Table, j: nat, q: seq<Message>)
    requires j < BUCKETS
  {
    && b' == b[j := b'[j]] && b'[j].id == b[j].id && b'[j].owner == b[j].owner && Messages(b'[j]) == q
  }

  ghost predicate CreateStep(s: Snap, pid: nat, out: Out, s': Snap)
  {
    var r := Issued(s.table, s.nextId);
    && out == Number(r)
    && s' == if r.None? then s else s.(table := Filled(s.table, r.value, pid), nextId := (r.value + 1) % 65536)
  }

  ghost predicate CloseStep(s: Snap, port: nat, out: Out, s': Snap)
  {
    var i := FindFrom(s.table, port, 0);
    && out == Done && s' == s.(table := s'.table)
    && s'.table == if i < PROBES then s.table[Probe(port, i) := FREE] else s.table
  }

  ghost predicate SendStep(s: Snap, port: nat, msg: Message, out: Out, s': Snap)
  {
    var i := FindFrom(s.table, port, 0);
    if i >= PROBES then out == Answer(-9) && s' == s
    else
      var j := Probe(port, i);
      && s.table[j].id == Some(port)
      && if |Messages(s.table[j])| == DEPTH - 1 then out == Answer(-11) && s' == s
         else
           && out == Answer(0) && QueueSet(s.table, s'.table, j, Messages(s.table[j]) + [msg])
           && s' == s.(table := s'.table, tasks := s'.tasks)
           && forall t :: 0 <= t < MAX_TASKS ==> s'.tasks[t] == Woken(s.tasks[t], port)
  }

  ghost predicate RecvStep(s: Snap, pid: nat, port: nat, out: Out, s': Snap)
  {
    var i := FindFrom(s.table, port, 0);
    if i >= PROBES || s.table[Probe(port, i)].owner != pid then out == Got(-13, None) && s' == s
    else
      var j := Probe(port, i);
      && s.table[j].id == Some(port)
      && if Messages(s.table[j]) == [] then
           out == Got(-11, None) && s' == s.(tasks := AfterBlock(s.tasks, pid, port))
         else
           && out == Got(0, Some(Messages(s.table[j])[0]))
           && QueueSet(s.table, s'.table, j, Messages(s.table[j])[1..]) && s' == s.(table := s'.table)
  }

  /** Tasks and cursor after one of the operations that leave ports alone. */
  ghost predicate TaskStep(s: Snap, op: Op, out: Out, s': Snap)
  {
    && s' == s.(tasks := s'.tasks, cursor := s'.cursor) && (!op.OpDispatch? ==> s'.cursor == s.cursor)
    && match op
       case OpSignal(pid, signo) =>
         && s'.tasks == AfterSignal(s.tasks, pid, signo)
         && out == Answer(if SlotOf(s.tasks, pid) == MAX_TASKS then -3 else if 0 < signo <= 64 then 0 else -22)
       case OpSpawn(pid) =>
         var i := FreeOf(s.tasks);
         && out == Number(if i < MAX_TASKS then Some(pid) else None)
         && s'.tasks == if i < MAX_TASKS then s.tasks[i := Some(Task(pid, Ready, None, 0))] else s.tasks
       case OpDispatch =>
         s.cursor < MAX_TASKS &&
         var i := Picked(s.tasks, s.cursor);
         if i < MAX_TASKS && s.tasks[i].Some? then
           out == Number(Some(i)) && s'.cursor == Next(i) && s'.tasks == Turned(s.tasks, i, Running)
         else out == Number(None) && s' == s
       case OpYield(i) =>
         && out == Done
         && s'.tasks == if i < MAX_TASKS && s.tasks[i].Some? && s.tasks[i].value.state == Running
                        then Turned(s.tasks, i, Ready) else s.tasks
       case OpExit(pid) =>
         && out == Done
         && s'.tasks == Turned(s.tasks, SlotOf(s.tasks, pid), Zombie)
       case OpReap(i) =>
         && out == Done
         && s'.tasks == if i < MAX_TASKS && s.tasks[i].Some? && s.tasks[i].value.state == Zombie
                        then s.tasks[i := None] else s.tasks
       case _ => false
  }

  /** The task in slot `i`, if there is one, is in the given state. */
  function Turned(ts: Tasks, i: nat, state: TaskState): Tasks
  {
    if i < MAX_TASKS && ts[i].Some? then ts[i := Some(ts[i].value.(state := state))] else ts
  }

  /** The operation issued the number of a port that was live. */
  ghost predicate IsReissue(b: Table, op: Op, out: Out)
  {
    op.OpCreate? && out.Number? && out.n.Some? && Live(b, out.n.value)
  }

  /** One operation, completely. */
  ghost predicate Stepped(s: Snap, op: Op, out: Out, s': Snap)
  {
    match op
    case OpCreate(pid) => CreateStep(s, pid, out, s')
    case OpClose(port) => CloseStep(s, port, out, s')
    case OpSend(port, msg) => SendStep(s, port, msg, out, s')
    case OpRecv(pid, port) => RecvStep(s, pid, port, out, s')
    case _ => TaskStep(s, op, out, s')
  }

  ghost predicate Trace(snaps: seq<Snap>, ops: seq<Op>, outs: seq<Out>)
  {
    && |snaps| == |ops| + 1 && |outs| == |ops|
    && forall k :: 0 <= k < |ops| ==> Stepped(snaps[k], ops[k], outs[k], snaps[k + 1])
  }

  class System {
    const rq: RunQueue
    var table: Table
    var nextId: nat
    ghost var logs: seq<Log>
    ghost var closed: bool      // some port was closed
    ghost var reissued: bool    // some number was issued while a port with it was live

    ghost predicate Valid()
      reads this, rq
    {
      && rq.Valid() && nextId < MAX_PORTS && LogsOk(table, logs)
      && (!closed ==> Dense(table, nextId) && !reissued)
      && (!reissued ==> Unique(table) && NoLost(table, rq.tasks))
    }

    ghost function Now(): Snap
      reads this, rq
    {
      Snap(table, nextId, rq.tasks, rq.cursor)
    }

    constructor ()
      ensures Valid() && fresh(rq) && !closed && !reissued
      ensures nextId == 0 && forall j :: 0 <= j < BUCKETS ==> table[j] == FREE
    {
      rq := new RunQueue();
      table, nextId := seq(BUCKETS, _ => FREE), 0;
      logs, closed, reissued := seq(BUCKETS, _ => Log([], [])), false, false;
    }

    /** The bucket of a port, or BUCKETS. */
    method Find(port: nat) returns (j: nat)
      ensures var i := FindFrom(table, port, 0); j == if i < PROBES then Probe(port, i) else BUCKETS
      ensures j < BUCKETS ==> table[j].id == Some(port)
    {
      var i := 0;
      while i < PROBES
        invariant i <= PROBES && FindFrom(table, port, i) == FindFrom(table, port, 0)
      {
        j := Probe(port, i);
        if table[j].id.None? { return BUCKETS; }
        if table[j].id == Some(port) { return j; }
        i := i + 1;
      }
      j := BUCKETS;
    }

    /**
      Issue a port. Its number is that of a live port exactly when the next number with
      room on its path is one.
     */
    method Create(pid: nat) returns (r: Option<nat>)
      requires Valid()
      modifies this`table, this`nextId, this`logs, this`reissued
      ensures Valid()
      ensures r == Issued(old(table), old(nextId))
      ensures r.None? ==>
                table == old(table) && nextId == old(nextId) && forall j :: 0 <= j < BUCKETS ==> table[j].id.Some?
      ensures r.Some? ==>
                && table == Filled(old(table), r.value, pid) && nextId == (r.value + 1) % 65536
                && Reached(table, r.value, FreeStepOf(old(table), r.value))
                && var e := table[Probe(r.value, FreeStepOf(old(table), r.value))];
                   e.id == Some(r.value) && e.owner == pid && Messages(e) == []
      ensures r.Some? ==>
                forall id: nat, i: nat :: Reached(old(table), id, i) ==> Reached(table, id, i)
      ensures reissued == (old(reissued) || (r.Some? && Live(old(table), r.value)))
      ensures |old(logs)| == BUCKETS
      ensures logs == if r.None? then old(logs)
                      else old(logs)[Probe(r.value, FreeStepOf(old(table), r.value)) := Log([], [])]
    {
      hide NoLost, LogsOk, Unique, Dense, WindowFull, Messages, EntryOk, Reached, Issued, FreeStepOf, Live, Count,
        Probe;
      ghost var b0, n0 := table, nextId;
      LogCount(b0, logs);
      r, table, nextId := Alloc(table, nextId, pid);
      if r.Some? {
        ghost var i := FreeStepOf(b0, r.value);
        ghost var j := Probe(r.value, i);
        OpenedOk(b0[j], r.value, pid);
        Created(b0, n0, table, rq.tasks, logs, closed, reissued, r.value, i, pid);
        logs := logs[j := Log([], [])];
        reissued := reissued || Live(b0, r.value);
        forall id: nat, k: nat | Reached(b0, id, k)
          ensures Reached(table, id, k)
        {
          FillKeeps(b0, j, Opened(b0[j], r.value, pid), id, k);
        }
      }
    }

    /** Free the port's bucket. */
    method Close(port: nat)
      requires Valid()
      modifies this`table, this`logs, this`closed
      ensures Valid()
      ensures var i := FindFrom(old(table), port, 0);
              && |old(logs)| == BUCKETS
              && if i < PROBES then
                   && closed && table == old(table)[Probe(port, i) := FREE]
                   && logs == old(logs)[Probe(port, i) := Log([], [])]
                 else table == old(table) && closed == old(closed) && logs == old(logs)
    {
      hide NoLost, LogsOk, Unique, Dense, Messages, EntryOk;
      var j := Find(port);
      LogCount(table, logs);
      if j < BUCKETS {
        Closed(table, rq.tasks, logs, j);
        table := table[j := FREE];
        logs, closed := logs[j := Log([], [])], true;
      }
    }

    /** Queue a message and wake whoever sleeps on the port. -9: no such port, -11: full. */
    method Send(port: nat, msg: Message) returns (r: int)
      requires Valid()
      modifies this`table, this`logs, rq`tasks
      ensures Valid()
      ensures r != 0 ==> table == old(table) && rq.tasks == old(rq.tasks) && logs == old(logs)
      ensures var i := FindFrom(old(table), port, 0);
              if i >= PROBES then r == -9
              else
                var j := Probe(port, i);
                && old(table)[j].id == Some(port)
                && r == (if |Messages(old(table)[j])| == DEPTH - 1 then -11 else 0)
                && (r == 0 ==>
                      && Messages(table[j]) == Messages(old(table)[j]) + [msg]
                      && table == old(table)[j := table[j]] && table[j].id == Some(port)
                      && table[j].owner == old(table)[j].owner
                      && logs == old(logs)[j := Log(old(logs)[j].sent + [msg], old(logs)[j].got)]
                      && (forall t :: 0 <= t < MAX_TASKS ==> rq.tasks[t] == Woken(old(rq.tasks)[t], port))
                      && (forall t :: 0 <= t < MAX_TASKS ==> !Sleeps(rq.tasks[t], port)))
    {
      hide NoLost, LogsOk, Unique, Dense, Messages, EntryOk, Enqueue, FindFrom, Probe;
      var k := Find(port);
      if k == BUCKETS { return -9; }
      EnqueueAppends(table[k], msg);
      var e := Enqueue(table[k], msg);
      if e.None? { return -11; }
      ghost var ts, b0 := rq.tasks, table;
      LogCount(b0, logs);
      table := table[k := e.value];
      logs := logs[k := Log(logs[k].sent + [msg], logs[k].got)];
      rq.UnblockPort(port);
      Sent(b0, ts, rq.tasks, old(logs), nextId, k, e.value, port, msg, closed, reissued);
      return 0;
    }

    /**
      One round of receiving: a message, or the caller goes to sleep on its empty port.
      -13: not the owner; -11: blocked.
     */
    method Recv(pid: nat, port: nat) returns (r: int, msg: Option<Message>)
      requires Valid()
      modifies this`table, this`logs, rq`tasks
      ensures Valid()
      ensures r != 0 ==> table == old(table) && logs == old(logs) && msg == None
      ensures var i := FindFrom(old(table), port, 0);
              if i >= PROBES || old(table)[Probe(port, i)].owner != pid then r == -13 && rq.tasks == old(rq.tasks)
              else
                var j := Probe(port, i);
                && old(table)[j].id == Some(port)
                && if Messages(old(table)[j]) == [] then
                     r == -11 && rq.tasks == AfterBlock(old(rq.tasks), pid, port)
                   else
                     && r == 0 && rq.tasks == old(rq.tasks) && msg == Some(Messages(old(table)[j])[0])
                     && Messages(table[j]) == Messages(old(table)[j])[1..]
                     && table == old(table)[j := table[j]] && table[j].id == Some(port) && table[j].owner == pid
                     && logs == old(logs)[j := Log(old(logs)[j].sent, old(logs)[j].got + [msg.value])]
    {
      hide NoLost, LogsOk, Unique, Dense, Messages, EntryOk, Dequeue, FindFrom, Probe;
      var k := Find(port);
      if k == BUCKETS || table[k].owner != pid { return -13, None; }
      DequeueTakesFirst(table[k]);
      var d := Dequeue(table[k]);
      if d.None? {
        ghost var ts := rq.tasks;
        rq.BlockOnPort(pid, port);
        ghost var i := SlotOf(ts, pid);
        if !reissued && i < MAX_TASKS { BlockNoLost(table, ts, i, rq.tasks[i].value, port, k); }
        return -11, None;
      }
      ghost var b0 := table;
      LogCount(b0, logs);
      msg := d.value.0;
      Received(b0, rq.tasks, logs, nextId, k, d.value.1, msg.value, closed, reissued);
      table := table[k := d.value.1];
      logs := logs[k := Log(logs[k].sent, logs[k].got + [msg.value])];
      return 0, msg;
    }

    /** Queue length and capacity of a port. */
    method Stats(port: nat) returns (r: Option<(nat, nat)>)
      requires Valid()
      ensures r.Some? ==> FindFrom(table, port, 0) < PROBES
                          && r.value == (|Messages(table[Probe(port, FindFrom(table, port, 0))])|, DEPTH - 1)
      ensures r.None? ==> FindFrom(table, port, 0) >= PROBES
    {
      var j := Find(port);
      if j == BUCKETS { return None; }
      return Some(((table[j].tail + 16 - table[j].head) % 16, 15));
    }

    method Signal(pid: nat, signo: nat) returns (r: int)
      requires Valid()
      modifies rq`tasks
      ensures Valid() && rq.tasks == AfterSignal(old(rq.tasks), pid, signo)
      ensures r == if SlotOf(old(rq.tasks), pid) == MAX_TASKS then -3 else if 0 < signo <= 64 then 0 else -22
    {
      hide LogsOk, Unique, Dense, Messages, EntryOk, NoLost, Or, Pow2;
      ghost var ts := rq.tasks;
      r := rq.DeliverSignal(pid, signo);
      if !reissued { FewerNoLost(table, ts, table, rq.tasks); }
    }

    /** One step of the tasks: who runs, who is new, who is gone. */
    method Schedule(op: Op) returns (out: Out)
      requires Valid() && (op.OpSpawn? || op.OpDispatch? || op.OpYield? || op.OpExit? || op.OpReap?)
      modifies rq`tasks, rq`len, rq`cursor
      ensures Valid() && TaskStep(old(Now()), op, out, Now())
    {
      hide LogsOk, Unique, Dense, NoLost, Messages, EntryOk, Count, Picks, Picked, Sched.FreeFrom, SlotFrom;
      ghost var ts := rq.tasks;
      out := Done;
      match op {
        case OpSpawn(pid) =>
          var ok := rq.Enqueue(Task(pid, Ready, None, 0));
          out := Number(if ok then Some(pid) else None);
        case OpDispatch =>
          var r := rq.Perform(Pick);
          out := Number(r);
          if r.Some? {
            PickedTask(ts, old(rq.cursor));
            rq.Put(r.value, rq.tasks[r.value].value.(state := Running));
          }
        case OpYield(i) =>
          if i < MAX_TASKS && rq.tasks[i].Some? && rq.tasks[i].value.state == Running {
            rq.Put(i, rq.tasks[i].value.(state := Ready));
          }
        case OpExit(pid) =>
          var i := rq.FindPid(pid);
          if i < MAX_TASKS { rq.Put(i, rq.tasks[i].value.(state := Zombie)); }
        case OpReap(i) =>
          if i < MAX_TASKS && rq.tasks[i].Some? && rq.tasks[i].value.state == Zombie { var _ := rq.Remove(i); }
      }
      if !reissued { FewerNoLost(table, ts, table, rq.tasks); }
    }

    method Step(op: Op) returns (out: Out)
      requires Valid()
      modifies this, rq`tasks, rq`len, rq`cursor
      ensures Valid() && (closed ==> old(closed) || op.OpClose?) && (reissued ==> old(reissued) || op.OpCreate?)
      ensures Stepped(old(Now()), op, out, Now())
      ensures reissued <==> old(reissued) || IsReissue(old(table), op, out)
    {
      hide LogsOk, Unique, Dense, NoLost, Issued, Filled, FreeStepOf, FindFrom, Probe, Messages, EntryOk, Live,
        AfterSignal, AfterBlock, Reached, Count;
      out := Done;
      match op {
        case OpCreate(pid) =>
          var r := Create(pid);
          out := Number(r);
        case OpClose(port) => Close(port);
        case OpSend(port, msg) =>
          var r := Send(port, msg);
          out := Answer(r);
        case OpRecv(pid, port) =>
          var r, msg := Recv(pid, port);
          out := Got(r, msg);
        case OpSignal(pid, signo) =>
          var r := Signal(pid, signo);
          out := Answer(r);
        case _ => out := Schedule(op);
      }
    }

    /**
      Every run, from any state. Unless a number was issued while a port with it was live,
      nobody sleeps on a port where a message waits; without closes that cannot happen.
      What was received from a port is always a prefix of what it accepted. `snaps` is the
      run state by state: each answer and each new state is what its operation makes of
      the state before.
     */
    method Run(ops: seq<Op>) returns (outs: seq<Out>, ghost snaps: seq<Snap>)
      requires Valid()
      modifies this, rq`tasks, rq`len, rq`cursor
      ensures Valid()
      ensures Trace(snaps, ops, outs) && snaps[0] == old(Now()) && snaps[|ops|] == Now()
      ensures reissued <==> old(reissued) || exists k :: 0 <= k < |ops| && IsReissue(snaps[k].table, ops[k], outs[k])
      ensures !old(closed) && (forall i :: 0 <= i < |ops| ==> !ops[i].OpClose?) ==> !reissued
      ensures !reissued ==>
                forall t, p: nat :: 0 <= t < MAX_TASKS && Sleeps(rq.tasks[t], p) && FindFrom(table, p, 0) < PROBES ==>
                Messages(table[Probe(p, FindFrom(table, p, 0))]) == []
      ensures forall j :: 0 <= j < BUCKETS ==>
                logs[j].sent == logs[j].got + Messages(table[j]) && |Messages(table[j])| <= 15
    {
      hide LogsOk, Unique, Dense, NoLost, FindFrom, Stepped, IsReissue, Count, EntryOk;
      outs, snaps := [], [Now()];
      for i := 0 to |ops|
        invariant Valid() && (closed ==> old(closed) || exists k :: 0 <= k < i && ops[k].OpClose?)
        invariant |outs| == i && Trace(snaps, ops[..i], outs) && snaps[0] == old(Now()) && snaps[i] == Now()
        invariant reissued <==> old(reissued) || exists k :: 0 <= k < i && IsReissue(snaps[k].table, ops[k], outs[k])
      {
        var out := Step(ops[i]);
        assert ops[..i + 1] == ops[..i] + [ops[i]];
        outs, snaps := outs + [out], snaps + [Now()];
      }
      assert ops[..|ops|] == ops;
      RunResult();
    }

    lemma RunResult()
      requires Valid()
      ensures !reissued ==>
                forall t, p: nat :: 0 <= t < MAX_TASKS && Sleeps(rq.tasks[t], p) && FindFrom(table, p, 0) < PROBES ==>
                Messages(table[Probe(p, FindFrom(table, p, 0))]) == []
      ensures |logs| == BUCKETS
      ensures forall j :: 0 <= j < BUCKETS ==>
                logs[j].sent == logs[j].got + Messages(table[j]) && |Messages(table[j])| <= 15
    {
      hide Unique, Dense, Messages, FindFrom;
      if !reissued {
        forall t, p: nat | 0 <= t < MAX_TASKS && Sleeps(rq.tasks[t], p) && FindFrom(table, p, 0) < PROBES
          ensures Messages(table[Probe(p, FindFrom(table, p, 0))]) == []
        {
          FindFromFirst(table, p, 0);
        }
      }
    }
  }

  lemma PickedTask(ts: Tasks, cursor: nat)
    requires cursor < MAX_TASKS && Picked(ts, cursor) < MAX_TASKS
    ensures ts[Picked(ts, cursor)].Some?
  {
  }

  lemma LogCount(b: Table, logs: seq<Log>)
    requires LogsOk(b, logs)
    ensures |logs| == BUCKETS
  {
  }

  /** All of the invariant that a step on the table must keep. */
  ghost predicate StateOk(b: Table, ts: Tasks, logs: seq<Log>, nextId: nat, closed: bool, reissued: bool)
  {
    && LogsOk(b, logs)
    && (!closed ==> Dense(b, nextId) && !reissued)
    && (!reissued ==> Unique(b) && NoLost(b, ts))
  }

  lemma Created(b: Table, nextId: nat, b': Table, ts: Tasks, logs: seq<Log>, closed: bool, reissued: bool, id: nat,
                i: nat, pid: nat)
    requires StateOk(b, ts, logs, nextId, closed, reissued) && nextId < MAX_PORTS && id < MAX_PORTS && i < PROBES
    requires var j := Probe(id, i); b[j].id.None? && b' == b[j := Opened(b[j], id, pid)]
    requires Reached(b', id, i)
    requires forall k :: 0 <= k < MAX_PORTS && Turn(nextId, k) < Turn(nextId, id) ==> WindowFull(b, k)
    ensures StateOk(b', ts, logs[Probe(id, i) := Log([], [])], (id + 1) % 65536, closed, reissued || Live(b, id))
  {
    hide NoLost, Unique, WindowFull, Messages, EntryOk, Dense, LogsOk, Live;
    var j := Probe(id, i);
    var e := Opened(b[j], id, pid);
    OpenedOk(b[j], id, pid);
    LogCount(b, logs);
    LogReset(b, logs, j, e);
    if !closed {
      PathOccupied(b, b', id, i, e);
      DenseIssues(b, nextId, id, i);
      DenseGrows(b, nextId, e);
    }
    if !reissued && !Live(b, id) {
      CreateUnique(b, j, e, id);
      CreateNoLost(b, ts, j, e);
    }
  }

  lemma LogReset(b: Table, logs: seq<Log>, j: nat, e: Entry)
    requires LogsOk(b, logs) && j < BUCKETS && EntryOk(e) && Messages(e) == []
    ensures LogsOk(b[j := e], logs[j := Log([], [])])
  {
    hide Messages, EntryOk;
  }

  lemma DenseGrows(b: Table, n: nat, e: Entry)
    requires Dense(b, n) && n < BUCKETS && EntryOk(e) && e.id == Some(n)
    ensures Dense(b[n := e], (n + 1) % 65536)
  {
    hide EntryOk;
  }

  lemma PathOccupied(b: Table, b': Table, id: nat, i: nat, e: Entry)
    requires i < PROBES && EntryOk(e) && b' == b[Probe(id, i) := e] && Reached(b', id, i)
    ensures forall k :: 0 <= k < i ==> b[Probe(id, k)].id.Some?
  {
    forall k | 0 <= k < i
      ensures b[Probe(id, k)].id.Some?
    {
      if Probe(id, k) == Probe(id, i) {
        ProbeInjective(id, k, i);
      }
      assert b'[Probe(id, k)].id.Some?;
    }
  }

  lemma Closed(b: Table, ts: Tasks, logs: seq<Log>, j: nat)
    requires LogsOk(b, logs) && j < BUCKETS
    ensures EntryOk(FREE)
    ensures LogsOk(b[j := FREE], logs[j := Log([], [])])
    ensures Unique(b) ==> Unique(b[j := FREE])
    ensures NoLost(b, ts) ==> NoLost(b[j := FREE], ts)
  {
    assert Messages(FREE) == [];
    hide Messages;
    if NoLost(b, ts) { FewerNoLost(b, ts, b[j := FREE], ts); }
  }

  lemma Sent(b: Table, ts: Tasks, ts': Tasks, logs: seq<Log>, nextId: nat, j: nat, e: Entry, p: nat, m: Message,
             closed: bool, reissued: bool)
    requires StateOk(b, ts, logs, nextId, closed, reissued) && j < BUCKETS && b[j].id == Some(p) && EntryOk(e)
             && e.id == Some(p)
    requires Messages(e) == Messages(b[j]) + [m] && forall i :: 0 <= i < MAX_TASKS ==> ts'[i] == Woken(ts[i], p)
    ensures StateOk(b[j := e], ts', logs[j := Log(logs[j].sent + [m], logs[j].got)], nextId, closed, reissued)
    ensures forall t :: 0 <= t < MAX_TASKS ==> !Sleeps(ts'[t], p)
  {
    hide Messages, NoLost, EntryOk;
    assert logs[j].got + Messages(b[j]) + [m] == logs[j].got + (Messages(b[j]) + [m]);
    if !reissued { SendNoLost(b, ts, ts', j, e, p); }
  }

  lemma Received(b: Table, ts: Tasks, logs: seq<Log>, nextId: nat, j: nat, e: Entry, m: Message, closed: bool,
                 reissued: bool)
    requires StateOk(b, ts, logs, nextId, closed, reissued) && j < BUCKETS && EntryOk(e) && e.id == b[j].id
    requires Messages(b[j]) == [m] + Messages(e)
    ensures StateOk(b[j := e], ts, logs[j := Log(logs[j].sent, logs[j].got + [m])], nextId, closed, reissued)
  {
    hide Messages, NoLost, EntryOk;
    assert logs[j].got + ([m] + Messages(e)) == logs[j].got + [m] + Messages(e);
    if !reissued { FewerNoLost(b, ts, b[j := e], ts); }
  }

  // ------------------------------------------------------- a number issued twice

  /** Only port 0 is open. */
  function OnlyZero(pid: nat): Table
  {
    OpenedOk(FREE, 0, pid);
    seq(BUCKETS, j => if j == 0 then Opened(FREE, 0, pid) else FREE)
  }

  lemma OnlyZeroIs(pid: nat)
    ensures OnlyZero(pid)[0] == Opened(FREE, 0, pid) && forall j :: 0 < j < BUCKETS ==> OnlyZero(pid)[j] == FREE
  {
  }

  lemma IssuedHere(b: Table, k: nat)
    requires k < MAX_PORTS && !WindowFull(b, k)
    ensures Issued(b, k) == Some(k)
  {
    hide WindowFull, EntryOk;
    assert (k + 0) % 65536 == k;
  }

  lemma NextIsIssued(pid: nat, k: nat)
    requires k < MAX_PORTS
    ensures Issued(OnlyZero(pid), k) == Some(k) && !WindowFull(OnlyZero(pid), k)
    ensures Live(OnlyZero(pid), k) <==> k == 0
  {
    hide EntryOk, OnlyZero;
    OnlyZeroIs(pid);
    var b := OnlyZero(pid);
    assert b[0].id == Some(0);
    assert Probe(k, 0) == 0 ==> Probe(k, 1) == 1;
    assert !WindowFull(b, k);
    hide WindowFull, Issued;
    IssuedHere(b, k);
  }

  /** With port 0 live and the counter back at 0, number 0 is issued again. */
  lemma LiveNumberIssued(pid: nat)
    ensures Live(OnlyZero(pid), 0) && Issued(OnlyZero(pid), 0) == Some(0)
  {
    NextIsIssued(pid, 0);
  }

  /** Opening and closing port `k` puts the table back. */
  lemma OpenedAndClosed(pid: nat, k: nat)
    requires 0 < k < MAX_PORTS && !WindowFull(OnlyZero(pid), k)
    requires var b := OnlyZero(pid); Reached(Filled(b, k, pid), k, FreeStepOf(b, k)) && Unique(Filled(b, k, pid))
    ensures var b := OnlyZero(pid); var b' := Filled(b, k, pid); var i := FindFrom(b', k, 0);
            i < PROBES && b'[Probe(k, i) := FREE] == b
  {
    hide EntryOk, FindFrom, FreeStepOf, OnlyZero, Reached, Unique, Probe;
    OnlyZeroIs(pid);
    var b := OnlyZero(pid);
    FindExact(Filled(b, k, pid), k, FreeStepOf(b, k));
    var j := Probe(k, FreeStepOf(b, k));
    assert b[j] == FREE by { hide Filled; assert b[j].id.None?; }
  }

  /**
    A run in which a live number is issued: open port 0, then open and close 65535 more
    ports; the counter is back at 0, and the next port gets number 0 as well.
   */
  method ReissueRun() returns (s: System)
    ensures fresh(s) && s.Valid() && s.reissued
  {
    hide NoLost, LogsOk, Dense, Messages, EntryOk, Count, WindowFull, FreeStepOf, Filled, OnlyZero, Issued, Reached,
      FindFrom, Unique, Live;
    s := new System();
    FirstPort(s.table);
    var r := s.Create(1);
    for k := 1 to 65536
      invariant s.Valid() && !s.reissued && s.table == OnlyZero(1) && s.nextId == k % 65536
    {
      NextIsIssued(1, k);
      r := s.Create(1);
      OpenedAndClosed(1, k);
      s.Close(k);
    }
    LiveNumberIssued(1);
    r := s.Create(1);
  }

  lemma AllFree(b: Table)
    requires forall j :: 0 <= j < BUCKETS ==> b[j].id.None?
    ensures !WindowFull(b, 0) && FreeStepOf(b, 0) == 0 && !Live(b, 0)
  {
    hide EntryOk;
    assert b[Probe(0, 0)].id.None?;
  }

  lemma FirstPort(b: Table)
    requires forall j :: 0 <= j < BUCKETS ==> b[j] == FREE
    ensures Issued(b, 0) == Some(0) && !WindowFull(b, 0) && Filled(b, 0, 1) == OnlyZero(1) && !Live(b, 0)
  {
    hide EntryOk, OnlyZero, WindowFull, Issued, FreeStepOf, Live;
    assert forall j :: 0 <= j < BUCKETS ==> b[j].id.None?;
    AllFree(b);
    IssuedHere(b, 0);
    OnlyZeroIs(1);
    assert Probe(0, 0) == 0;
    forall j | 0 <= j < BUCKETS
      ensures Filled(b, 0, 1)[j] == OnlyZero(1)[j]
    {
      assert b[j] == FREE;
    }
  }
}
