/**
  IPC ports (ipc/src/port.rs): a message ring per port, and the open-addressed table
  that finds a port by its number.
 */
module Ports {
  import opened Words

  const MAX_PORTS := 65536
  const BUCKETS := 4096
  const PROBES := 16
  const DEPTH := 16

  datatype Message = Message(tag: nat, replyPort: nat, data: seq<Byte>)

  // -------------------------------------------------------------- message rings

  /** A bucket: `id` is None while it is free. */
  datatype Entry = Entry(id: Option<nat>, owner: nat, queue: seq<Option<Message>>, head: nat, tail: nat)

  predicate Shaped(e: Entry)
  {
    |e.queue| == DEPTH && e.head < DEPTH && e.tail < DEPTH
  }

  /** The queue slot `i` steps behind the head. */
  function Cell(e: Entry, i: nat): Option<Message>
    requires Shaped(e)
  {
    e.queue[(e.head + i) % 16]
  }

  /** Every slot between head and tail holds a message. */
  predicate EntryOk(e: Entry)
  {
    Shaped(e) && forall i: nat :: i < Queued(e) ==> Cell(e, i).Some?
  }

  /** Number of messages between head and tail, as port_stats reports it. */
  function Queued(e: Entry): (n: nat)
    requires Shaped(e)
    ensures n < DEPTH
  {
    (e.tail + 16 - e.head) % 16
  }

  /** The messages of a port, oldest first. */
  function Messages(e: Entry): (ms: seq<Message>)
    requires EntryOk(e)
    ensures |ms| == Queued(e)
  {
    seq(Queued(e), i requires 0 <= i < Queued(e) => Cell(e, i).value)
  }

  function Enqueue(e: Entry, m: Message): Option<Entry>
    requires Shaped(e)
  {
    var next := (e.tail + 1) % 16;
    if next == e.head then None else Some(e.(queue := e.queue[e.tail := Some(m)], tail := next))
  }

  /** The message at the head, and the entry without it. */
  function Dequeue(e: Entry): Option<(Option<Message>, Entry)>
    requires Shaped(e)
  {
    if e.head == e.tail then None
    else Some((e.queue[e.head], e.(queue := e.queue[e.head := None], head := (e.head + 1) % 16)))
  }

  lemma Distance(h: nat, t: nat)
    requires h < 16 && t < 16
    ensures (t + 16 - h) % 16 == if h <= t then t - h else t + 16 - h
  {
  }

  lemma Wrap(h: nat, i: nat)
    requires h < 16 && i < 16
    ensures (h + i) % 16 == if h + i < 16 then h + i else h + i - 16
  {
  }

  lemma EnqueueCells(e: Entry, m: Message, i: nat)
    requires EntryOk(e) && Enqueue(e, m).Some? && i <= Queued(e)
    ensures Shaped(Enqueue(e, m).value) && Queued(Enqueue(e, m).value) == Queued(e) + 1
    ensures Cell(Enqueue(e, m).value, i) == if i == Queued(e) then Some(m) else Cell(e, i)
  {
    var e' := Enqueue(e, m).value;
    Distance(e.head, e.tail);
    Distance(e.head, e'.tail);
    Wrap(e.tail, 1);
    Wrap(e.head, i);
  }

  /** The ring is a queue of at most fifteen messages: sending appends. */
  lemma EnqueueAppends(e: Entry, m: Message)
    requires EntryOk(e)
    ensures Shaped(e)
    ensures Enqueue(e, m).None? <==> |Messages(e)| == DEPTH - 1
    ensures Enqueue(e, m).Some? ==>
              && EntryOk(Enqueue(e, m).value) && Messages(Enqueue(e, m).value) == Messages(e) + [m]
              && Enqueue(e, m).value.id == e.id && Enqueue(e, m).value.owner == e.owner
  {
    Distance(e.head, e.tail);
    Wrap(e.tail, 1);
    if Enqueue(e, m).Some? {
      var e' := Enqueue(e, m).value;
      EnqueueCells(e, m, 0);
      hide Cell, Queued, Enqueue;
      forall i: nat | i <= Queued(e)
        ensures Cell(e', i) == if i == Queued(e) then Some(m) else Cell(e, i)
      {
        EnqueueCells(e, m, i);
      }
      assert Messages(e') == Messages(e) + [m];
    }
  }

  lemma DequeueCells(e: Entry, i: nat)
    requires EntryOk(e) && Dequeue(e).Some? && i + 1 < Queued(e)
    ensures Shaped(Dequeue(e).value.1) && Cell(Dequeue(e).value.1, i) == Cell(e, i + 1)
  {
    var e' := Dequeue(e).value.1;
    Distance(e.head, e.tail);
    Wrap(e.head, 1);
    Wrap(e.head, i + 1);
    Wrap(e'.head, i);
  }

  lemma DequeueCount(e: Entry)
    requires EntryOk(e)
    ensures Dequeue(e).None? <==> Queued(e) == 0
    ensures Dequeue(e).Some? ==>
              && Shaped(Dequeue(e).value.1) && Queued(Dequeue(e).value.1) == Queued(e) - 1
              && Dequeue(e).value.0 == Cell(e, 0)
  {
    Distance(e.head, e.tail);
    Distance((e.head + 1) % 16, e.tail);
    Wrap(e.head, 1);
  }

  /** Receiving takes the oldest. */
  lemma DequeueTakesFirst(e: Entry)
    requires EntryOk(e)
    ensures Shaped(e)
    ensures Dequeue(e).None? <==> Messages(e) == []
    ensures Dequeue(e).Some? ==>
              && Dequeue(e).value.0.Some? && EntryOk(Dequeue(e).value.1)
              && Messages(e) == [Dequeue(e).value.0.value] + Messages(Dequeue(e).value.1)
              && Dequeue(e).value.1.id == e.id && Dequeue(e).value.1.owner == e.owner
  {
    DequeueCount(e);
    if Dequeue(e).Some? {
      var e' := Dequeue(e).value.1;
      assert e'.id == e.id && e'.owner == e.owner;
      hide Cell, Queued, Dequeue;
      forall i: nat | i < Queued(e')
        ensures Cell(e', i) == Cell(e, i + 1)
      {
        DequeueCells(e, i);
      }
      assert Messages(e) == [Cell(e, 0).value] + Messages(e');
    }
  }

  // ------------------------------------------------------------------ the table

  type Table = s: seq<Entry> | |s| == BUCKETS && forall i :: 0 <= i < BUCKETS ==> EntryOk(s[i])
    witness seq(BUCKETS, _ => FREE)

  const NOTHING: seq<Option<Message>> := [None, None, None, None, None, None, None, None]

  const FREE := Entry(None, 0, NOTHING + NOTHING, 0, 0)

  /** Bucket `i` steps along the probe path of a port. */
  function Probe(id: nat, i: nat): (j: nat)
    ensures j < BUCKETS
  {
    (id % 4096 + i) % 4096
  }

  /** The path starts at the port number's own bucket and goes through different ones, each after the other. */
  lemma ProbePath(id: nat, i: nat, j: nat)
    requires i < j < PROBES
    ensures Probe(id, 0) == id % BUCKETS && Probe(id, i) != Probe(id, j)
    ensures Probe(id, i + 1) == if Probe(id, i) + 1 == BUCKETS then 0 else Probe(id, i) + 1
  {
  }

  /** Bucket `Probe(id, i)` holds the port, and every bucket before it on the path is occupied. */
  predicate Reached(b: Table, id: nat, i: nat)
  {
    && i < PROBES && b[Probe(id, i)].id == Some(id)
    && forall k :: 0 <= k < i ==> b[Probe(id, k)].id.Some?
  }

  /** Search from step `i` of the path; PROBES when the port is not found. */
  function FindFrom(b: Table, id: nat, i: nat): nat
    decreases PROBES - i
  {
    if i >= PROBES || b[Probe(id, i)].id.None? then PROBES
    else if b[Probe(id, i)].id == Some(id) then i
    else FindFrom(b, id, i + 1)
  }

  lemma {:induction false} FindFromFirst(b: Table, id: nat, i: nat)
    requires i <= PROBES && forall k :: 0 <= k < i ==> b[Probe(id, k)].id.Some? && b[Probe(id, k)].id != Some(id)
    ensures var j := FindFrom(b, id, i);
            && (j < PROBES ==> Reached(b, id, j) && forall k :: 0 <= k < j ==> b[Probe(id, k)].id != Some(id))
            && (j >= PROBES ==> j == PROBES && forall k: nat :: !Reached(b, id, k))
    decreases PROBES - i
  {
    if i < PROBES && b[Probe(id, i)].id.Some? && b[Probe(id, i)].id != Some(id) {
      FindFromFirst(b, id, i + 1);
    }
  }

  /** No two buckets hold the same port. */
  predicate Unique(b: Table)
  {
    forall i, j :: 0 <= i < j < BUCKETS && b[i].id.Some? ==> b[i].id != b[j].id
  }

  lemma ProbeInjective(id: nat, i: nat, j: nat)
    requires i < PROBES && j < PROBES && Probe(id, i) == Probe(id, j)
    ensures i == j
  {
  }

  /**
    Lookup finds a port exactly when every bucket before it on its probe path is occupied.
   */
  lemma FindExact(b: Table, id: nat, i: nat)
    requires Unique(b)
    ensures i < PROBES ==> (FindFrom(b, id, 0) == i <==> Reached(b, id, i))
  {
    FindFromFirst(b, id, 0);
    var j := FindFrom(b, id, 0);
    if i < PROBES && Reached(b, id, i) {
      assert j < PROBES;
      assert b[Probe(id, i)].id == b[Probe(id, j)].id == Some(id);
      ProbeInjective(id, i, j);
    }
  }

  lemma {:induction false} Unchanged(b: Table, b': Table, id: nat, i: nat)
    requires forall k :: 0 <= k < PROBES ==> b'[Probe(id, k)].id == b[Probe(id, k)].id
    ensures FindFrom(b', id, i) == FindFrom(b, id, i)
    decreases PROBES - i
  {
    if i < PROBES { Unchanged(b, b', id, i + 1); }
  }

  /** Filling a free bucket leaves every port that could be found where it was. */
  lemma FillKeeps(b: Table, j: nat, e: Entry, id: nat, i: nat)
    requires j < BUCKETS && b[j].id.None? && EntryOk(e) && e.id.Some? && Reached(b, id, i)
    ensures Reached(b[j := e], id, i)
  {
  }

  /** Freeing a bucket can hide only ports whose path up to their own bucket crosses it. */
  lemma CloseKeeps(b: Table, j: nat, id: nat, i: nat)
    requires j < BUCKETS && Reached(b, id, i) && forall k :: 0 <= k <= i ==> Probe(id, k) != j
    ensures Reached(b[j := FREE], id, i)
  {
  }

  /** And it does hide those that come after it on their path. */
  lemma CloseHides(b: Table, j: nat, id: nat, i: nat, k: nat)
    requires j < BUCKETS && Unique(b) && Reached(b, id, i) && k < i && Probe(id, k) == j
    ensures FindFrom(b[j := FREE], id, 0) == PROBES
  {
    var b' := b[j := FREE];
    FindFromFirst(b', id, 0);
    var n := FindFrom(b', id, 0);
    assert n < PROBES ==> b'[Probe(id, n)].id == Some(id) && b'[Probe(id, k)].id.None?;
    if n < PROBES {
      assert b[Probe(id, n)].id == Some(id) == b[Probe(id, i)].id;
      ProbeInjective(id, n, i);
    }
  }
}
