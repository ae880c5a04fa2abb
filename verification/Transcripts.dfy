/**
  What the transcript of a run of message passing says by itself: for every port, the
  messages received are the messages accepted, in order.
 */
module Transcripts {
  import opened Words
  import opened Ports
  import opened Ipc

  /** The first bucket at or after `j` that holds port `p`, or BUCKETS. */
  function BucketFrom(b: Table, p: nat, j: nat): (k: nat)
    requires j <= BUCKETS
    ensures j <= k <= BUCKETS && (k < BUCKETS ==> b[k].id == Some(p))
    ensures forall i :: j <= i < k ==> b[i].id != Some(p)
    decreases BUCKETS - j
  {
    if j == BUCKETS || b[j].id == Some(p) then j else BucketFrom(b, p, j + 1)
  }

  /** What is queued at port `p`. */
  function Waiting(b: Table, p: nat): seq<Message>
  {
    var j := BucketFrom(b, p, 0);
    if j < BUCKETS then Messages(b[j]) else []
  }

  /** The history of port `p` after one more entry of the transcript; opening it starts it afresh. */
  function Extended(h: Log, op: Op, out: Out, p: nat): Log
  {
    match op
    case OpCreate(_) => if out == Number(Some(p)) then Log([], []) else h
    case OpSend(port, msg) => if port == p && out == Answer(0) then Log(h.sent + [msg], h.got) else h
    case OpRecv(_, port) =>
      if port == p && out.Got? && out.r == 0 && out.msg.Some? then Log(h.sent, h.got + [out.msg.value]) else h
    case _ => h
  }

  /** What port `p` accepted and gave out since it was opened, or since the beginning. */
  function History(b: Table, ops: seq<Op>, outs: seq<Out>, p: nat): Log
    requires |ops| == |outs|
  {
    if ops == [] then Log(Waiting(b, p), []) else
      var n := |ops| - 1;
      Extended(History(b, ops[..n], outs[..n], p), ops[n], outs[n], p)
  }

  /** No number was issued while a port with it was live. */
  ghost predicate NoReissue(snaps: seq<Snap>, ops: seq<Op>, outs: seq<Out>)
    requires |snaps| == |ops| + 1 && |outs| == |ops|
  {
    forall k :: 0 <= k < |ops| ==> !IsReissue(snaps[k].table, ops[k], outs[k])
  }

  /** The history of the port in bucket `j` is what was received, followed by what is queued. */
  ghost predicate Tells(h: Log, b: Table, j: nat)
    requires j < BUCKETS
  {
    h.sent == h.got + Messages(b[j])
  }

  lemma WaitingAt(b: Table, p: nat, j: nat)
    requires Unique(b) && j < BUCKETS && b[j].id == Some(p)
    ensures Waiting(b, p) == Messages(b[j])
  {
    hide Messages, EntryOk;
  }

  lemma CreateTells(s: Snap, pid: nat, out: Out, s': Snap, h: Log, p: nat, j: nat)
    requires CreateStep(s, pid, out, s') && !IsReissue(s.table, OpCreate(pid), out) && Unique(s.table) && j < BUCKETS
    requires s.table[j].id == Some(p) ==> Tells(h, s.table, j)
    ensures Unique(s'.table)
    ensures s'.table[j].id == Some(p) ==> Tells(Extended(h, OpCreate(pid), out, p), s'.table, j)
  {
    hide Messages, EntryOk, FreeStepOf, Issued, Probe;
    var r := Issued(s.table, s.nextId);
    if r.Some? {
      var k := Probe(r.value, FreeStepOf(s.table, r.value));
      OpenedOk(s.table[k], r.value, pid);
      CreateUnique(s.table, k, Opened(s.table[k], r.value, pid), r.value);
      if j != k && s.table[j].id == Some(p) { assert Live(s.table, p); }
    }
  }

  lemma CloseTells(s: Snap, port: nat, out: Out, s': Snap, h: Log, p: nat, j: nat)
    requires CloseStep(s, port, out, s') && Unique(s.table) && j < BUCKETS
    requires s.table[j].id == Some(p) ==> Tells(h, s.table, j)
    ensures Unique(s'.table) && (s'.table[j].id == Some(p) ==> Tells(h, s'.table, j))
  {
    hide Messages, EntryOk, Probe, FindFrom;
  }

  lemma SendTells(s: Snap, port: nat, msg: Message, out: Out, s': Snap, h: Log, p: nat, j: nat)
    requires SendStep(s, port, msg, out, s') && Unique(s.table) && j < BUCKETS
    requires s.table[j].id == Some(p) ==> Tells(h, s.table, j)
    ensures Unique(s'.table)
    ensures s'.table[j].id == Some(p) ==> Tells(Extended(h, OpSend(port, msg), out, p), s'.table, j)
  {
    hide Messages, EntryOk, Probe, FindFrom;
    if s'.table[j].id == Some(p) && port == p && out == Answer(0) {
      var k := Probe(port, FindFrom(s.table, port, 0));
      assert k == j;
      assert h.got + Messages(s.table[j]) + [msg] == h.got + (Messages(s.table[j]) + [msg]);
    }
  }

  lemma RecvTells(s: Snap, pid: nat, port: nat, out: Out, s': Snap, h: Log, p: nat, j: nat)
    requires RecvStep(s, pid, port, out, s') && Unique(s.table) && j < BUCKETS
    requires s.table[j].id == Some(p) ==> Tells(h, s.table, j)
    ensures Unique(s'.table)
    ensures s'.table[j].id == Some(p) ==> Tells(Extended(h, OpRecv(pid, port), out, p), s'.table, j)
  {
    hide Messages, EntryOk, Probe, FindFrom;
    if s'.table[j].id == Some(p) && port == p && out.Got? && out.r == 0 {
      var k := Probe(port, FindFrom(s.table, port, 0));
      assert k == j;
      var q := Messages(s.table[j]);
      assert q == [q[0]] + q[1..];
      assert h.got + ([q[0]] + q[1..]) == h.got + [q[0]] + q[1..];
    }
  }

  lemma StepTells(s: Snap, op: Op, out: Out, s': Snap, h: Log, p: nat, j: nat)
    requires Stepped(s, op, out, s') && !IsReissue(s.table, op, out) && Unique(s.table) && j < BUCKETS
    requires s.table[j].id == Some(p) ==> Tells(h, s.table, j)
    ensures Unique(s'.table)
    ensures s'.table[j].id == Some(p) ==> Tells(Extended(h, op, out, p), s'.table, j)
  {
    hide CreateStep, CloseStep, SendStep, RecvStep, Tells, IsReissue, EntryOk;
    match op
    case OpCreate(pid) => CreateTells(s, pid, out, s', h, p, j);
    case OpClose(port) => CloseTells(s, port, out, s', h, p, j);
    case OpSend(port, msg) => SendTells(s, port, msg, out, s', h, p, j);
    case OpRecv(pid, port) => RecvTells(s, pid, port, out, s', h, p, j);
    case _ =>
  }

  lemma {:induction false} HistoryTells(snaps: seq<Snap>, ops: seq<Op>, outs: seq<Out>, p: nat, j: nat)
    requires Trace(snaps, ops, outs) && NoReissue(snaps, ops, outs) && Unique(snaps[0].table) && j < BUCKETS
    ensures Unique(snaps[|ops|].table)
    ensures snaps[|ops|].table[j].id == Some(p) ==>
              Tells(History(snaps[0].table, ops, outs, p), snaps[|ops|].table, j)
    decreases |ops|
  {
    hide Stepped, Tells, IsReissue, EntryOk, Extended, Waiting;
    if ops == [] {
      if snaps[0].table[j].id == Some(p) { WaitingTells(snaps[0].table, p, j); }
    } else {
      var n := |ops| - 1;
      var before, done, said := snaps[..n + 1], ops[..n], outs[..n];
      assert forall k :: 0 <= k <= n ==> before[k] == snaps[k];
      assert Trace(before, done, said) && NoReissue(before, done, said);
      HistoryTells(before, done, said, p, j);
      assert Stepped(snaps[n], ops[n], outs[n], snaps[n + 1]);
      StepTells(snaps[n], ops[n], outs[n], snaps[n + 1], History(snaps[0].table, done, said, p), p, j);
    }
  }

  lemma WaitingTells(b: Table, p: nat, j: nat)
    requires Unique(b) && j < BUCKETS && b[j].id == Some(p)
    ensures Tells(Log(Waiting(b, p), []), b, j)
  {
    hide EntryOk, Messages;
    WaitingAt(b, p, j);
  }

  /**
    In every run that issues no live number, for every port that is open at its end: what
    was received from it since it was opened is a prefix of what it accepted, in order, and
    the rest, at most fifteen messages, is what is queued.
   */
  lemma InOrder(snaps: seq<Snap>, ops: seq<Op>, outs: seq<Out>, p: nat, j: nat)
    requires Trace(snaps, ops, outs) && NoReissue(snaps, ops, outs) && Unique(snaps[0].table)
    requires j < BUCKETS && snaps[|ops|].table[j].id == Some(p)
    ensures var h := History(snaps[0].table, ops, outs, p);
            && h.got <= h.sent && h.sent[|h.got|..] == Messages(snaps[|ops|].table[j]) && |h.sent| - |h.got| <= 15
  {
    hide Stepped, IsReissue, Unique, EntryOk, History;
    HistoryTells(snaps, ops, outs, p, j);
    AtMostFifteen(snaps[|ops|].table[j]);
  }

  lemma AtMostFifteen(e: Entry)
    requires EntryOk(e)
    ensures |Messages(e)| <= 15
  {
  }
}
