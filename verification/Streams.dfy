/**
  What the transcript of a run of the socket server says by itself: on every connection,
  what one side has received is the beginning of what the other side has sent.
 */
module Streams {
  import opened Words
  import opened Sockets

  /** The bytes each side of a connection had accepted from it, and was given. */
  datatype Sides = Sides(sentA: seq<Byte>, gotA: seq<Byte>, sentB: seq<Byte>, gotB: seq<Byte>)

  /** The state of the socket behind a descriptor. */
  function StateOf(ts: Tables, pid: nat, fd: nat): SockState
  {
    var loc := SockOf(ts, pid, fd);
    if loc.Some? then ts[loc.value.t].socks[loc.value.s].state else Closed
  }

  /** Connection `c` was set up by this step. */
  predicate SetUp(s: Net, s': Net, c: nat)
    requires c < MAX_CONNS
  {
    !s.conns[c].inUse && s'.conns[c].inUse
  }

  /** The history of connection `c` after one more entry; setting it up starts it afresh. */
  function Extended(h: Sides, s: Net, op: Op, out: Out, s': Net, c: nat): Sides
    requires c < MAX_CONNS
  {
    if SetUp(s, s', c) then Sides([], [], [], [])
    else if op.OpSend? && out.Answer? && 0 <= out.r <= |op.data| then
      var st := StateOf(s.tables, op.pid, op.fd);
      if st == Connected(c, true) then h.(sentA := h.sentA + op.data[..out.r])
      else if st == Connected(c, false) then h.(sentB := h.sentB + op.data[..out.r])
      else h
    else if op.OpRecv? && out.Received? && out.r >= 0 then
      var st := StateOf(s.tables, op.pid, op.fd);
      if st == Connected(c, true) then h.(gotA := h.gotA + out.data)
      else if st == Connected(c, false) then h.(gotB := h.gotB + out.data)
      else h
    else h
  }

  /** What the two sides of connection `c` have sent and received since it was set up, or since the beginning. */
  function History(snaps: seq<Net>, ops: seq<Op>, outs: seq<Out>, c: nat): Sides
    requires |snaps| == |ops| + 1 && |outs| == |ops| && c < MAX_CONNS == |snaps[0].wires|
    decreases |ops|
  {
    if ops == [] then Sides(snaps[0].wires[c].ab, [], snaps[0].wires[c].ba, [])
    else
      var n := |ops| - 1;
      Extended(History(snaps[..n + 1], ops[..n], outs[..n], c), snaps[n], ops[n], outs[n], snaps[n + 1], c)
  }

  /** What was sent is what was received, followed by what is under way. */
  ghost predicate Tells(h: Sides, w: Wire)
  {
    h.sentA == h.gotB + w.ab && h.sentB == h.gotA + w.ba
  }

  lemma SendTells(s: Net, op: Op, out: Out, s': Net, h: Sides, c: nat)
    requires op.OpSend? && Stepped(s, op, out, s') && c < MAX_CONNS == |s.wires| && Tells(h, s.wires[c])
    ensures |s'.wires| == MAX_CONNS && Tells(Extended(h, s, op, out, s', c), s'.wires[c])
  {
    hide SockOf, Fitting;
    assert !SetUp(s, s', c);
    var w, st := s.wires[c], StateOf(s.tables, op.pid, op.fd);
    if st == Connected(c, true) {
      assert h.gotB + w.ab + op.data[..out.r] == h.gotB + (w.ab + op.data[..out.r]);
    } else if st == Connected(c, false) {
      assert h.gotA + w.ba + op.data[..out.r] == h.gotA + (w.ba + op.data[..out.r]);
    } else {
      assert s'.wires[c] == w;
    }
  }

  /** Taking the front off what is under way and adding it to what was received. */
  lemma Passed(got: seq<Byte>, q: seq<Byte>, n: nat)
    requires n <= |q|
    ensures got + q[..n] + q[n..] == got + q
  {
    assert q[..n] + q[n..] == q;
  }

  lemma RecvTells(s: Net, op: Op, out: Out, s': Net, h: Sides, c: nat)
    requires op.OpRecv? && Stepped(s, op, out, s') && c < MAX_CONNS == |s.wires| && Tells(h, s.wires[c])
    ensures |s'.wires| == MAX_CONNS && Tells(Extended(h, s, op, out, s', c), s'.wires[c])
  {
    hide SockOf, Available;
    assert !SetUp(s, s', c);
    var w, st := s.wires[c], StateOf(s.tables, op.pid, op.fd);
    if st == Connected(c, true) {
      Passed(h.gotA, w.ba, |out.data|);
    } else if st == Connected(c, false) {
      Passed(h.gotB, w.ab, |out.data|);
    } else {
      assert s'.wires[c] == w;
    }
  }

  /** The other requests leave every wire alone, except that of a connection they set up. */
  lemma OtherTells(s: Net, op: Op, out: Out, s': Net, h: Sides, c: nat)
    requires !op.OpSend? && !op.OpRecv? && Stepped(s, op, out, s') && c < MAX_CONNS == |s.wires|
    requires Tells(h, s.wires[c])
    ensures |s'.wires| == MAX_CONNS && Tells(Extended(h, s, op, out, s', c), s'.wires[c])
  {
    hide SockOf, SockOpened, WithState, WithPort, SetSock, AcceptedPort, AcceptedPath, Paired, OpenKept, Abandoned,
      NoTable, NoSlot, NoTwoSlots, NoConn, BacklogFull, ListenerOf, ConnectAnswer;
    match op
    case OpSocket(pid, domain) =>
    case OpBind(pid, fd, addr) =>
      var i :| BindStep(s, pid, fd, addr, out.r, i, s');
    case OpListen(pid, fd) =>
      var l :| ListenStep(s, pid, fd, out.r, l, s');
    case OpConnect(pid, fd, addr) =>
      var k :| ConnectStep(s, pid, fd, addr, out.r, k, s');
    case OpAccept(pid, fd) =>
      var k, ts :| AcceptStep(s, pid, fd, out.r, k, ts, s');
    case OpSocketPair(pid, domain) =>
      var k :| PairStep(s, pid, domain, out.r, out.fdA, out.fdB, k, s');
    case OpShutdown(pid, fd) =>
  }

  /**
    Every run: what side B of a connection has received since it was set up is a prefix of
    what side A had accepted, what side A has received is a prefix of what side B had, and
    the rest is under way. Nothing comes back to its sender or crosses to another connection.
   */
  lemma {:induction false} InOrder(snaps: seq<Net>, ops: seq<Op>, outs: seq<Out>, c: nat)
    requires Trace(snaps, ops, outs) && c < MAX_CONNS == |snaps[0].wires|
    ensures var h, w := History(snaps, ops, outs, c), snaps[|ops|].wires;
            && |w| == MAX_CONNS
            && h.gotB <= h.sentA && h.sentA[|h.gotB|..] == w[c].ab
            && h.gotA <= h.sentB && h.sentB[|h.gotA|..] == w[c].ba
    decreases |ops|
  {
    hide Stepped, Extended;
    if ops != [] {
      var n := |ops| - 1;
      InOrder(snaps[..n + 1], ops[..n], outs[..n], c);
      var h := History(snaps[..n + 1], ops[..n], outs[..n], c);
      assert Tells(h, snaps[n].wires[c]);
      assert Stepped(snaps[n], ops[n], outs[n], snaps[n + 1]);
      StepTells(snaps[n], ops[n], outs[n], snaps[n + 1], h, c);
    }
  }

  lemma StepTells(s: Net, op: Op, out: Out, s': Net, h: Sides, c: nat)
    requires Stepped(s, op, out, s') && c < MAX_CONNS == |s.wires| && Tells(h, s.wires[c])
    ensures |s'.wires| == MAX_CONNS && Tells(Extended(h, s, op, out, s', c), s'.wires[c])
  {
    hide Stepped, Extended, Tells;
    if op.OpSend? {
      SendTells(s, op, out, s', h, c);
    } else if op.OpRecv? {
      RecvTells(s, op, out, s', h, c);
    } else {
      OtherTells(s, op, out, s', h, c);
    }
  }

  /** Once both sides of a connection are shut down, its slot can be taken again. */
  lemma BothShut(s: Net, op: Op, out: Out, s1: Net, op1: Op, out1: Out, s2: Net, c: nat, isA: bool)
    requires op.OpShutdown? && StateOf(s.tables, op.pid, op.fd) == Connected(c, isA) && Stepped(s, op, out, s1)
    requires op1.OpShutdown? && StateOf(s1.tables, op1.pid, op1.fd) == Connected(c, !isA) && Stepped(s1, op1, out1, s2)
    requires c < MAX_CONNS && s.conns[c] == Conn(true, false, false)
    ensures s1.conns[c].inUse && !s2.conns[c].inUse && !NoConn(s2.conns)
  {
    hide SockOf, SetSock;
  }
}
