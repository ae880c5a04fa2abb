/**
  The socket server (servers/net/src/lib.rs): per-process socket tables, connection
  slots, path and port listeners. What every handler keeps: who is at which end of a
  connection, and the byte streams between the two ends.
 */
module Sockets {
  import opened Words
  import opened Rings

  const MAX_PROCS := 64
  const MAX_SOCKS := 16
  const MAX_CONNS := 32
  const MAX_BOUND := 16
  const MAX_LISTENERS := 16
  const BACKLOG := 8
  const FD_BASE := 0x100

  datatype Domain = Unix | Inet

  datatype SockState =
    | Closed
    | Unbound
    | Listening(bound: nat)
    | InetListening
    | Connected(conn: nat, isA: bool)
    | PendingAccept(conn: nat)
    | InetPendingAccept(conn: nat)

  datatype Sock = Sock(state: SockState, inUse: bool, port: nat, domain: Domain)

  const NO_SOCK := Sock(Closed, false, 0, Unix)

  datatype Table = Table(pid: nat, inUse: bool, socks: seq<Sock>)

  datatype Conn = Conn(inUse: bool, closedA: bool, closedB: bool)

  datatype Listener = Listener(inUse: bool, port: nat, pid: nat, slot: nat, pending: seq<nat>)

  type Tables = s: seq<Table> | |s| == MAX_PROCS && forall t :: 0 <= t < MAX_PROCS ==> |s[t].socks| == MAX_SOCKS
    witness seq(MAX_PROCS, _ => Table(0, false, seq(MAX_SOCKS, _ => NO_SOCK)))

  type Conns = s: seq<Conn> | |s| == MAX_CONNS witness seq(MAX_CONNS, _ => Conn(false, false, false))

  type Listeners = s: seq<Listener> | |s| == MAX_LISTENERS witness seq(MAX_LISTENERS, _ => Listener(false, 0, 0, 0, []))

  // --------------------------------------------------------------- who refers to what

  /** A socket's place: table and slot. */
  datatype Loc = Loc(t: nat, s: nat)

  /** Who stands for side B: a socket, or a listener's queue while nobody has accepted yet. */
  datatype Holder = AtSock(loc: Loc) | InQueue(l: nat)

  type SideA = map<nat, Loc>
  type SideB = map<nat, Holder>

  /** The connection a socket is, or will be, side A of. */
  function AOf(st: SockState): Option<nat>
  {
    match st
    case Connected(c, isA) => if isA then Some(c) else None
    case PendingAccept(c) => Some(c)
    case InetPendingAccept(c) => Some(c)
    case _ => None
  }

  function BOf(st: SockState): Option<nat>
  {
    match st
    case Connected(c, isA) => if isA then None else Some(c)
    case _ => None
  }

  /** Every connection has at most one side A and one side B: their places are functions of it. */
  predicate RefOk(st: SockState, live: bool, loc: Loc, a: SideA, b: SideB)
  {
    && (AOf(st).Some? ==> live && AOf(st).value in a && a[AOf(st).value] == loc)
    && (BOf(st).Some? ==> BOf(st).value in b && b[BOf(st).value] == AtSock(loc))
  }

  predicate RefsOk(ts: Tables, a: SideA, b: SideB)
  {
    forall t, s :: 0 <= t < MAX_PROCS && 0 <= s < MAX_SOCKS ==>
             RefOk(ts[t].socks[s].state, ts[t].inUse, Loc(t, s), a, b)
  }

  /** A connection still waiting for accept never had a side B (`but` is being accepted right now). */
  predicate PendOk(ts: Tables, cs: Conns, b: SideB, but: Option<nat>)
  {
    forall t, s :: 0 <= t < MAX_PROCS && 0 <= s < MAX_SOCKS ==> WaitOk(ts[t].socks[s].state, cs, b, but)
  }

  predicate WaitOk(st: SockState, cs: Conns, b: SideB, but: Option<nat>)
  {
    st.PendingAccept? && but != Some(st.conn) ==> st.conn < MAX_CONNS && st.conn !in b && !cs[st.conn].closedB
  }

  /** Connections with a side are in use, and that side has not been shut down. */
  predicate ConnsOk(cs: Conns, a: SideA, b: SideB)
  {
    && (forall c :: c in a ==> c < MAX_CONNS && cs[c].inUse && !cs[c].closedA)
    && (forall c :: c in b ==> c < MAX_CONNS && cs[c].inUse && !cs[c].closedB)
  }

  /** Queued connections are queued once. */
  predicate QueuesOk(ls: Listeners, b: SideB)
  {
    forall l :: 0 <= l < MAX_LISTENERS ==> QueueOk(ls[l].pending, l, b)
  }

  predicate QueueOk(q: seq<nat>, l: nat, b: SideB)
  {
    && |q| <= BACKLOG
    && (forall i :: 0 <= i < |q| ==> q[i] in b && b[q[i]] == InQueue(l))
    && (forall i, j :: 0 <= i < j < |q| ==> q[i] != q[j])
  }

  predicate NetOk(ts: Tables, cs: Conns, ls: Listeners, a: SideA, b: SideB)
  {
    RefsOk(ts, a, b) && PendOk(ts, cs, b, None) && ConnsOk(cs, a, b) && QueuesOk(ls, b)
  }

  lemma RefAt(ts: Tables, a: SideA, b: SideB, t: nat, s: nat)
    requires RefsOk(ts, a, b) && t < MAX_PROCS && s < MAX_SOCKS
    ensures RefOk(ts[t].socks[s].state, ts[t].inUse, Loc(t, s), a, b)
  {
    hide RefOk;
  }

  /** A socket refers to connection `c`. */
  predicate Refers(st: SockState, c: nat)
  {
    AOf(st) == Some(c) || BOf(st) == Some(c)
  }

  /** At most one socket is side A of a connection, and at most one is side B. */
  lemma OneEachSide(ts: Tables, cs: Conns, ls: Listeners, a: SideA, b: SideB, c: nat, t: nat, s: nat, t': nat, s': nat)
    requires NetOk(ts, cs, ls, a, b) && t < MAX_PROCS && s < MAX_SOCKS && t' < MAX_PROCS && s' < MAX_SOCKS
    requires (AOf(ts[t].socks[s].state) == Some(c) && AOf(ts[t'].socks[s'].state) == Some(c))
             || (BOf(ts[t].socks[s].state) == Some(c) && BOf(ts[t'].socks[s'].state) == Some(c))
    ensures t == t' && s == s'
  {
    assert RefOk(ts[t].socks[s].state, ts[t].inUse, Loc(t, s), a, b)
           && RefOk(ts[t'].socks[s'].state, ts[t'].inUse, Loc(t', s'), a, b);
  }

  /** A slot that may be handed out next is one no socket refers to. */
  predicate NoReuse(ts: Tables, cs: Conns)
  {
    forall c, t, s :: 0 <= t < MAX_PROCS && 0 <= s < MAX_SOCKS && 0 <= c < MAX_CONNS && !cs[c].inUse ==>
             !Refers(ts[t].socks[s].state, c)
  }

  /** Two sockets connected to the same side of the same connection. */
  predicate SameEnd(ts: Tables, t: int, s: int, t': int, s': int)
  {
    && 0 <= t < MAX_PROCS && 0 <= s < MAX_SOCKS && 0 <= t' < MAX_PROCS && 0 <= s' < MAX_SOCKS
    && ts[t].socks[s].state.Connected? && ts[t].socks[s].state == ts[t'].socks[s'].state
  }

  ghost predicate OneSocketPerEnd(ts: Tables)
  {
    forall t, s, t', s' :: SameEnd(ts, t, s, t', s') ==> t == t' && s == s'
  }

  /** A connection slot that may be handed out is one no socket and no queue refers to. */
  lemma FreeIsUnreferenced(ts: Tables, cs: Conns, ls: Listeners, a: SideA, b: SideB, c: nat)
    requires NetOk(ts, cs, ls, a, b) && c < MAX_CONNS && !cs[c].inUse
    ensures forall t, s :: 0 <= t < MAX_PROCS && 0 <= s < MAX_SOCKS ==> !Refers(ts[t].socks[s].state, c)
    ensures forall l :: 0 <= l < MAX_LISTENERS ==> c !in ls[l].pending
    ensures c !in a && c !in b
  {
    forall t, s | 0 <= t < MAX_PROCS && 0 <= s < MAX_SOCKS
      ensures !Refers(ts[t].socks[s].state, c)
    {
      assert RefOk(ts[t].socks[s].state, ts[t].inUse, Loc(t, s), a, b);
    }
    forall l | 0 <= l < MAX_LISTENERS
      ensures c !in ls[l].pending
    {
      assert QueueOk(ls[l].pending, l, b);
    }
  }

  // -------------------------------------------------------------------- changing a socket

  function SetSock(ts: Tables, t: nat, s: nat, e: Sock): (ts': Tables)
    requires t < MAX_PROCS && s < MAX_SOCKS
    ensures forall t', s' :: 0 <= t' < MAX_PROCS && 0 <= s' < MAX_SOCKS ==>
              ts'[t'].socks[s'] == if t' == t && s' == s then e else ts[t'].socks[s']
    ensures forall t' :: 0 <= t' < MAX_PROCS ==> ts'[t'].pid == ts[t'].pid && ts'[t'].inUse == ts[t'].inUse
  {
    ts[t := ts[t].(socks := ts[t].socks[s := e])]
  }

  /** Side A without the connection this socket was side A of. */
  function ForgetA(a: SideA, st: SockState): SideA
  {
    if AOf(st).Some? then a - {AOf(st).value} else a
  }

  function ForgetB(b: SideB, st: SockState): SideB
  {
    if BOf(st).Some? then b - {BOf(st).value} else b
  }

  /**
    Replacing one socket's state. The sides may forget what it referred to, and learn of
    connections nobody held before.
   */
  lemma SockSet(ts: Tables, a: SideA, b: SideB, t: nat, s: nat, e: Sock, a': SideA, b': SideB)
    requires RefsOk(ts, a, b) && t < MAX_PROCS && s < MAX_SOCKS
    requires RefOk(e.state, ts[t].inUse, Loc(t, s), a', b')
    requires forall c :: c in a && a[c] != Loc(t, s) ==> c in a' && a'[c] == a[c]
    requires forall c :: c in b && b[c].AtSock? && b[c] != AtSock(Loc(t, s)) ==> c in b' && b'[c] == b[c]
    ensures RefsOk(SetSock(ts, t, s, e), a', b')
  {
    hide SetSock;
    var ts' := SetSock(ts, t, s, e);
    forall t', s' | 0 <= t' < MAX_PROCS && 0 <= s' < MAX_SOCKS
      ensures RefOk(ts'[t'].socks[s'].state, ts'[t'].inUse, Loc(t', s'), a', b')
    {
      assert RefOk(ts[t'].socks[s'].state, ts[t'].inUse, Loc(t', s'), a, b);
    }
  }

  /** Replacing one socket's state, waiting sockets: sides B only disappear. */
  lemma PendSet(ts: Tables, cs: Conns, b: SideB, t: nat, s: nat, e: Sock, cs': Conns, b': SideB, but: Option<nat>)
    requires PendOk(ts, cs, b, but) && t < MAX_PROCS && s < MAX_SOCKS && WaitOk(e.state, cs', b', but)
    requires forall c :: c in b' && c !in b ==> but == Some(c)
    requires forall c :: 0 <= c < MAX_CONNS && cs'[c].closedB && !cs[c].closedB ==> c in b
    ensures PendOk(SetSock(ts, t, s, e), cs', b', but)
  {
    hide SetSock;
    var ts' := SetSock(ts, t, s, e);
    forall t', s' | 0 <= t' < MAX_PROCS && 0 <= s' < MAX_SOCKS
      ensures WaitOk(ts'[t'].socks[s'].state, cs', b', but)
    {
      assert WaitOk(ts[t'].socks[s'].state, cs, b, but);
    }
  }

  /** Whatever this socket was, it now refers to nothing. */
  lemma SockCleared(ts: Tables, cs: Conns, ls: Listeners, a: SideA, b: SideB, t: nat, s: nat, e: Sock)
    requires NetOk(ts, cs, ls, a, b) && t < MAX_PROCS && s < MAX_SOCKS && AOf(e.state).None? && BOf(e.state).None?
    ensures NetOk(SetSock(ts, t, s, e), cs, ls, ForgetA(a, ts[t].socks[s].state), ForgetB(b, ts[t].socks[s].state))
  {
    hide SetSock, QueuesOk, PendOk, RefsOk;
    var st := ts[t].socks[s].state;
    var a', b' := ForgetA(a, st), ForgetB(b, st);
    RefAt(ts, a, b, t, s);
    SockSet(ts, a, b, t, s, e, a', b');
    QueuesForget(ls, b, st, Loc(t, s));
    PendSet(ts, cs, b, t, s, e, cs, b', None);
  }

  /** This socket becomes, or waits to become, side A of connection `c`, which has none. */
  lemma SockConnects(ts: Tables, cs: Conns, ls: Listeners, a: SideA, b: SideB, t: nat, s: nat, e: Sock, c: nat)
    requires NetOk(ts, cs, ls, a, b) && t < MAX_PROCS && s < MAX_SOCKS && AOf(e.state) == Some(c) && c !in a
             && ts[t].inUse
    requires c < MAX_CONNS && cs[c].inUse && !cs[c].closedA && (e.state.PendingAccept? ==> c !in b && !cs[c].closedB)
    ensures NetOk(SetSock(ts, t, s, e), cs, ls, ForgetA(a, ts[t].socks[s].state)[c := Loc(t, s)],
                  ForgetB(b, ts[t].socks[s].state))
  {
    hide SetSock, QueuesOk, PendOk, RefsOk;
    var st := ts[t].socks[s].state;
    var a', b' := ForgetA(a, st)[c := Loc(t, s)], ForgetB(b, st);
    RefAt(ts, a, b, t, s);
    SockSet(ts, a, b, t, s, e, a', b');
    QueuesForget(ls, b, st, Loc(t, s));
    PendSet(ts, cs, b, t, s, e, cs, b', None);
  }

  /** This socket becomes side B of connection `c`, which has none. */
  lemma SockAccepts(ts: Tables, cs: Conns, ls: Listeners, a: SideA, b: SideB, t: nat, s: nat, e: Sock, c: nat)
    requires NetOk(ts, cs, ls, a, b) && t < MAX_PROCS && s < MAX_SOCKS && e.state == Connected(c, false) && c !in b
    requires c < MAX_CONNS && cs[c].inUse && !cs[c].closedB
    ensures var ts', a', b' := SetSock(ts, t, s, e), ForgetA(a, ts[t].socks[s].state),
              ForgetB(b, ts[t].socks[s].state)[c := AtSock(Loc(t, s))];
            RefsOk(ts', a', b') && PendOk(ts', cs, b', Some(c)) && ConnsOk(cs, a', b') && QueuesOk(ls, b')
  {
    hide SetSock, PendOk, RefsOk, QueuesOk;
    var st := ts[t].socks[s].state;
    var a', b1 := ForgetA(a, st), ForgetB(b, st);
    var b' := b1[c := AtSock(Loc(t, s))];
    RefAt(ts, a, b, t, s);
    SockSet(ts, a, b, t, s, e, a', b');
    QueuesForget(ls, b, st, Loc(t, s));
    QueuesAdd(ls, b1, c, AtSock(Loc(t, s)));
    assert PendOk(ts, cs, b, Some(c)) by { PendWeaken(ts, cs, b, c); }
    PendSet(ts, cs, b, t, s, e, cs, b', Some(c));
  }

  lemma PendWeaken(ts: Tables, cs: Conns, b: SideB, c: nat)
    requires PendOk(ts, cs, b, None)
    ensures PendOk(ts, cs, b, Some(c))
  {
    forall t, s | 0 <= t < MAX_PROCS && 0 <= s < MAX_SOCKS
      ensures WaitOk(ts[t].socks[s].state, cs, b, Some(c))
    {
      assert WaitOk(ts[t].socks[s].state, cs, b, None);
    }
  }

  lemma QueuesAdd(ls: Listeners, b: SideB, c: nat, h: Holder)
    requires QueuesOk(ls, b) && c !in b
    ensures QueuesOk(ls, b[c := h])
  {
    forall l | 0 <= l < MAX_LISTENERS
      ensures QueueOk(ls[l].pending, l, b[c := h])
    {
      assert QueueOk(ls[l].pending, l, b);
    }
  }

  /** Forgetting a socket's side B concerns no queue. */
  lemma QueuesForget(ls: Listeners, b: SideB, st: SockState, loc: Loc)
    requires QueuesOk(ls, b) && (BOf(st).Some? ==> BOf(st).value in b && b[BOf(st).value] == AtSock(loc))
    ensures QueuesOk(ls, ForgetB(b, st))
  {
    forall l | 0 <= l < MAX_LISTENERS
      ensures QueueOk(ls[l].pending, l, ForgetB(b, st))
    {
      assert QueueOk(ls[l].pending, l, b);
    }
  }

  // ------------------------------------------------------- connections and queues

  /** A free connection slot is taken. */
  lemma ConnTaken(ts: Tables, cs: Conns, ls: Listeners, a: SideA, b: SideB, c: nat)
    requires NetOk(ts, cs, ls, a, b) && c < MAX_CONNS && !cs[c].inUse
    ensures NetOk(ts, cs[c := Conn(true, false, false)], ls, a, b) && c !in a && c !in b
  {
    hide RefsOk, QueuesOk;
    var cs' := cs[c := Conn(true, false, false)];
    forall t, s | 0 <= t < MAX_PROCS && 0 <= s < MAX_SOCKS
      ensures WaitOk(ts[t].socks[s].state, cs', b, None)
    {
      assert WaitOk(ts[t].socks[s].state, cs, b, None);
    }
  }

  /** A connection without sides joins a listener's queue. */
  lemma Enqueued(ts: Tables, cs: Conns, ls: Listeners, a: SideA, b: SideB, l: nat, c: nat)
    requires NetOk(ts, cs, ls, a, b) && l < MAX_LISTENERS && |ls[l].pending| < BACKLOG
    requires c < MAX_CONNS && cs[c].inUse && !cs[c].closedB && c !in b && c !in a
    ensures NetOk(ts, cs, ls[l := ls[l].(pending := ls[l].pending + [c])], a, b[c := InQueue(l)])
  {
    hide PendOk;
    var b', q := b[c := InQueue(l)], ls[l].pending + [c];
    var ls' := ls[l := ls[l].(pending := q)];
    assert QueueOk(ls[l].pending, l, b);
    QueuesAdd(ls, b, c, InQueue(l));
    assert QueueOk(q, l, b');
    hide QueueOk;
    assert QueuesOk(ls', b') by {
      assert forall k :: 0 <= k < MAX_LISTENERS && k != l ==> QueueOk(ls[k].pending, k, b');
    }
    assert RefsOk(ts, a, b') by { RefsGrow(ts, a, b, c, InQueue(l)); }
    assert PendOk(ts, cs, b', None) by { PendGrow(ts, cs, a, b, c, InQueue(l)); }
  }

  lemma RefsGrow(ts: Tables, a: SideA, b: SideB, c: nat, h: Holder)
    requires RefsOk(ts, a, b) && c !in b
    ensures RefsOk(ts, a, b[c := h])
  {
    forall t, s | 0 <= t < MAX_PROCS && 0 <= s < MAX_SOCKS
      ensures RefOk(ts[t].socks[s].state, ts[t].inUse, Loc(t, s), a, b[c := h])
    {
      assert RefOk(ts[t].socks[s].state, ts[t].inUse, Loc(t, s), a, b);
    }
  }

  lemma PendGrow(ts: Tables, cs: Conns, a: SideA, b: SideB, c: nat, h: Holder)
    requires RefsOk(ts, a, b) && PendOk(ts, cs, b, None) && c !in a
    ensures PendOk(ts, cs, b[c := h], None)
  {
    forall t, s | 0 <= t < MAX_PROCS && 0 <= s < MAX_SOCKS
      ensures WaitOk(ts[t].socks[s].state, cs, b[c := h], None)
    {
      assert WaitOk(ts[t].socks[s].state, cs, b, None) && RefOk(ts[t].socks[s].state, ts[t].inUse, Loc(t, s), a, b);
    }
  }

  /** The head of a queue is taken out; nobody waits for it on a path. */
  lemma Dequeued(ts: Tables, cs: Conns, ls: Listeners, a: SideA, b: SideB, l: nat)
    requires NetOk(ts, cs, ls, a, b) && l < MAX_LISTENERS && |ls[l].pending| > 0
    ensures var c := ls[l].pending[0];
            && c in b && c < MAX_CONNS && cs[c].inUse && !cs[c].closedB
            && NetOk(ts, cs, ls[l := ls[l].(pending := ls[l].pending[1..])], a, b - {c})
            && forall t, s :: 0 <= t < MAX_PROCS && 0 <= s < MAX_SOCKS ==> ts[t].socks[s].state != PendingAccept(c)
  {
    var c, q := ls[l].pending[0], ls[l].pending[1..];
    var b', ls' := b - {c}, ls[l := ls[l].(pending := q)];
    assert QueueOk(ls[l].pending, l, b);
    forall k | 0 <= k < MAX_LISTENERS
      ensures QueueOk(ls'[k].pending, k, b')
    {
      assert QueueOk(ls[k].pending, k, b);
    }
    hide QueueOk;
    forall t, s | 0 <= t < MAX_PROCS && 0 <= s < MAX_SOCKS
      ensures RefOk(ts[t].socks[s].state, ts[t].inUse, Loc(t, s), a, b') && WaitOk(ts[t].socks[s].state, cs, b', None)
      ensures ts[t].socks[s].state != PendingAccept(c)
    {
      assert RefOk(ts[t].socks[s].state, ts[t].inUse, Loc(t, s), a, b) && WaitOk(ts[t].socks[s].state, cs, b, None);
    }
  }

  function PromotedSock(e: Sock, p: SockState, c: nat): Sock
  {
    if e.state == p then e.(state := Connected(c, true)) else e
  }

  /** The connector of `c` moves from waiting to connected, wherever it is; nothing else changes. */
  ghost predicate Promoted(ts: Tables, ts': Tables, p: SockState, c: nat)
  {
    && (forall t :: 0 <= t < MAX_PROCS ==> ts'[t].inUse == ts[t].inUse && ts'[t].pid == ts[t].pid)
    && (forall t, s :: 0 <= t < MAX_PROCS && 0 <= s < MAX_SOCKS ==>
          ts'[t].socks[s] == PromotedSock(ts[t].socks[s], p, c))
  }

  lemma PromotedOk(ts: Tables, cs: Conns, ls: Listeners, a: SideA, b: SideB, ts': Tables, p: SockState, c: nat)
    requires RefsOk(ts, a, b) && PendOk(ts, cs, b, Some(c)) && ConnsOk(cs, a, b) && QueuesOk(ls, b)
    requires Promoted(ts, ts', p, c) && AOf(p) == Some(c)
    requires p != PendingAccept(c) ==>
               forall t, s :: 0 <= t < MAX_PROCS && 0 <= s < MAX_SOCKS ==> ts[t].socks[s].state != PendingAccept(c)
    ensures NetOk(ts', cs, ls, a, b)
  {
    hide QueuesOk, ConnsOk;
    forall t, s | 0 <= t < MAX_PROCS && 0 <= s < MAX_SOCKS
      ensures RefOk(ts'[t].socks[s].state, ts'[t].inUse, Loc(t, s), a, b) && WaitOk(ts'[t].socks[s].state, cs, b, None)
    {
      assert RefOk(ts[t].socks[s].state, ts[t].inUse, Loc(t, s), a, b) && WaitOk(ts[t].socks[s].state, cs, b, Some(c));
    }
  }

  /** Flags after side A or B of `c` has been shut down: the slot is free again once both are. */
  function ShutConn(k: Conn, isA: bool): Conn
  {
    var a, b := k.closedA || isA, k.closedB || !isA;
    Conn(k.inUse && !(a && b), a, b)
  }

  /** Shutting down a connected socket; when it was the last of its connection, no reference is left. */
  lemma SockShut(ts: Tables, cs: Conns, ls: Listeners, a: SideA, b: SideB, t: nat, s: nat)
    requires NetOk(ts, cs, ls, a, b) && t < MAX_PROCS && s < MAX_SOCKS && ts[t].socks[s].state.Connected?
    ensures var st := ts[t].socks[s].state;
            && st.conn < MAX_CONNS
            && NetOk(SetSock(ts, t, s, NO_SOCK), cs[st.conn := ShutConn(cs[st.conn], st.isA)], ls, ForgetA(a, st),
                     ForgetB(b, st))
  {
    hide SetSock, QueuesOk, PendOk, RefsOk;
    var st := ts[t].socks[s].state;
    var a', b' := ForgetA(a, st), ForgetB(b, st);
    RefAt(ts, a, b, t, s);
    var cs' := cs[st.conn := ShutConn(cs[st.conn], st.isA)];
    SockSet(ts, a, b, t, s, NO_SOCK, a', b');
    QueuesForget(ls, b, st, Loc(t, s));
    PendSet(ts, cs, b, t, s, NO_SOCK, cs', b', None);
  }

  // ---------------------------------------------------------------------- the server

  /** What is under way on a connection: bytes sent by side A and not yet received by side B, and back. */
  datatype Wire = Wire(ab: seq<Byte>, ba: seq<Byte>)

  /** The ring that side A (or B) of connection `c` writes. */
  function RingOf(c: nat, byA: bool): nat
  {
    if byA then 2 * c else 2 * c + 1
  }

  datatype Address = Malformed | InetAddr(port: nat, ip: nat) | PathAddr(path: seq<Byte>)

  const LOOPBACK := 0x0100007F

  function SlotOf(fd: nat): nat
  {
    if FD_BASE <= fd < FD_BASE + MAX_SOCKS then fd - FD_BASE else MAX_SOCKS
  }

  /** The requests of a run (closing sockets is not among them). */
  datatype Op =
    | OpSocket(pid: nat, domain: nat)
    | OpBind(pid: nat, fd: nat, addr: Address)
    | OpListen(pid: nat, fd: nat)
    | OpConnect(pid: nat, fd: nat, addr: Address)
    | OpAccept(pid: nat, fd: nat)
    | OpSocketPair(pid: nat, domain: nat)
    | OpSend(pid: nat, fd: nat, data: seq<Byte>)
    | OpRecv(pid: nat, fd: nat, len: nat)
    | OpShutdown(pid: nat, fd: nat)

  /** Connection slot `c` was free and is now in use, with nothing under way. */
  ghost predicate Claimed(cs: Conns, cs': Conns, ws: seq<Wire>, ws': seq<Wire>, c: nat)
  {
    && c < MAX_CONNS && !cs[c].inUse && cs' == cs[c := Conn(true, false, false)]
    && |ws| == MAX_CONNS && ws' == ws[c := Wire([], [])]
  }

  /** The state that requests act on. */
  datatype Net = Net(
    tables: Tables, conns: Conns, listeners: Listeners, bound: seq<Option<seq<Byte>>>, wires: seq<Wire>)

  /** How many of `n` bytes fit into a ring that holds `m`. */
  function Fitting(n: nat, m: nat): (k: nat)
    ensures k <= n
  {
    if n + m <= RING_SIZE then n else if m < RING_SIZE then RING_SIZE - m else 0
  }

  /** How many of `n` bytes a ring that holds `m` can give. */
  function Available(n: nat, m: nat): (k: nat)
    ensures k <= m
  {
    if n < m then n else m
  }

  /** The first table in use by a process, from `t` on; MAX_PROCS if there is none. */
  function TableOf(ts: Tables, pid: nat, t: nat): (r: nat)
    requires t <= MAX_PROCS
    ensures t <= r <= MAX_PROCS && (r < MAX_PROCS ==> ts[r].inUse && ts[r].pid == pid)
    decreases MAX_PROCS - t
  {
    if t == MAX_PROCS || (ts[t].inUse && ts[t].pid == pid) then t else TableOf(ts, pid, t + 1)
  }

  lemma {:induction false} TableOfIs(ts: Tables, pid: nat, k: nat, t: nat)
    requires k <= t <= MAX_PROCS && (t < MAX_PROCS ==> ts[t].inUse && ts[t].pid == pid)
    requires forall i :: k <= i < t ==> !(ts[i].inUse && ts[i].pid == pid)
    ensures TableOf(ts, pid, k) == t
    decreases MAX_PROCS - k
  {
    if k < t { TableOfIs(ts, pid, k + 1, t); }
  }

  lemma {:induction false} TableOfFirst(ts: Tables, pid: nat, k: nat)
    requires k <= MAX_PROCS
    ensures forall i :: k <= i < TableOf(ts, pid, k) ==> !(ts[i].inUse && ts[i].pid == pid)
    decreases MAX_PROCS - k
  {
    if k < MAX_PROCS && !(ts[k].inUse && ts[k].pid == pid) { TableOfFirst(ts, pid, k + 1); }
  }

  /** The open socket behind a file descriptor of a process. */
  function SockOf(ts: Tables, pid: nat, fd: nat): Option<Loc>
  {
    var t, s := TableOf(ts, pid, 0), SlotOf(fd);
    if t < MAX_PROCS && s < MAX_SOCKS && ts[t].socks[s].inUse then Some(Loc(t, s)) else None
  }

  /** The process has no table, and none is left. */
  predicate NoTable(ts: Tables, pid: nat)
  {
    TableOf(ts, pid, 0) == MAX_PROCS && forall t :: 0 <= t < MAX_PROCS ==> ts[t].inUse
  }

  /** The process has a table, with every slot taken. */
  predicate NoSlot(ts: Tables, pid: nat)
  {
    var t := TableOf(ts, pid, 0);
    t < MAX_PROCS && forall s :: 0 <= s < MAX_SOCKS ==> ts[t].socks[s].inUse
  }

  /** The process has a table, with at most one free slot. */
  predicate NoTwoSlots(ts: Tables, pid: nat)
  {
    var t := TableOf(ts, pid, 0);
    t < MAX_PROCS && forall s, s' :: 0 <= s < s' < MAX_SOCKS ==> ts[t].socks[s].inUse || ts[t].socks[s'].inUse
  }

  predicate NoConn(cs: Conns)
  {
    forall c :: 0 <= c < MAX_CONNS ==> cs[c].inUse
  }

  /** The first listener on a port, from `l` on; MAX_LISTENERS if there is none. */
  function ListenerOf(ls: Listeners, port: nat, l: nat): (r: nat)
    requires l <= MAX_LISTENERS
    ensures l <= r <= MAX_LISTENERS && (r < MAX_LISTENERS ==> ls[r].inUse && ls[r].port == port)
    ensures forall k :: l <= k < r ==> !(ls[k].inUse && ls[k].port == port)
    decreases MAX_LISTENERS - l
  {
    if l == MAX_LISTENERS || (ls[l].inUse && ls[l].port == port) then l else ListenerOf(ls, port, l + 1)
  }

  /** A connect to a loopback port gets as far as claiming a connection, and finds the queue full. */
  predicate BacklogFull(ls: Listeners, cs: Conns, fd: nat, port: nat, ip: nat)
  {
    var l := ListenerOf(ls, port, 0);
    && SlotOf(fd) < MAX_SOCKS && (ip == LOOPBACK || ip == 0) && l < MAX_LISTENERS && !NoConn(cs)
    && |ls[l].pending| >= BACKLOG
  }

  /** What connect answers for a loopback port. */
  function ConnectPortAnswer(ls: Listeners, cs: Conns, fd: nat, port: nat, ip: nat): int
  {
    if SlotOf(fd) == MAX_SOCKS then -9
    else if (ip != LOOPBACK && ip != 0) || ListenerOf(ls, port, 0) == MAX_LISTENERS then -111
    else if NoConn(cs) then -12
    else if BacklogFull(ls, cs, fd, port, ip) then -111
    else 0
  }

  /** No socket refers to connection `c`. */
  ghost predicate Abandoned(ts: Tables, cs: Conns, c: nat)
  {
    && c < MAX_CONNS && cs[c].inUse
    && forall t, s :: 0 <= t < MAX_PROCS && 0 <= s < MAX_SOCKS ==> !Refers(ts[t].socks[s].state, c)
  }

  /** Socket (t, s) is the first that waits on a path for its connection to be accepted. */
  predicate FirstPending(ts: Tables, t: nat, s: nat)
  {
    && t < MAX_PROCS && s < MAX_SOCKS && ts[t].inUse && ts[t].socks[s].state.PendingAccept?
    && (forall i, j :: 0 <= i < t && 0 <= j < MAX_SOCKS && ts[i].inUse ==> !ts[i].socks[j].state.PendingAccept?)
    && (forall j :: 0 <= j < s ==> !ts[t].socks[j].state.PendingAccept?)
  }

  /** Descriptor `fd` of the process is the new socket `e`; sockets that were open stay as they were. */
  ghost predicate SockOpened(ts: Tables, ts': Tables, pid: nat, fd: nat, e: Sock)
  {
    && SockOf(ts', pid, fd).Some?
    && var loc := SockOf(ts', pid, fd).value;
       && ts' == SetSock(WithTable(ts, loc.t, pid), loc.t, loc.s, e)
       && !WithTable(ts, loc.t, pid)[loc.t].socks[loc.s].inUse
       && (forall k :: 0 <= k < loc.s ==> ts'[loc.t].socks[k].inUse)
       && (!ts[loc.t].inUse ==> forall k :: 0 <= k < loc.t ==> ts[k].inUse)
       && forall t, s :: 0 <= t < MAX_PROCS && 0 <= s < MAX_SOCKS && ts[t].inUse && ts[t].socks[s].inUse ==>
            Loc(t, s) != loc && ts'[t].socks[s] == ts[t].socks[s]
  }

  /** An unused table becomes that of a process, with no socket open. */
  function WithTable(ts: Tables, t: nat, pid: nat): Tables
    requires t < MAX_PROCS
  {
    if ts[t].inUse then ts else ts[t := Table(pid, true, seq(MAX_SOCKS, _ => NO_SOCK))]
  }

  /** No socket was opened or closed, and every open one is as it was. */
  ghost predicate OpenKept(ts: Tables, ts': Tables)
  {
    && (forall t :: 0 <= t < MAX_PROCS ==> ts'[t].pid == ts[t].pid && ts'[t].inUse == ts[t].inUse)
    && (forall t, s :: 0 <= t < MAX_PROCS && 0 <= s < MAX_SOCKS ==>
          && ts'[t].socks[s].inUse == ts[t].socks[s].inUse
          && (ts[t].socks[s].inUse ==> ts'[t].socks[s] == ts[t].socks[s]))
  }

  /** Accepting on a port: its oldest waiting connection, which leaves the queue even if no descriptor is left. */
  ghost predicate AcceptedPort(ts: Tables, ls: Listeners, pid: nat, port: nat, r: int, c: nat, ts1: Tables, ts': Tables,
                               ls': Listeners)
  {
    var l := ListenerOf(ls, port, 0);
    if l == MAX_LISTENERS || ls[l].pending == [] then r == -11 && ls' == ls
    else
      && c == ls[l].pending[0] && ls' == ls[l := ls[l].(pending := ls[l].pending[1..])]
      && (if NoSlot(ts, pid) then r == -24 else
            && r >= 0 && SockOpened(ts, ts1, pid, r, Sock(Connected(c, false), true, 0, Inet))
            && Promoted(ts1, ts', InetPendingAccept(c), c))
  }

  /** Accepting on a path: the first socket, in table order, that waits on any path. */
  ghost predicate AcceptedPath(ts: Tables, pid: nat, r: int, c: nat, ts1: Tables, ts': Tables)
  {
    if forall i, j :: 0 <= i < MAX_PROCS && 0 <= j < MAX_SOCKS && ts[i].inUse ==> !ts[i].socks[j].state.PendingAccept?
    then r == -11
    else
      && (exists t: nat, s: nat :: FirstPending(ts, t, s) && ts[t].socks[s].state == PendingAccept(c))
      && (if NoSlot(ts, pid) then r == -24 else
            && r >= 0 && SockOpened(ts, ts1, pid, r, Sock(Connected(c, false), true, 0, Unix))
            && Promoted(ts1, ts', PendingAccept(c), c))
  }

  lemma PendingPlace(ts: Tables, t: nat, s: nat)
    requires FirstPending(ts, t, s)
    ensures t < MAX_PROCS && s < MAX_SOCKS && ts[t].inUse && ts[t].socks[s].state.PendingAccept?
  {
  }

  lemma HasTable(ts: Tables, pid: nat, fd: nat)
    requires SockOf(ts, pid, fd).Some?
    ensures TableOf(ts, pid, 0) < MAX_PROCS
  {
  }

  lemma OpenedAt(ts: Tables, ts1: Tables, pid: nat, t: nat, s: nat, e: Sock)
    requires t < MAX_PROCS && s < MAX_SOCKS && t == TableOf(ts1, pid, 0) && !ts1[t].socks[s].inUse && e.inUse
    requires ts1 == WithTable(ts, t, pid) && (!ts[t].inUse ==> forall k :: 0 <= k < t ==> ts[k].inUse)
    requires forall k :: 0 <= k < s ==> ts1[t].socks[k].inUse
    ensures SockOpened(ts, SetSock(ts1, t, s, e), pid, s + FD_BASE, e)
  {
    hide SetSock;
    var ts' := SetSock(ts1, t, s, e);
    TableOfFirst(ts1, pid, 0);
    TableOfIs(ts', pid, 0, t);
  }

  /** Tables after giving the socket behind `loc`, if there is one, a new state. */
  function WithState(ts: Tables, loc: Option<Loc>, st: SockState): Tables
    requires loc.Some? ==> loc.value.t < MAX_PROCS && loc.value.s < MAX_SOCKS
  {
    if loc.None? then ts else SetSock(ts, loc.value.t, loc.value.s, ts[loc.value.t].socks[loc.value.s].(state := st))
  }

  /** Tables after noting a port on the socket behind `loc`, if there is one. */
  function WithPort(ts: Tables, loc: Option<Loc>, port: nat): Tables
    requires loc.Some? ==> loc.value.t < MAX_PROCS && loc.value.s < MAX_SOCKS
  {
    if loc.None? then ts else SetSock(ts, loc.value.t, loc.value.s, ts[loc.value.t].socks[loc.value.s].(port := port))
  }

  /** The two descriptors are the two sides of connection `c`. */
  ghost predicate TwoEnds(ts: Tables, pid: nat, fdA: nat, fdB: nat, c: nat)
  {
    && SockOf(ts, pid, fdA).Some? && SockOf(ts, pid, fdB).Some?
    && var a, b := SockOf(ts, pid, fdA).value, SockOf(ts, pid, fdB).value;
       ts[a.t].socks[a.s].state == Connected(c, true) && ts[b.t].socks[b.s].state == Connected(c, false)
  }

  /** They were opened one after the other. */
  ghost predicate Paired(ts: Tables, ts': Tables, pid: nat, fdA: nat, fdB: nat, c: nat)
  {
    && TwoEnds(ts', pid, fdA, fdB, c)
    && exists mid: Tables ::
         && SockOpened(ts, mid, pid, fdA, Sock(Connected(c, true), true, 0, Unix))
         && SockOpened(mid, ts', pid, fdB, Sock(Connected(c, false), true, 0, Unix))
  }

  // ------------------------------------------------------------ what each request does

  ghost predicate SocketStep(s: Net, pid: nat, domain: nat, r: int, s': Net)
  {
    && s' == s.(tables := s'.tables)
    && (if domain != 1 && domain != 2 then r == -97
        else if NoTable(s.tables, pid) then r == -12
        else if NoSlot(s.tables, pid) then r == -24
        else r >= 0)
    && (r < 0 ==> s' == s)
    && (r >= 0 ==> SockOpened(s.tables, s'.tables, pid, r, Sock(Unbound, true, 0, if domain == 1 then Unix else Inet)))
  }

  function BindAnswer(s: Net, fd: nat, addr: Address): int
  {
    if SlotOf(fd) == MAX_SOCKS then -9 else
      match addr
      case Malformed => -22
      case InetAddr(port, _) => if ListenerOf(s.listeners, port, 0) < MAX_LISTENERS then -98 else 0
      case PathAddr(path) => if Some(path) in s.bound then -98 else if None !in s.bound then -12 else 0
  }

  /** A path is registered at the free place `i`. */
  ghost predicate BindStep(s: Net, pid: nat, fd: nat, addr: Address, r: int, i: nat, s': Net)
  {
    && r == BindAnswer(s, fd, addr)
    && (r == 0 && addr.PathAddr? ==>
          && i < MAX_BOUND == |s.bound| && s.bound[i].None?
          && s' == s.(bound := s.bound[i := Some(addr.path)],
                      tables := WithState(s.tables, SockOf(s.tables, pid, fd), Listening(i))))
    && (r == 0 && addr.InetAddr? ==> s' == s.(tables := WithPort(s.tables, SockOf(s.tables, pid, fd), addr.port)))
    && (r != 0 ==> s' == s)
  }

  /** A port gets the free listener entry `l`. */
  ghost predicate ListenStep(s: Net, pid: nat, fd: nat, r: int, l: nat, s': Net)
  {
    var loc := SockOf(s.tables, pid, fd);
    if loc.None? then r == -9 && s' == s else
      var e := s.tables[loc.value.t].socks[loc.value.s];
      if e.domain == Unix || e.port == 0 then r == (if e.domain == Unix then 0 else -22) && s' == s
      else if forall k :: 0 <= k < MAX_LISTENERS ==> s.listeners[k].inUse then
        r == -12 && s' == s.(tables := WithState(s.tables, loc, InetListening))
      else
        && r == 0 && l < MAX_LISTENERS && !s.listeners[l].inUse
        && s' == s.(tables := WithState(s.tables, loc, InetListening),
                    listeners := s.listeners[l := Listener(true, e.port, pid, loc.value.s, [])])
  }

  function ConnectAnswer(s: Net, fd: nat, addr: Address): int
  {
    match addr
    case Malformed => if SlotOf(fd) == MAX_SOCKS then -9 else -22
    case InetAddr(port, ip) => ConnectPortAnswer(s.listeners, s.conns, fd, port, ip)
    case PathAddr(path) =>
      if SlotOf(fd) == MAX_SOCKS then -9 else if Some(path) !in s.bound then -111
      else if NoConn(s.conns) then -12 else 0
  }

  /** The socket waits for the fresh connection `c`; a full backlog leaves it claimed, with nobody using it. */
  ghost predicate ConnectStep(s: Net, pid: nat, fd: nat, addr: Address, r: int, c: nat, s': Net)
  {
    && r == ConnectAnswer(s, fd, addr) && s'.bound == s.bound
    && (r == 0 ==> Claimed(s.conns, s'.conns, s.wires, s'.wires, c))
    && (r == 0 && addr.PathAddr? ==>
          && s'.listeners == s.listeners
          && s'.tables == WithState(s.tables, SockOf(s.tables, pid, fd), PendingAccept(c)))
    && (r == 0 && addr.InetAddr? ==>
          var l := ListenerOf(s.listeners, addr.port, 0);
          && l < MAX_LISTENERS
          && s'.listeners == s.listeners[l := s.listeners[l].(pending := s.listeners[l].pending + [c])]
          && s'.tables == WithState(s.tables, SockOf(s.tables, pid, fd), InetPendingAccept(c)))
    && (r != 0 ==>
          && s'.tables == s.tables && s'.listeners == s.listeners
          && if addr.InetAddr? && BacklogFull(s.listeners, s.conns, fd, addr.port, addr.ip)
             then Claimed(s.conns, s'.conns, s.wires, s'.wires, c) && Abandoned(s'.tables, s'.conns, c)
             else s' == s)
  }

  /** Connection `c` gets a new socket as its side B, which leads to the tables `ts`, and its connector is side A. */
  ghost predicate AcceptStep(s: Net, pid: nat, fd: nat, r: int, c: nat, ts: Tables, s': Net)
  {
    var loc := SockOf(s.tables, pid, fd);
    && s' == s.(tables := s'.tables, listeners := s'.listeners) && (r < 0 ==> s'.tables == s.tables)
    && if loc.None? then r == -9 && s'.listeners == s.listeners else
         var e := s.tables[loc.value.t].socks[loc.value.s];
         if e.state.InetListening? then
           AcceptedPort(s.tables, s.listeners, pid, e.port, r, c, ts, s'.tables, s'.listeners)
         else if e.state.Listening? then
           s'.listeners == s.listeners && AcceptedPath(s.tables, pid, r, c, ts, s'.tables)
         else r == -22 && s'.listeners == s.listeners
  }

  /** Two new sockets are the two sides of the fresh connection `c`; without room for them it stays claimed. */
  ghost predicate PairStep(s: Net, pid: nat, domain: nat, r: int, fdA: nat, fdB: nat, c: nat, s': Net)
  {
    && r == (if domain != 1 then -97 else if NoConn(s.conns) || NoTable(s.tables, pid) then -12
             else if NoTwoSlots(s.tables, pid) then -24 else 0)
    && s'.listeners == s.listeners && s'.bound == s.bound
    && (domain != 1 || NoConn(s.conns) ==> s' == s)
    && (domain == 1 && !NoConn(s.conns) ==> Claimed(s.conns, s'.conns, s.wires, s'.wires, c))
    && (r == 0 ==> Paired(s.tables, s'.tables, pid, fdA, fdB, c))
    && (r != 0 ==> OpenKept(s.tables, s'.tables))
    && (r != 0 && domain == 1 && !NoConn(s.conns) ==> Abandoned(s'.tables, s'.conns, c))
  }

  /** What is accepted follows what this side has sent before, as much as fits. */
  ghost predicate SendStep(s: Net, pid: nat, fd: nat, data: seq<Byte>, r: int, s': Net)
  {
    var loc := SockOf(s.tables, pid, fd);
    if loc.None? then r == -9 && s' == s else
      var st := s.tables[loc.value.t].socks[loc.value.s].state;
      if !st.Connected? then r == -32 && s' == s else
        && st.conn < MAX_CONNS == |s.wires|
        && var w := s.wires[st.conn];
           if st.isA then
             && r == Fitting(|data|, |w.ab|)
             && s' == s.(wires := s.wires[st.conn := Wire(w.ab + data[..r], w.ba)])
           else
             && r == Fitting(|data|, |w.ba|)
             && s' == s.(wires := s.wires[st.conn := Wire(w.ab, w.ba + data[..r])])
  }

  /** What is received is the oldest of what the other side has sent, as much as there is. */
  ghost predicate RecvStep(s: Net, pid: nat, fd: nat, len: nat, r: int, data: seq<Byte>, s': Net)
  {
    var loc := SockOf(s.tables, pid, fd);
    if loc.None? then r == -9 && data == [] && s' == s else
      var st := s.tables[loc.value.t].socks[loc.value.s].state;
      if !st.Connected? then r == -9 && data == [] && s' == s else
        && st.conn < MAX_CONNS == |s.wires| && r == |data|
        && var w := s.wires[st.conn];
           if st.isA then
             && data == w.ba[..Available(len, |w.ba|)]
             && s' == s.(wires := s.wires[st.conn := Wire(w.ab, w.ba[|data|..])])
           else
             && data == w.ab[..Available(len, |w.ab|)]
             && s' == s.(wires := s.wires[st.conn := Wire(w.ab[|data|..], w.ba)])
  }

  /** The socket is gone, its side is closed, and the slot is free once both sides are. */
  ghost predicate ShutdownStep(s: Net, pid: nat, fd: nat, r: int, s': Net)
  {
    var loc := SockOf(s.tables, pid, fd);
    && r == (if SlotOf(fd) == MAX_SOCKS then -9 else 0)
    && if loc.None? then s' == s else
         var st := s.tables[loc.value.t].socks[loc.value.s].state;
         var ts := SetSock(s.tables, loc.value.t, loc.value.s, NO_SOCK);
         if !st.Connected? then s' == s.(tables := ts) else
           && st.conn < MAX_CONNS
           && s' == s.(tables := ts, conns := s.conns[st.conn := ShutConn(s.conns[st.conn], st.isA)])
  }

  /** The answer to a request. */
  datatype Out = Answer(r: int) | Received(r: int, data: seq<Byte>) | Pair(r: int, fdA: nat, fdB: nat)

  /** One entry of a transcript. */
  ghost predicate Stepped(s: Net, op: Op, out: Out, s': Net)
  {
    match op
    case OpSocket(pid, domain) => out.Answer? && SocketStep(s, pid, domain, out.r, s')
    case OpBind(pid, fd, addr) => out.Answer? && exists i: nat :: BindStep(s, pid, fd, addr, out.r, i, s')
    case OpListen(pid, fd) => out.Answer? && exists l: nat :: ListenStep(s, pid, fd, out.r, l, s')
    case OpConnect(pid, fd, addr) => out.Answer? && exists c: nat :: ConnectStep(s, pid, fd, addr, out.r, c, s')
    case OpAccept(pid, fd) =>
      out.Answer? && exists c: nat, ts: Tables :: AcceptStep(s, pid, fd, out.r, c, ts, s')
    case OpSocketPair(pid, domain) =>
      out.Pair? && exists c: nat :: PairStep(s, pid, domain, out.r, out.fdA, out.fdB, c, s')
    case OpSend(pid, fd, data) => out.Answer? && SendStep(s, pid, fd, data, out.r, s')
    case OpRecv(pid, fd, len) => out.Received? && RecvStep(s, pid, fd, len, out.r, out.data, s')
    case OpShutdown(pid, fd) => out.Answer? && ShutdownStep(s, pid, fd, out.r, s')
  }

  /** A transcript: the states in between, the requests and the answers. */
  ghost predicate Trace(snaps: seq<Net>, ops: seq<Op>, outs: seq<Out>)
  {
    && |snaps| == |ops| + 1 && |outs| == |ops|
    && forall k :: 0 <= k < |ops| ==> Stepped(snaps[k], ops[k], outs[k], snaps[k + 1])
  }

  /** A table that was just created, or none. */
  ghost predicate SameOrNew(ts: Tables, ts1: Tables, pid: nat, t: nat)
  {
    && t < MAX_PROCS && t == TableOf(ts1, pid, 0)
    && if TableOf(ts, pid, 0) < MAX_PROCS then ts1 == ts
       else
         && !ts[t].inUse && ts1 == ts[t := Table(pid, true, seq(MAX_SOCKS, _ => NO_SOCK))]
         && forall k :: 0 <= k < t ==> ts[k].inUse
  }

  lemma StillAbandoned(ts: Tables, ts1: Tables, cs: Conns, pid: nat, t: nat, c: nat)
    requires SameOrNew(ts, ts1, pid, t) && Abandoned(ts, cs, c)
    ensures Abandoned(ts1, cs, c)
  {
    hide TableOf;
  }

  /** The first free slot tells whether there is one. */
  lemma SlotsLeft(ts: Tables, ts1: Tables, pid: nat, t: nat, s: nat)
    requires SameOrNew(ts, ts1, pid, t) && s <= MAX_SOCKS && forall k :: 0 <= k < s ==> ts1[t].socks[k].inUse
    requires s < MAX_SOCKS ==> !ts1[t].socks[s].inUse
    ensures s == MAX_SOCKS <==> NoSlot(ts, pid)
    ensures s == MAX_SOCKS ==> NoTwoSlots(ts, pid)
  {
    hide TableOf;
    if s == MAX_SOCKS { assert ts1[t].socks[0].inUse; }
  }

  /** After taking slot `s`, the next free one tells whether there were two. */
  lemma SecondSlot(ts: Tables, ts1: Tables, ts2: Tables, pid: nat, t: nat, s: nat, s2: nat, e: Sock)
    requires SameOrNew(ts, ts1, pid, t) && s < MAX_SOCKS && s2 <= MAX_SOCKS && e.inUse && ts2 == SetSock(ts1, t, s, e)
    requires !ts1[t].socks[s].inUse && forall k :: 0 <= k < s ==> ts1[t].socks[k].inUse
    requires (s2 < MAX_SOCKS ==> !ts2[t].socks[s2].inUse) && forall k :: 0 <= k < s2 ==> ts2[t].socks[k].inUse
    ensures s2 == MAX_SOCKS <==> NoTwoSlots(ts, pid)
    ensures s2 < MAX_SOCKS ==> s2 != s
  {
    hide TableOf;
    assert forall k :: 0 <= k < MAX_SOCKS && k != s ==> ts2[t].socks[k] == ts1[t].socks[k];
    assert ts2[t].socks[s].inUse;
    var k := if s == 0 then 1 else 0;
    assert ts2[t].socks[k] == ts1[t].socks[k];
    if s2 < MAX_SOCKS {
      assert !ts1[t].socks[s2].inUse && s < s2;
    } else if TableOf(ts, pid, 0) == MAX_PROCS {
      assert false;
    }
  }

  lemma ClearedAgain(ts: Tables, ts': Tables, cs: Conns, t: nat, s: nat, e: Sock, c: nat)
    requires Abandoned(ts, cs, c) && t < MAX_PROCS && s < MAX_SOCKS
             && ts' == SetSock(SetSock(ts, t, s, e), t, s, NO_SOCK)
    ensures Abandoned(ts', cs, c)
  {
  }

  lemma OpenSame(ts: Tables)
    ensures OpenKept(ts, ts)
  {
  }

  lemma FullAlready(ts: Tables, ts1: Tables, pid: nat, t: nat)
    requires SameOrNew(ts, ts1, pid, t) && forall k :: 0 <= k < MAX_SOCKS ==> ts1[t].socks[k].inUse
    ensures ts1 == ts
  {
    hide TableOf;
    assert ts1[t].socks[0].inUse;
  }

  /** A table without two free slots is not a new one, and the slot tried is free again. */
  lemma NothingOpened(ts: Tables, ts1: Tables, ts': Tables, pid: nat, t: nat, s: nat)
    requires SameOrNew(ts, ts1, pid, t) && s < MAX_SOCKS && !ts1[t].socks[s].inUse && NoTwoSlots(ts, pid)
    requires forall i, j :: 0 <= i < MAX_PROCS && 0 <= j < MAX_SOCKS ==>
               ts'[i].socks[j] == if i == t && j == s then NO_SOCK else ts1[i].socks[j]
    requires forall i :: 0 <= i < MAX_PROCS ==> ts'[i].pid == ts1[i].pid && ts'[i].inUse == ts1[i].inUse
    ensures OpenKept(ts, ts')
  {
    hide TableOf;
  }

  lemma PairedAt(ts: Tables, ts1: Tables, ts': Tables, pid: nat, t: nat, s: nat, s2: nat, c: nat)
    requires SameOrNew(ts, ts1, pid, t) && s < MAX_SOCKS && s2 < MAX_SOCKS && s != s2
    requires !ts1[t].socks[s].inUse && forall k :: 0 <= k < s ==> ts1[t].socks[k].inUse
    requires var ts2 := SetSock(ts1, t, s, Sock(Connected(c, true), true, 0, Unix));
             && !ts2[t].socks[s2].inUse && (forall k :: 0 <= k < s2 ==> ts2[t].socks[k].inUse)
             && ts' == SetSock(ts2, t, s2, Sock(Connected(c, false), true, 0, Unix))
    ensures Paired(ts, ts', pid, s + FD_BASE, s2 + FD_BASE, c)
  {
    hide SetSock, SockOpened, TableOf, SockOf;
    var a, b := Sock(Connected(c, true), true, 0, Unix), Sock(Connected(c, false), true, 0, Unix);
    var ts2 := SetSock(ts1, t, s, a);
    HomeIs(ts, ts1, pid, t);
    OpenedAt(ts, ts1, pid, t, s, a);
    TableKept(ts1, ts2, pid, t);
    OpenedAt(ts2, ts2, pid, t, s2, b);
    TableKept(ts2, ts', pid, t);
    PlacesAre(ts', pid, t, s, s2);
  }

  lemma HomeIs(ts: Tables, ts1: Tables, pid: nat, t: nat)
    requires SameOrNew(ts, ts1, pid, t)
    ensures ts1 == WithTable(ts, t, pid) && ts1[t].inUse && (!ts[t].inUse ==> forall k :: 0 <= k < t ==> ts[k].inUse)
  {
    hide TableOf;
  }

  /** The table of a process depends on owners and use only. */
  lemma TableKept(ts: Tables, ts': Tables, pid: nat, t: nat)
    requires t < MAX_PROCS && t == TableOf(ts, pid, 0)
    requires forall k :: 0 <= k < MAX_PROCS ==> ts'[k].pid == ts[k].pid && ts'[k].inUse == ts[k].inUse
    ensures t == TableOf(ts', pid, 0)
  {
    TableOfFirst(ts, pid, 0);
    TableOfIs(ts', pid, 0, t);
  }

  lemma PlacesAre(ts: Tables, pid: nat, t: nat, s: nat, s2: nat)
    requires t < MAX_PROCS && t == TableOf(ts, pid, 0) && s < MAX_SOCKS && s2 < MAX_SOCKS
    requires ts[t].socks[s].inUse && ts[t].socks[s2].inUse
    ensures SockOf(ts, pid, s + FD_BASE) == Some(Loc(t, s)) && SockOf(ts, pid, s2 + FD_BASE) == Some(Loc(t, s2))
  {
    hide TableOf;
  }

  /** A socket's old state is not side B of a connection that has none. */
  lemma NotSideB(ts: Tables, cs: Conns, ls: Listeners, a: SideA, b: SideB, t: nat, s: nat, c: nat)
    requires NetOk(ts, cs, ls, a, b) && t < MAX_PROCS && s < MAX_SOCKS && c !in b
    ensures c !in ForgetB(b, ts[t].socks[s].state)
  {
  }

  lemma InSideA(ts: Tables, cs: Conns, ls: Listeners, a: SideA, b: SideB, t: nat, s: nat, c: nat)
    requires NetOk(ts, cs, ls, a, b) && t < MAX_PROCS && s < MAX_SOCKS && ts[t].socks[s].state == Connected(c, true)
    ensures c in a
  {
    hide RefsOk;
    RefAt(ts, a, b, t, s);
  }

  class Server {
    var tables: Tables
    var conns: Conns
    var listeners: Listeners
    var bound: seq<Option<seq<Byte>>>
    const rings: seq<Ring>
    ghost var sideA: SideA
    ghost var sideB: SideB
    ghost var wires: seq<Wire>

    ghost function Buffers(): set<object>
      requires |rings| == 2 * MAX_CONNS
    {
      set k | 0 <= k < 2 * MAX_CONNS :: rings[k].buf
    }

    ghost predicate RingsApart()
    {
      && |rings| == 2 * MAX_CONNS
      && forall k, j :: 0 <= k < j < 2 * MAX_CONNS ==> rings[k] != rings[j] && rings[k].buf != rings[j].buf
    }

    /** One ring each way: the first of a connection's two holds what side A sent. */
    ghost predicate StreamsOk()
      requires RingsApart()
      reads this`wires, rings, Buffers()
    {
      && |wires| == MAX_CONNS
      && (forall k :: 0 <= k < 2 * MAX_CONNS ==> rings[k].Valid())
      && forall c :: 0 <= c < MAX_CONNS ==>
           wires[c].ab == rings[2 * c].Contents() && wires[c].ba == rings[2 * c + 1].Contents()
    }

    ghost function State(): Net
      reads this
    {
      Net(tables, conns, listeners, bound, wires)
    }

    /** Sockets, connections, queues and their sides are consistent. */
    ghost predicate TablesOk()
      reads this`tables, this`conns, this`listeners, this`sideA, this`sideB, this`bound
    {
      NetOk(tables, conns, listeners, sideA, sideB) && |bound| == MAX_BOUND
    }

    ghost predicate Valid()
      reads this, rings, if |rings| == 2 * MAX_CONNS then Buffers() else {}
    {
      RingsApart() && StreamsOk() && TablesOk()
    }

    /** Position of the process's table, or MAX_PROCS. */
    method FindTable(pid: nat) returns (t: nat)
      ensures t == TableOf(tables, pid, 0)
    {
      t := 0;
      while t < MAX_PROCS && !(tables[t].inUse && tables[t].pid == pid)
        invariant t <= MAX_PROCS && TableOf(tables, pid, t) == TableOf(tables, pid, 0)
      {
        t := t + 1;
      }
    }

    /** First unused slot of table `t`, or MAX_SOCKS. */
    method FreeSock(t: nat) returns (s: nat)
      requires t < MAX_PROCS
      ensures s <= MAX_SOCKS && (s < MAX_SOCKS ==> !tables[t].socks[s].inUse)
              && forall k :: 0 <= k < s ==> tables[t].socks[k].inUse
    {
      s := 0;
      while s < MAX_SOCKS && tables[t].socks[s].inUse
        invariant s <= MAX_SOCKS && forall k :: 0 <= k < s ==> tables[t].socks[k].inUse
      {
        s := s + 1;
      }
    }

    /** The process's table, created if there is room for one; MAX_PROCS otherwise. */
    method GetOrCreate(pid: nat) returns (t: nat)
      requires NetOk(tables, conns, listeners, sideA, sideB)
      modifies this`tables
      ensures t <= MAX_PROCS && NetOk(tables, conns, listeners, sideA, sideB)
      ensures t == TableOf(tables, pid, 0) && (t == MAX_PROCS <==> NoTable(old(tables), pid))
      ensures if TableOf(old(tables), pid, 0) < MAX_PROCS || t == MAX_PROCS then tables == old(tables)
              else
                && !old(tables)[t].inUse && tables == old(tables)[t := Table(pid, true, seq(MAX_SOCKS, _ => NO_SOCK))]
                && forall k :: 0 <= k < t ==> old(tables)[k].inUse
    {
      t := FindTable(pid);
      if t < MAX_PROCS { return; }
      t := 0;
      while t < MAX_PROCS && tables[t].inUse
        invariant t <= MAX_PROCS && forall k :: 0 <= k < t ==> tables[k].inUse
      {
        t := t + 1;
      }
      if t < MAX_PROCS {
        TableCreated(tables, conns, listeners, sideA, sideB, t, pid);
        TableOfFirst(tables, pid, 0);
        TableOfIs(tables[t := Table(pid, true, seq(MAX_SOCKS, _ => NO_SOCK))], pid, 0, t);
        tables := tables[t := Table(pid, true, seq(MAX_SOCKS, _ => NO_SOCK))];
      }
    }

    /** Write one socket entry that refers to no connection. */
    method PutPlain(t: nat, s: nat, e: Sock)
      requires NetOk(tables, conns, listeners, sideA, sideB) && t < MAX_PROCS && s < MAX_SOCKS && AOf(e.state).None?
               && BOf(e.state).None?
      modifies this`tables, this`sideA, this`sideB
      ensures NetOk(tables, conns, listeners, sideA, sideB) && tables == SetSock(old(tables), t, s, e)
    {
      hide NetOk, SetSock;
      SockCleared(tables, conns, listeners, sideA, sideB, t, s, e);
      sideA, sideB := ForgetA(sideA, tables[t].socks[s].state), ForgetB(sideB, tables[t].socks[s].state);
      tables := SetSock(tables, t, s, e);
    }

    /** socket(2): a new unbound socket; every open socket stays. */
    method Socket(pid: nat, domain: nat) returns (r: int)
      requires TablesOk()
      modifies this`tables, this`sideA, this`sideB
      ensures TablesOk()
      ensures SocketStep(old(State()), pid, domain, r, State())
    {
      hide NetOk, SetSock, TableOf, SockOpened, RefsOk, PendOk, ConnsOk, QueuesOk, NoTable, NoSlot;
      if domain != 1 && domain != 2 { return -97; }
      var t := GetOrCreate(pid);
      if t == MAX_PROCS { return -12; }
      var s := FreeSock(t);
      SlotsLeft(old(tables), tables, pid, t, s);
      if s == MAX_SOCKS { return -24; }
      ghost var ts := tables;
      PutPlain(t, s, Sock(Unbound, true, 0, if domain == 1 then Unix else Inet));
      HomeIs(old(tables), ts, pid, t);
      OpenedAt(old(tables), ts, pid, t, s, Sock(Unbound, true, 0, if domain == 1 then Unix else Inet));
      return s + FD_BASE;
    }

    /** Take a free connection slot, with empty rings; MAX_CONNS if there is none. */
    method TakeConn() returns (c: nat)
      requires Valid()
      modifies this`conns, this`wires, rings
      ensures Valid() && c <= MAX_CONNS
      ensures c == MAX_CONNS <==> NoConn(old(conns))
      ensures c == MAX_CONNS ==> conns == old(conns) && wires == old(wires)
      ensures c < MAX_CONNS ==>
                && !old(conns)[c].inUse && conns == old(conns)[c := Conn(true, false, false)] && c !in sideA
                && c !in sideB
                && (forall t, s :: 0 <= t < MAX_PROCS && 0 <= s < MAX_SOCKS ==> !Refers(tables[t].socks[s].state, c))
                && wires == old(wires)[c := Wire([], [])]
    {
      hide NetOk;
      c := 0;
      while c < MAX_CONNS && conns[c].inUse
        invariant c <= MAX_CONNS && forall k :: 0 <= k < c ==> conns[k].inUse
      {
        c := c + 1;
      }
      if c < MAX_CONNS {
        ConnTaken(tables, conns, listeners, sideA, sideB, c);
        FreeIsUnreferenced(tables, conns, listeners, sideA, sideB, c);
        conns := conns[c := Conn(true, false, false)];
        ResetRings(c);
      }
    }

    method ResetRings(c: nat)
      requires RingsApart() && StreamsOk() && c < MAX_CONNS
      modifies this`wires, rings
      ensures StreamsOk() && wires == old(wires)[c := Wire([], [])]
    {
      hide Queue;
      rings[2 * c].Reset();
      rings[2 * c + 1].Reset();
      wires := wires[c := Wire([], [])];
    }

    /** The socket behind a file descriptor of a process, if there is one. */
    method Lookup(pid: nat, fd: nat) returns (ok: bool, t: nat, s: nat)
      ensures SockOf(tables, pid, fd) == if ok then Some(Loc(t, s)) else None
      ensures ok ==>
                && t < MAX_PROCS && s < MAX_SOCKS && tables[t].inUse && tables[t].pid == pid && s + FD_BASE == fd
                && tables[t].socks[s].inUse
    {
      s := SlotOf(fd);
      t := FindTable(pid);
      ok := s < MAX_SOCKS && t < MAX_PROCS && tables[t].socks[s].inUse;
    }

    /** The connection a connected socket refers to is in use. */
    lemma ConnectedInUse(t: nat, s: nat)
      requires NetOk(tables, conns, listeners, sideA, sideB) && t < MAX_PROCS && s < MAX_SOCKS
               && tables[t].socks[s].state.Connected?
      ensures tables[t].socks[s].state.conn < MAX_CONNS && conns[tables[t].socks[s].state.conn].inUse
    {
      hide RefsOk, PendOk, QueuesOk;
      RefAt(tables, sideA, sideB, t, s);
    }

    /** Put bytes into the ring that this side of connection `c` writes, as many as fit. */
    method Push(c: nat, byA: bool, data: seq<Byte>) returns (n: nat)
      requires RingsApart() && StreamsOk() && c < MAX_CONNS
      modifies this`wires, rings[RingOf(c, byA)], rings[RingOf(c, byA)].buf
      ensures StreamsOk() && n <= |data|
      ensures var w := old(wires)[c];
              if byA then
                n == Fitting(|data|, |w.ab|) && wires == old(wires)[c := Wire(w.ab + data[..n], w.ba)]
              else
                n == Fitting(|data|, |w.ba|) && wires == old(wires)[c := Wire(w.ab, w.ba + data[..n])]
    {
      hide Queue;
      ghost var k := RingOf(c, byA);
      n := rings[RingOf(c, byA)].Write(data);
      assert forall j :: 0 <= j < 2 * MAX_CONNS && j != k ==>
                 rings[j].Valid() && rings[j].Contents() == old(rings[j].Contents());
      ghost var w := wires[c];
      wires := wires[c := if byA then Wire(w.ab + data[..n], w.ba) else Wire(w.ab, w.ba + data[..n])];
    }

    /** Take up to `len` bytes out of the ring that this side of connection `c` reads. */
    method Pull(c: nat, byA: bool, len: nat) returns (data: seq<Byte>)
      requires RingsApart() && StreamsOk() && c < MAX_CONNS
      modifies this`wires, rings[RingOf(c, !byA)]
      ensures StreamsOk()
      ensures var w := old(wires)[c];
              if byA then
                && data == w.ba[..Available(len, |w.ba|)]
                && wires == old(wires)[c := Wire(w.ab, w.ba[|data|..])]
              else
                && data == w.ab[..Available(len, |w.ab|)]
                && wires == old(wires)[c := Wire(w.ab[|data|..], w.ba)]
    {
      hide Queue;
      ghost var w := wires[c];
      data := rings[RingOf(c, !byA)].Read(len);
      wires := wires[c := if byA then Wire(w.ab, w.ba[|data|..]) else Wire(w.ab[|data|..], w.ba)];
    }

    /** send(2): append to the stream of this side, as much as fits its ring. -9: no such socket, -32: not connected. */
    method Send(pid: nat, fd: nat, data: seq<Byte>) returns (r: int)
      requires Valid()
      modifies this`wires, rings, Buffers()
      ensures Valid()
      ensures SendStep(old(State()), pid, fd, data, r, State())
    {
      hide NetOk, StreamsOk, TableOf;
      var ok, t, s := Lookup(pid, fd);
      if !ok { return -9; }
      var st := tables[t].socks[s].state;
      if !st.Connected? { return -32; }
      ConnectedInUse(t, s);
      WireCount();
      var n := Push(st.conn, st.isA, data);
      r := n;
    }

    /** recv(2): take from the stream of the other side, oldest bytes first. -9: no connected socket. */
    method Recv(pid: nat, fd: nat, len: nat) returns (r: int, data: seq<Byte>)
      requires Valid()
      modifies this`wires, rings, Buffers()
      ensures Valid()
      ensures RecvStep(old(State()), pid, fd, len, r, data, State())
    {
      hide NetOk, StreamsOk, TableOf;
      data := [];
      var ok, t, s := Lookup(pid, fd);
      if !ok { return -9, data; }
      var st := tables[t].socks[s].state;
      if !st.Connected? { return -9, data; }
      ConnectedInUse(t, s);
      WireCount();
      data := Pull(st.conn, st.isA, len);
      r := |data|;
    }

    lemma WireCount()
      requires RingsApart() && StreamsOk()
      ensures |wires| == MAX_CONNS
    {
    }

    /** shutdown(2): this side is done; the connection slot is free once both are. -9: not a socket descriptor. */
    method Shutdown(pid: nat, fd: nat) returns (r: int)
      requires TablesOk()
      modifies this`tables, this`conns, this`sideA, this`sideB
      ensures TablesOk()
      ensures ShutdownStep(old(State()), pid, fd, r, State())
    {
      hide NetOk, SetSock;
      if SlotOf(fd) == MAX_SOCKS { return -9; }
      var ok, t, s := Lookup(pid, fd);
      if !ok { return 0; }
      var st := tables[t].socks[s].state;
      if st.Connected? {
        SockShut(tables, conns, listeners, sideA, sideB, t, s);
        conns := conns[st.conn := ShutConn(conns[st.conn], st.isA)];
        sideA, sideB := ForgetA(sideA, st), ForgetB(sideB, st);
        tables := SetSock(tables, t, s, NO_SOCK);
      } else {
        PutPlain(t, s, NO_SOCK);
      }
      return 0;
    }

    /** This socket becomes (or waits to become) side A of the fresh connection `c`. */
    method PutSideA(t: nat, s: nat, e: Sock, c: nat)
      requires NetOk(tables, conns, listeners, sideA, sideB) && t < MAX_PROCS && s < MAX_SOCKS
               && AOf(e.state) == Some(c) && c !in sideA && tables[t].inUse
      requires c < MAX_CONNS && conns[c].inUse && !conns[c].closedA
               && (e.state.PendingAccept? ==> c !in sideB && !conns[c].closedB)
      modifies this`tables, this`sideA, this`sideB
      ensures NetOk(tables, conns, listeners, sideA, sideB) && tables == SetSock(old(tables), t, s, e)
      ensures sideB == ForgetB(old(sideB), old(tables)[t].socks[s].state)
    {
      hide NetOk, SetSock;
      SockConnects(tables, conns, listeners, sideA, sideB, t, s, e, c);
      sideA, sideB := ForgetA(sideA, tables[t].socks[s].state)[c := Loc(t, s)],
        ForgetB(sideB, tables[t].socks[s].state);
      tables := SetSock(tables, t, s, e);
    }

    /** The connecting socket, if it exists, waits for connection `c` to be accepted. */
    method Attach(pid: nat, fd: nat, st: SockState, c: nat)
      requires TablesOk() && AOf(st) == Some(c) && c !in sideA
      requires c < MAX_CONNS && conns[c].inUse && !conns[c].closedA
               && (st.PendingAccept? ==> c !in sideB && !conns[c].closedB)
      modifies this`tables, this`sideA, this`sideB
      ensures TablesOk() && tables == WithState(old(tables), SockOf(old(tables), pid, fd), st)
    {
      hide NetOk, SetSock;
      var ok, t, s := Lookup(pid, fd);
      if ok { PutSideA(t, s, tables[t].socks[s].(state := st), c); }
    }

    method Enqueue(l: nat, c: nat)
      requires TablesOk() && l < MAX_LISTENERS && |listeners[l].pending| < BACKLOG
      requires c < MAX_CONNS && conns[c].inUse && !conns[c].closedB && c !in sideB && c !in sideA
      modifies this`listeners, this`sideB
      ensures TablesOk() && sideB == old(sideB)[c := InQueue(l)]
      ensures listeners == old(listeners)[l := old(listeners)[l].(pending := old(listeners)[l].pending + [c])]
    {
      hide NetOk;
      Enqueued(tables, conns, listeners, sideA, sideB, l, c);
      listeners := listeners[l := listeners[l].(pending := listeners[l].pending + [c])];
      sideB := sideB[c := InQueue(l)];
    }

    /** connect(2) to a path: the socket waits until someone accepts. */
    method ConnectPath(pid: nat, fd: nat, path: seq<Byte>) returns (r: int, ghost c: nat)
      requires Valid()
      modifies this`tables, this`conns, this`sideA, this`sideB, this`wires, rings
      ensures Valid()
      ensures r == if SlotOf(fd) == MAX_SOCKS then -9 else if Some(path) !in bound then -111
                   else if NoConn(old(conns)) then -12 else 0
      ensures r == 0 ==> Claimed(old(conns), conns, old(wires), wires, c)
                         && tables == WithState(old(tables), SockOf(old(tables), pid, fd), PendingAccept(c))
      ensures r != 0 ==> tables == old(tables) && conns == old(conns) && wires == old(wires)
    {
      hide NetOk, SetSock, SockOf, NoConn;
      c := 0;
      if SlotOf(fd) == MAX_SOCKS { return -9, c; }
      var i := FindPath(path);
      if i == MAX_BOUND { return -111, c; }
      var k := TakeConn();
      c := k;
      if k == MAX_CONNS { return -12, c; }
      Attach(pid, fd, PendingAccept(k), k);
      return 0, c;
    }

    method FindPath(path: seq<Byte>) returns (i: nat)
      requires |bound| == MAX_BOUND
      ensures i <= MAX_BOUND && (i < MAX_BOUND ==> bound[i] == Some(path)) && (i == MAX_BOUND ==> Some(path) !in bound)
    {
      i := 0;
      while i < MAX_BOUND && bound[i] != Some(path)
        invariant i <= MAX_BOUND && forall j :: 0 <= j < i ==> bound[j] != Some(path)
      {
        i := i + 1;
      }
    }

    /** The first listener on a port, or MAX_LISTENERS. */
    method FindListener(port: nat) returns (l: nat)
      ensures l == ListenerOf(listeners, port, 0)
    {
      l := 0;
      while l < MAX_LISTENERS && !(listeners[l].inUse && listeners[l].port == port)
        invariant l <= MAX_LISTENERS && ListenerOf(listeners, port, l) == ListenerOf(listeners, port, 0)
      {
        l := l + 1;
      }
    }

    /**
      connect(2) to a loopback port: the connection joins the listener's queue. If the queue
      is full, the connection slot that was already claimed stays so, with nobody using it.
     */
    method ConnectPort(pid: nat, fd: nat, port: nat, ip: nat) returns (r: int, ghost c: nat)
      requires Valid()
      modifies this`tables, this`conns, this`listeners, this`sideA, this`sideB, this`wires, rings
      ensures Valid()
      ensures r == ConnectPortAnswer(old(listeners), old(conns), fd, port, ip)
      ensures r == 0 ==>
                var l := ListenerOf(old(listeners), port, 0);
                && Claimed(old(conns), conns, old(wires), wires, c)
                && listeners == old(listeners)[l := old(listeners)[l].(pending := old(listeners)[l].pending + [c])]
                && tables == WithState(old(tables), SockOf(old(tables), pid, fd), InetPendingAccept(c))
      ensures r != 0 ==> tables == old(tables) && listeners == old(listeners)
      ensures r != 0 && BacklogFull(old(listeners), old(conns), fd, port, ip) ==>
                Claimed(old(conns), conns, old(wires), wires, c) && Abandoned(tables, conns, c)
      ensures r != 0 && !BacklogFull(old(listeners), old(conns), fd, port, ip) ==>
                conns == old(conns) && wires == old(wires)
    {
      hide NetOk, SetSock, SockOf, NoConn, Claimed, Abandoned, WithState;
      c := 0;
      if SlotOf(fd) == MAX_SOCKS { return -9, c; }
      if ip != LOOPBACK && ip != 0 { return -111, c; }
      var l := FindListener(port);
      if l == MAX_LISTENERS { return -111, c; }
      r, c := JoinQueue(pid, fd, l);
    }

    /** Claim a connection and put it into the queue of listener `l`, if it has room. */
    method JoinQueue(pid: nat, fd: nat, l: nat) returns (r: int, ghost c: nat)
      requires Valid() && l < MAX_LISTENERS
      modifies this`tables, this`conns, this`listeners, this`sideA, this`sideB, this`wires, rings
      ensures Valid()
      ensures r == if NoConn(old(conns)) then -12 else if |old(listeners)[l].pending| >= BACKLOG then -111 else 0
      ensures if NoConn(old(conns)) then conns == old(conns) && wires == old(wires)
              else Claimed(old(conns), conns, old(wires), wires, c)
      ensures r == 0 ==>
                && listeners == old(listeners)[l := old(listeners)[l].(pending := old(listeners)[l].pending + [c])]
                && tables == WithState(old(tables), SockOf(old(tables), pid, fd), InetPendingAccept(c))
      ensures r != 0 ==> tables == old(tables) && listeners == old(listeners)
      ensures r == -111 ==> Abandoned(tables, conns, c)
    {
      hide NetOk, SetSock, SockOf, NoConn;
      var k := TakeConn();
      c := k;
      if k == MAX_CONNS { return -12, c; }
      if |listeners[l].pending| >= BACKLOG { return -111, c; }
      Enqueue(l, k);
      Attach(pid, fd, InetPendingAccept(k), k);
      return 0, c;
    }

    /** connect(2): the socket waits for the fresh connection `c` to be accepted. */
    method Connect(pid: nat, fd: nat, addr: Address) returns (r: int, ghost c: nat)
      requires Valid()
      modifies this`tables, this`conns, this`listeners, this`sideA, this`sideB, this`wires, rings
      ensures Valid()
      ensures ConnectStep(old(State()), pid, fd, addr, r, c, State())
    {
      hide NetOk, SetSock, SockOf, Claimed, WithState, NoConn, Abandoned;
      c := 0;
      if SlotOf(fd) == MAX_SOCKS { return -9, c; }
      match addr
      case Malformed => return -22, c;
      case InetAddr(port, ip) =>
        r, c := ConnectPort(pid, fd, port, ip);
      case PathAddr(path) =>
        r, c := ConnectPath(pid, fd, path);
    }

    /** bind(2): a port is noted on the socket; a path is registered and the socket listens on it. */
    method Bind(pid: nat, fd: nat, addr: Address) returns (r: int, ghost i: nat)
      requires TablesOk()
      modifies this`tables, this`bound, this`sideA, this`sideB
      ensures TablesOk()
      ensures BindStep(old(State()), pid, fd, addr, r, i, State())
    {
      hide NetOk, SetSock, SockOf;
      i := 0;
      if SlotOf(fd) == MAX_SOCKS { return -9, i; }
      var ok, t, s := Lookup(pid, fd);
      match addr
      case Malformed => return -22, i;
      case InetAddr(port, _) =>
        var l := FindListener(port);
        if l < MAX_LISTENERS { return -98, i; }
        if ok { PutPort(t, s, port); }
        return 0, i;
      case PathAddr(path) =>
        var k := FindPath(path);
        if k < MAX_BOUND { return -98, i; }
        k := FreeBound();
        i := k;
        if k == MAX_BOUND { return -12, i; }
        bound := bound[k := Some(path)];
        if ok { PutPlain(t, s, tables[t].socks[s].(state := Listening(k))); }
        return 0, i;
    }

    method FreeBound() returns (i: nat)
      requires |bound| == MAX_BOUND
      ensures i <= MAX_BOUND && (i < MAX_BOUND ==> bound[i].None?) && (i == MAX_BOUND <==> None !in bound)
    {
      i := 0;
      while i < MAX_BOUND && bound[i].Some?
        invariant i <= MAX_BOUND && forall j :: 0 <= j < i ==> bound[j].Some?
      {
        i := i + 1;
      }
    }

    /** Record a port on a socket; its state is as before. */
    method PutPort(t: nat, s: nat, port: nat)
      requires NetOk(tables, conns, listeners, sideA, sideB) && t < MAX_PROCS && s < MAX_SOCKS
      modifies this`tables
      ensures NetOk(tables, conns, listeners, sideA, sideB)
      ensures tables == SetSock(old(tables), t, s, old(tables)[t].socks[s].(port := port))
    {
      hide NetOk, SetSock;
      SameStates(tables, conns, listeners, sideA, sideB, SetSock(tables, t, s, tables[t].socks[s].(port := port)));
      tables := SetSock(tables, t, s, tables[t].socks[s].(port := port));
    }

    /** listen(2): a port gets a listener entry with an empty queue; a path was registered by bind. */
    method Listen(pid: nat, fd: nat) returns (r: int, ghost l: nat)
      requires TablesOk()
      modifies this`tables, this`listeners, this`sideA, this`sideB
      ensures TablesOk()
      ensures ListenStep(old(State()), pid, fd, r, l, State())
    {
      hide NetOk, SetSock, SockOf;
      l := 0;
      var ok, t, s := Lookup(pid, fd);
      if !ok { return -9, l; }
      if tables[t].socks[s].domain == Unix { return 0, l; }
      var port := tables[t].socks[s].port;
      if port == 0 { return -22, l; }
      PutPlain(t, s, tables[t].socks[s].(state := InetListening));
      var k := 0;
      while k < MAX_LISTENERS && listeners[k].inUse
        invariant k <= MAX_LISTENERS && forall j :: 0 <= j < k ==> listeners[j].inUse
      {
        k := k + 1;
      }
      l := k;
      if k == MAX_LISTENERS { return -12, l; }
      ListenerAdded(tables, conns, listeners, sideA, sideB, k, Listener(true, port, pid, s, []));
      listeners := listeners[k := Listener(true, port, pid, s, [])];
      return 0, l;
    }

    /** The first socket waiting on a path, if there is one. */
    method FindPending() returns (found: bool, c: nat, ghost t: nat, ghost s: nat)
      ensures found ==> FirstPending(tables, t, s) && tables[t].socks[s].state == PendingAccept(c)
      ensures !found ==> forall i, j :: 0 <= i < MAX_PROCS && 0 <= j < MAX_SOCKS && tables[i].inUse ==>
                !tables[i].socks[j].state.PendingAccept?
    {
      found, c, t, s := false, 0, 0, 0;
      for i := 0 to MAX_PROCS
        invariant !found
        invariant forall k, j :: 0 <= k < i && 0 <= j < MAX_SOCKS && tables[k].inUse ==>
                    !tables[k].socks[j].state.PendingAccept?
      {
        if tables[i].inUse {
          for j := 0 to MAX_SOCKS
            invariant !found && forall n :: 0 <= n < j ==> !tables[i].socks[n].state.PendingAccept?
          {
            var st := tables[i].socks[j].state;
            if st.PendingAccept? {
              found, c, t, s := true, st.conn, i, j;
              return;
            }
          }
        }
      }
    }

    /** The connector of `c` goes from waiting to connected: the first match of every table. */
    method Promote(p: SockState, c: nat)
      requires RefsOk(tables, sideA, sideB) && AOf(p) == Some(c)
      modifies this`tables
      ensures Promoted(old(tables), tables, p, c)
    {
      hide RefsOk;
      ghost var ts := tables;
      for t := 0 to MAX_PROCS
        invariant forall i, s :: 0 <= i < MAX_PROCS && 0 <= s < MAX_SOCKS ==>
                    tables[i].socks[s] == if i < t then PromotedSock(ts[i].socks[s], p, c) else ts[i].socks[s]
        invariant forall i :: 0 <= i < MAX_PROCS ==> tables[i].inUse == ts[i].inUse && tables[i].pid == ts[i].pid
      {
        PromoteIn(t, p, c, ts);
      }
    }

    method PromoteIn(t: nat, p: SockState, c: nat, ghost ts: Tables)
      requires RefsOk(ts, sideA, sideB) && AOf(p) == Some(c) && t < MAX_PROCS
      requires forall i, s :: 0 <= i < MAX_PROCS && 0 <= s < MAX_SOCKS ==>
                 tables[i].socks[s] == if i < t then PromotedSock(ts[i].socks[s], p, c) else ts[i].socks[s]
      requires forall i :: 0 <= i < MAX_PROCS ==> tables[i].inUse == ts[i].inUse && tables[i].pid == ts[i].pid
      modifies this`tables
      ensures forall i, s :: 0 <= i < MAX_PROCS && 0 <= s < MAX_SOCKS ==>
                tables[i].socks[s] == if i < t + 1 then PromotedSock(ts[i].socks[s], p, c) else ts[i].socks[s]
      ensures forall i :: 0 <= i < MAX_PROCS ==> tables[i].inUse == ts[i].inUse && tables[i].pid == ts[i].pid
    {
      hide SetSock, RefsOk;
      OnlyOne(ts, sideA, sideB, t, p, c);
      if tables[t].inUse {
        var s := 0;
        while s < MAX_SOCKS && tables[t].socks[s].state != p
          invariant s <= MAX_SOCKS && forall j :: 0 <= j < s ==> tables[t].socks[j].state != p
        {
          s := s + 1;
        }
        if s < MAX_SOCKS {
          tables := SetSock(tables, t, s, tables[t].socks[s].(state := Connected(c, true)));
        }
      }
    }

    /** Give the accepted connection `c` a side B in a new socket, and promote its connector. */
    method AcceptConn(pid: nat, c: nat, waiting: SockState, domain: Domain) returns (r: int, ghost ts: Tables)
      requires TablesOk() && AOf(waiting) == Some(c) && c < MAX_CONNS && conns[c].inUse && !conns[c].closedB
               && c !in sideB
      requires waiting.InetPendingAccept? ==>
                 forall t, s :: 0 <= t < MAX_PROCS && 0 <= s < MAX_SOCKS ==>
                          tables[t].socks[s].state != PendingAccept(c)
      requires (waiting.PendingAccept? || waiting.InetPendingAccept?) && TableOf(tables, pid, 0) < MAX_PROCS
      modifies this`tables, this`sideA, this`sideB
      ensures TablesOk()
      ensures if NoSlot(old(tables), pid) then r == -24 else r >= 0
      ensures r >= 0 ==>
                && SockOpened(old(tables), ts, pid, r, Sock(Connected(c, false), true, 0, domain))
                && Promoted(ts, tables, waiting, c)
                && c in sideB
      ensures r < 0 ==> tables == old(tables)
    {
      hide NetOk, SetSock, RefsOk, PendOk, ConnsOk, QueuesOk, Promoted, SockOpened, TableOf;
      ts := tables;
      var t := FindTable(pid);
      var s := FreeSock(t);
      if s == MAX_SOCKS { return -24, ts; }
      var e := Sock(Connected(c, false), true, 0, domain);
      SockAccepts(tables, conns, listeners, sideA, sideB, t, s, e, c);
      OpenedAt(tables, tables, pid, t, s, e);
      sideA, sideB := ForgetA(sideA, tables[t].socks[s].state),
        ForgetB(sideB, tables[t].socks[s].state)[c := AtSock(Loc(t, s))];
      tables := SetSock(tables, t, s, e);
      ts := tables;
      Promote(waiting, c);
      PromotedOk(ts, conns, listeners, sideA, sideB, tables, waiting, c);
      return s + FD_BASE, ts;
    }

    /**
      accept(2): the next waiting connection `c` gets a new socket as its side B, and the
      socket that connected becomes its side A. -11: nobody is waiting. -24: no descriptor
      is left; the oldest connection of a port is then already out of its queue.
     */
    method Accept(pid: nat, fd: nat) returns (r: int, ghost c: nat, ghost ts: Tables)
      requires TablesOk()
      modifies this`tables, this`listeners, this`sideA, this`sideB
      ensures TablesOk()
      ensures AcceptStep(old(State()), pid, fd, r, c, ts, State())
    {
      hide NetOk, SetSock, SockOf, AcceptedPort, AcceptedPath, TableOf;
      ts, c := tables, 0;
      var ok, t, s := Lookup(pid, fd);
      if !ok { return -9, c, ts; }
      HasTable(tables, pid, fd);
      var st := tables[t].socks[s].state;
      if st.InetListening? {
        r, c, ts := AcceptPort(pid, tables[t].socks[s].port);
      } else if st.Listening? {
        r, c, ts := AcceptPath(pid);
      } else {
        r := -22;
      }
    }

    method AcceptPort(pid: nat, port: nat) returns (r: int, ghost c: nat, ghost ts: Tables)
      requires TablesOk() && TableOf(tables, pid, 0) < MAX_PROCS
      modifies this`tables, this`listeners, this`sideA, this`sideB
      ensures TablesOk() && (r < 0 ==> tables == old(tables))
      ensures AcceptedPort(old(tables), old(listeners), pid, port, r, c, ts, tables, listeners)
    {
      hide NetOk, SetSock, SockOpened, Promoted, TableOf, NoSlot;
      ts, c := tables, 0;
      var l := FindListener(port);
      if l == MAX_LISTENERS { return -11, c, ts; }
      if |listeners[l].pending| == 0 { return -11, c, ts; }
      var k := TakeHead(l);
      c := k;
      r, ts := AcceptConn(pid, k, InetPendingAccept(k), Inet);
    }

    method AcceptPath(pid: nat) returns (r: int, ghost c: nat, ghost ts: Tables)
      requires TablesOk() && TableOf(tables, pid, 0) < MAX_PROCS
      modifies this`tables, this`sideA, this`sideB
      ensures TablesOk() && (r < 0 ==> tables == old(tables))
      ensures AcceptedPath(old(tables), pid, r, c, ts, tables)
    {
      hide NetOk, SetSock, SockOpened, Promoted, TableOf, NoSlot, FirstPending;
      ts, c := tables, 0;
      ghost var i, j;
      var found, k;
      found, k, i, j := FindPending();
      if !found { return -11, c, ts; }
      PendingPlace(tables, i, j);
      WaitsForB(tables, conns, listeners, sideA, sideB, i, j);
      c := k;
      r, ts := AcceptConn(pid, k, PendingAccept(k), Unix);
    }

    /** Take the oldest connection out of a listener's queue. */
    method TakeHead(l: nat) returns (c: nat)
      requires TablesOk() && l < MAX_LISTENERS && |listeners[l].pending| > 0
      modifies this`listeners, this`sideB
      ensures TablesOk() && c == old(listeners)[l].pending[0]
      ensures listeners == old(listeners)[l := old(listeners)[l].(pending := old(listeners)[l].pending[1..])]
      ensures c < MAX_CONNS && conns[c].inUse && !conns[c].closedB && c !in sideB
      ensures forall t, s :: 0 <= t < MAX_PROCS && 0 <= s < MAX_SOCKS ==> tables[t].socks[s].state != PendingAccept(c)
    {
      hide NetOk;
      Dequeued(tables, conns, listeners, sideA, sideB, l);
      c := listeners[l].pending[0];
      listeners := listeners[l := listeners[l].(pending := listeners[l].pending[1..])];
      sideB := sideB - {c};
    }

    /**
      socketpair(2): two new sockets, the two sides of the new connection `c`. If there is no
      room for the sockets, the connection slot stays claimed, with nobody using it.
     */
    method SocketPair(pid: nat, domain: nat) returns (r: int, fdA: nat, fdB: nat, ghost c: nat)
      requires Valid()
      modifies this`tables, this`conns, this`sideA, this`sideB, this`wires, rings
      ensures Valid()
      ensures PairStep(old(State()), pid, domain, r, fdA, fdB, c, State())
    {
      hide NetOk, SetSock, Paired, NoConn, NoTable, NoTwoSlots;
      fdA, fdB, c := 0, 0, 0;
      if domain != 1 { return -97, 0, 0, c; }
      var k := TakeConn();
      c := k;
      if k == MAX_CONNS { return -12, 0, 0, c; }
      r, fdA, fdB := PairUp(pid, k);
    }

    method PairUp(pid: nat, c: nat) returns (r: int, fdA: nat, fdB: nat)
      requires TablesOk() && c < MAX_CONNS && conns[c].inUse && !conns[c].closedA && !conns[c].closedB && c !in sideA
               && c !in sideB
      requires Abandoned(tables, conns, c)
      modifies this`tables, this`sideA, this`sideB
      ensures TablesOk()
      ensures r == if NoTable(old(tables), pid) then -12 else if NoTwoSlots(old(tables), pid) then -24 else 0
      ensures r == 0 ==> Paired(old(tables), tables, pid, fdA, fdB, c)
      ensures r != 0 ==> OpenKept(old(tables), tables)
      ensures r != 0 ==> Abandoned(tables, conns, c)
    {
      hide NetOk, SetSock, TableOf, NoTable, Abandoned, NoTwoSlots, Paired, OpenKept;
      fdA, fdB := 0, 0;
      OpenSame(tables);
      var t := GetOrCreate(pid);
      if t == MAX_PROCS { return -12, 0, 0; }
      ghost var ts, b := tables, sideB;
      StillAbandoned(old(tables), ts, conns, pid, t, c);
      var s := FreeSock(t);
      SlotsLeft(old(tables), ts, pid, t, s);
      if s == MAX_SOCKS {
        FullAlready(old(tables), ts, pid, t);
        return -24, 0, 0;
      }
      NotSideB(ts, conns, listeners, sideA, b, t, s, c);
      PutSideA(t, s, Sock(Connected(c, true), true, 0, Unix), c);
      InSideA(tables, conns, listeners, sideA, sideB, t, s, c);
      var s2 := FreeSock(t);
      SecondSlot(old(tables), ts, tables, pid, t, s, s2, Sock(Connected(c, true), true, 0, Unix));
      if s2 == MAX_SOCKS {
        PutPlain(t, s, NO_SOCK);
        ClearedAgain(ts, tables, conns, t, s, Sock(Connected(c, true), true, 0, Unix), c);
        NothingOpened(old(tables), ts, tables, pid, t, s);
        return -24, 0, 0;
      }
      PairB(t, s, s2, c);
      PairedAt(old(tables), ts, tables, pid, t, s, s2, c);
      return 0, s + FD_BASE, s2 + FD_BASE;
    }

    /** The second socket of a pair. */
    method PairB(t: nat, s: nat, s2: nat, c: nat)
      requires TablesOk() && t < MAX_PROCS && s < MAX_SOCKS && s2 < MAX_SOCKS && s != s2
      requires tables[t].socks[s].state == Connected(c, true) && c < MAX_CONNS && conns[c].inUse && !conns[c].closedB
               && c in sideA && c !in sideB
      modifies this`tables, this`sideA, this`sideB
      ensures TablesOk() && tables == SetSock(old(tables), t, s2, Sock(Connected(c, false), true, 0, Unix))
    {
      hide SetSock, PendOk, ConnsOk, QueuesOk, RefsOk;
      var e := Sock(Connected(c, false), true, 0, Unix);
      SockAccepts(tables, conns, listeners, sideA, sideB, t, s2, e, c);
      RefAt(tables, sideA, sideB, t, s);
      RefAt(tables, sideA, sideB, t, s2);
      NotWaiting(tables, conns, listeners, sideA, sideB, t, s, c);
      ghost var ts := tables;
      sideA, sideB := ForgetA(sideA, tables[t].socks[s2].state),
        ForgetB(sideB, tables[t].socks[s2].state)[c := AtSock(Loc(t, s2))];
      tables := SetSock(tables, t, s2, e);
      PendStrengthen(ts, tables, conns, sideB, c, t, s2);
    }

    /** The server starts with nothing open. */
    constructor ()
      ensures Valid() && sideA == map[] && sideB == map[] && wires == seq(MAX_CONNS, _ => Wire([], []))
    {
      var rs: seq<Ring> := [];
      for i := 0 to 2 * MAX_CONNS
        invariant |rs| == i && fresh(rs)
                  && (forall k :: 0 <= k < i ==> rs[k].Valid() && rs[k].Contents() == [] && fresh(rs[k].buf))
        invariant forall k, j :: 0 <= k < j < i ==> rs[k] != rs[j] && rs[k].buf != rs[j].buf
      {
        var r := new Ring();
        rs := rs + [r];
      }
      rings := rs;
      tables := seq(MAX_PROCS, _ => Table(0, false, seq(MAX_SOCKS, _ => NO_SOCK)));
      conns := seq(MAX_CONNS, _ => Conn(false, false, false));
      listeners := seq(MAX_LISTENERS, _ => Listener(false, 0, 0, 0, []));
      bound := seq(MAX_BOUND, _ => None);
      sideA, sideB := map[], map[];
      wires := seq(MAX_CONNS, _ => Wire([], []));
    }

    /** Handle one request. */
    method Handle(op: Op) returns (out: Out)
      requires Valid()
      modifies this, rings, Buffers()
      ensures Valid()
      ensures Stepped(old(State()), op, out, State())
    {
      hide NetOk, StreamsOk, SocketStep, BindStep, ListenStep, ConnectStep, AcceptStep, PairStep, SendStep, RecvStep,
        ShutdownStep;
      match op
      case OpSocket(pid, domain) =>
        var r := Socket(pid, domain);
        out := Answer(r);
      case OpBind(pid, fd, addr) =>
        var r, _ := Bind(pid, fd, addr);
        out := Answer(r);
      case OpListen(pid, fd) =>
        var r, _ := Listen(pid, fd);
        out := Answer(r);
      case OpConnect(pid, fd, addr) =>
        var r, _ := Connect(pid, fd, addr);
        out := Answer(r);
      case OpAccept(pid, fd) =>
        var r, _, _ := Accept(pid, fd);
        out := Answer(r);
      case OpSocketPair(pid, domain) =>
        var r, fdA, fdB, _ := SocketPair(pid, domain);
        out := Pair(r, fdA, fdB);
      case OpSend(pid, fd, data) =>
        var r := Send(pid, fd, data);
        out := Answer(r);
      case OpRecv(pid, fd, len) =>
        var r, data := Recv(pid, fd, len);
        out := Received(r, data);
      case OpShutdown(pid, fd) =>
        var r := Shutdown(pid, fd);
        out := Answer(r);
    }

    /**
      Every run leaves a transcript of what each request did. After it, at most one socket
      is at each side of a connection, and no slot that may be handed out next is referred
      to.
     */
    method Run(ops: seq<Op>) returns (outs: seq<Out>, ghost snaps: seq<Net>)
      requires Valid()
      modifies this, rings, Buffers()
      ensures Valid()
      ensures NoReuse(tables, conns) && OneSocketPerEnd(tables)
      ensures Trace(snaps, ops, outs) && snaps[0] == old(State()) && snaps[|ops|] == State()
    {
      hide NetOk, StreamsOk, Stepped;
      outs, snaps := [], [State()];
      for i := 0 to |ops|
        invariant Valid()
        invariant Trace(snaps, ops[..i], outs) && snaps[0] == old(State()) && snaps[i] == State()
      {
        var out := Handle(ops[i]);
        outs, snaps := outs + [out], snaps + [State()];
      }
      assert ops[..|ops|] == ops;
      RunResult();
    }

    lemma RunResult()
      requires TablesOk()
      ensures NoReuse(tables, conns) && OneSocketPerEnd(tables)
    {
      hide NetOk;
      forall c, t, s | 0 <= t < MAX_PROCS && 0 <= s < MAX_SOCKS && 0 <= c < MAX_CONNS && !conns[c].inUse
        ensures !Refers(tables[t].socks[s].state, c)
      {
        FreeIsUnreferenced(tables, conns, listeners, sideA, sideB, c);
      }
      forall t, s, t', s' | SameEnd(tables, t, s, t', s')
        ensures t == t' && s == s'
      {
        OneEachSide(tables, conns, listeners, sideA, sideB, tables[t].socks[s].state.conn, t, s, t', s');
      }
    }
  }

  /** At most one socket of a table waits for, or is, side A of a connection. */
  lemma OnlyOne(ts: Tables, a: SideA, b: SideB, t: nat, p: SockState, c: nat)
    requires RefsOk(ts, a, b) && AOf(p) == Some(c) && t < MAX_PROCS
    ensures forall s, s' :: 0 <= s < MAX_SOCKS && 0 <= s' < MAX_SOCKS ==>
              ts[t].socks[s].state == p && ts[t].socks[s'].state == p ==> s == s'
    ensures forall s :: 0 <= s < MAX_SOCKS && ts[t].socks[s].state == p ==> ts[t].inUse
  {
    hide RefsOk;
    forall s | 0 <= s < MAX_SOCKS
      ensures ts[t].socks[s].state == p ==> ts[t].inUse && c in a && a[c] == Loc(t, s)
    {
      RefAt(ts, a, b, t, s);
    }
  }

  /** Whoever waits on a path waits for a live connection without side B. */
  lemma WaitsForB(ts: Tables, cs: Conns, ls: Listeners, a: SideA, b: SideB, t: nat, s: nat)
    requires NetOk(ts, cs, ls, a, b) && t < MAX_PROCS && s < MAX_SOCKS && ts[t].socks[s].state.PendingAccept?
    ensures var c := ts[t].socks[s].state.conn; c < MAX_CONNS && cs[c].inUse && !cs[c].closedB && c !in b
  {
    hide QueuesOk, RefsOk;
    RefAt(ts, a, b, t, s);
    assert WaitOk(ts[t].socks[s].state, cs, b, None);
  }

  /** A connected side A is not waiting elsewhere. */
  lemma NotWaiting(ts: Tables, cs: Conns, ls: Listeners, a: SideA, b: SideB, t: nat, s: nat, c: nat)
    requires NetOk(ts, cs, ls, a, b) && t < MAX_PROCS && s < MAX_SOCKS && ts[t].socks[s].state == Connected(c, true)
    ensures forall t', s' :: 0 <= t' < MAX_PROCS && 0 <= s' < MAX_SOCKS ==> ts[t'].socks[s'].state != PendingAccept(c)
  {
    hide QueuesOk, RefsOk, PendOk, ConnsOk;
    RefAt(ts, a, b, t, s);
    forall t', s' | 0 <= t' < MAX_PROCS && 0 <= s' < MAX_SOCKS
      ensures ts[t'].socks[s'].state != PendingAccept(c)
    {
      RefAt(ts, a, b, t', s');
    }
  }

  lemma PendStrengthen(ts: Tables, ts': Tables, cs: Conns, b: SideB, c: nat, t: nat, s: nat)
    requires PendOk(ts', cs, b, Some(c)) && t < MAX_PROCS && s < MAX_SOCKS
             && ts'[t].socks[s].state == Connected(c, false)
    requires forall t', s' :: 0 <= t' < MAX_PROCS && 0 <= s' < MAX_SOCKS && !(t' == t && s' == s) ==>
               ts'[t'].socks[s'] == ts[t'].socks[s']
    requires forall t', s' :: 0 <= t' < MAX_PROCS && 0 <= s' < MAX_SOCKS ==> ts[t'].socks[s'].state != PendingAccept(c)
    ensures PendOk(ts', cs, b, None)
  {
    forall t', s' | 0 <= t' < MAX_PROCS && 0 <= s' < MAX_SOCKS
      ensures WaitOk(ts'[t'].socks[s'].state, cs, b, None)
    {
      assert WaitOk(ts'[t'].socks[s'].state, cs, b, Some(c));
    }
  }

  /** Tables whose sockets have the same states refer to the same connections. */
  lemma SameStates(ts: Tables, cs: Conns, ls: Listeners, a: SideA, b: SideB, ts': Tables)
    requires NetOk(ts, cs, ls, a, b)
    requires forall t, s :: 0 <= t < MAX_PROCS && 0 <= s < MAX_SOCKS ==> ts'[t].socks[s].state == ts[t].socks[s].state
    requires forall t :: 0 <= t < MAX_PROCS ==> ts'[t].inUse == ts[t].inUse
    ensures NetOk(ts', cs, ls, a, b)
  {
    hide QueuesOk, ConnsOk;
    forall t, s | 0 <= t < MAX_PROCS && 0 <= s < MAX_SOCKS
      ensures RefOk(ts'[t].socks[s].state, ts'[t].inUse, Loc(t, s), a, b) && WaitOk(ts'[t].socks[s].state, cs, b, None)
    {
      assert RefOk(ts[t].socks[s].state, ts[t].inUse, Loc(t, s), a, b) && WaitOk(ts[t].socks[s].state, cs, b, None);
    }
  }

  lemma ListenerAdded(ts: Tables, cs: Conns, ls: Listeners, a: SideA, b: SideB, l: nat, e: Listener)
    requires NetOk(ts, cs, ls, a, b) && l < MAX_LISTENERS && e.pending == []
    ensures NetOk(ts, cs, ls[l := e], a, b)
  {
    hide RefsOk, PendOk, ConnsOk;
  }

  lemma TableCreated(ts: Tables, cs: Conns, ls: Listeners, a: SideA, b: SideB, t: nat, pid: nat)
    requires NetOk(ts, cs, ls, a, b) && t < MAX_PROCS
    ensures NetOk(ts[t := Table(pid, true, seq(MAX_SOCKS, _ => NO_SOCK))], cs, ls, a, b)
  {
    hide QueuesOk, ConnsOk;
    var ts' := ts[t := Table(pid, true, seq(MAX_SOCKS, _ => NO_SOCK))];
    forall t', s | 0 <= t' < MAX_PROCS && 0 <= s < MAX_SOCKS
      ensures RefOk(ts'[t'].socks[s].state, ts'[t'].inUse, Loc(t', s), a, b)
              && WaitOk(ts'[t'].socks[s].state, cs, b, None)
    {
      assert RefOk(ts[t'].socks[s].state, ts[t'].inUse, Loc(t', s), a, b) && WaitOk(ts[t'].socks[s].state, cs, b, None);
    }
  }
}
