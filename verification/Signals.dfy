/**
  Signal delivery and return (sched/src/signal.rs): the frame written to the user
  stack before a handler runs, and its restoration by sigreturn, at any nesting depth.
 */
module Signals {
  import opened Words
  import opened Areas
  import opened UserMemory
  import opened Images
  import opened Tables

  // ---------------------------------------------------------------------- masks

  lemma {:induction false} OrBound(a: nat, b: nat, k: nat)
    requires a < Pow2(k) && b < Pow2(k)
    ensures Or(a, b) < Pow2(k)
  {
    if k > 0 && !(a == 0 && b == 0) { OrBound(a / 2, b / 2, k - 1); }
  }

  /** `n` with bit `i` cleared. */
  function Without(n: nat, i: nat): nat
  {
    if i == 0 then n - n % 2 else 2 * Without(n / 2, i - 1) + n % 2
  }

  lemma {:induction false} WithoutBits(n: nat, i: nat, j: nat)
    ensures Bit(Without(n, i), j) <==> Bit(n, j) && j != i
    ensures Without(n, i) <= n && (Bit(n, i) ==> Without(n, i) < n)
  {
    if i > 0 {
      assert Without(n, i) / 2 == Without(n / 2, i - 1) && Without(n, i) % 2 == n % 2;
      WithoutBits(n / 2, i - 1, if j == 0 then 0 else j - 1);
    }
  }

  // ------------------------------------------------------------------ contexts

  const SIGFRAME_SIZE := 4672
  const SIGMASK_OFFSET := 168
  const UC_OFFSET := 128
  const REGS_OFFSET := 304
  const SIGNALS := 4
  const USER_END := 0x8000_0000_0000

  const SA_NODEFER := 30     // bit numbers of the action flags
  const SA_RESETHAND := 31
  const SA_RESTORER := 26

  datatype SigAction = SigAction(handler: nat, flags: nat, mask: nat, restorer: nat)

  /** What a signal interrupts: registers x0 to x30, stack pointer, program counter, PSTATE and the mask. */
  datatype Context = Context(x: seq<nat>, sp: nat, pc: nat, pstate: nat, mask: nat)

  predicate ContextOk(c: Context)
  {
    && |c.x| == 31 && c.sp < W64 && c.pc < W64 && c.pstate < W64 && c.mask < W64
    && forall i :: 0 <= i < 31 ==> c.x[i] < W64
  }

  /** Registers, SP, PC and PSTATE, in the order the frame stores them. */
  function SavedWords(c: Context): seq<nat>
  {
    c.x + [c.sp, c.pc, c.pstate]
  }

  /** The frame at physical address `p` holds the context. */
  ghost predicate Holds(m: Mem, p: nat, c: Context)
  {
    Load64(m, p + SIGMASK_OFFSET) == c.mask && WordsAt(m, p + REGS_OFFSET, SavedWords(c))
  }

  lemma HoldsSame(m: Mem, m': Mem, p: nat, c: Context)
    requires Holds(m, p, c) && |c.x| == 31 && forall x :: p <= x < p + SIGFRAME_SIZE ==> m'(x) == m(x)
    ensures Holds(m', p, c)
  {
    hide Load64, WordsAt;
    Load64Same(m, m', p + SIGMASK_OFFSET);
    WordsSame(m, m', p + REGS_OFFSET, SavedWords(c));
  }

  /** Everything in the frame at `p` but the signal number, the mask and the saved registers is zero. */
  ghost predicate Blank(m: Mem, p: int)
  {
    forall x :: p + 4 <= x < p + SIGFRAME_SIZE && !(p + 168 <= x < p + 176) && !(p + 304 <= x < p + 576) ==> m(x) == 0
  }

  /** Write the frame: zeroes, the signal number, the mask and the registers. */
  method WriteFrame(m: Mem, p: nat, sig: nat, c: Context) returns (m': Mem)
    requires ContextOk(c) && sig < 0x1_0000_0000
    ensures Holds(m', p, c) && Within(m, m', p, p + SIGFRAME_SIZE)
    ensures FromLe(Load(m', p, 4)) == sig && Blank(m', p)
  {
    hide Load64, WordsAt, FromLe, LeBytes, Pow256;
    m' := Clear(m, p, SIGFRAME_SIZE);
    m' := Store(m', p, LeBytes(sig, 4));
    m' := Store64(m', p + SIGMASK_OFFSET, c.mask);
    Load64Stored(Store(Clear(m, p, SIGFRAME_SIZE), p, LeBytes(sig, 4)), p + SIGMASK_OFFSET, c.mask);
    ZeroStored(m', p + 296);
    m' := Store64(m', p + 296, 0);
    ghost var m1 := m';
    assert Blank(m1, p);
    assert Load64(m1, p + SIGMASK_OFFSET) == c.mask by {
      Load64Same(Store64(Store(Clear(m, p, SIGFRAME_SIZE), p, LeBytes(sig, 4)), p + SIGMASK_OFFSET, c.mask), m1,
                 p + SIGMASK_OFFSET);
    }
    assert Load(m1, p, 4) == LeBytes(sig, 4);
    Untouched(m1, p + REGS_OFFSET);
    m' := PutAll(m1, m', p + REGS_OFFSET, [], 0, SavedWords(c));
    assert [] + SavedWords(c) == SavedWords(c);
    Load64Same(m1, m', p + SIGMASK_OFFSET);
    assert Load(m', p, 4) == LeBytes(sig, 4);
    SigRoundTrip(sig);
  }

  lemma ZeroStored(m: Mem, a: int)
    ensures forall x :: a <= x < a + 8 ==> Store64(m, a, 0)(x) == 0
  {
    LeZeros(8);
    hide LeBytes;
  }

  lemma {:induction false} LeZeros(n: nat)
    ensures |LeBytes(0, n)| == n && forall i :: 0 <= i < n ==> LeBytes(0, n)[i] == 0
  {
    if n > 0 { LeZeros(n - 1); }
  }

  lemma SigRoundTrip(sig: nat)
    requires sig < 0x1_0000_0000
    ensures FromLe(LeBytes(sig, 4)) == sig
  {
    assert Pow256(4) == 0x1_0000_0000;
    LeRoundTrip(sig, 4);
  }

  /** Read the frame back. */
  method ReadFrame(m: Mem, p: nat, ghost c: Context) returns (r: Context)
    requires Holds(m, p, c) && |c.x| == 31
    ensures r == c
  {
    hide Load64, WordsAt;
    var x: seq<nat> := [];
    for i := 0 to 31
      invariant |x| == i && x == c.x[..i]
    {
      WordAt(m, p + REGS_OFFSET, SavedWords(c), i);
      x := x + [Load64(m, p + REGS_OFFSET + 8 * i)];
    }
    WordAt(m, p + REGS_OFFSET, SavedWords(c), 31);
    WordAt(m, p + REGS_OFFSET, SavedWords(c), 32);
    WordAt(m, p + REGS_OFFSET, SavedWords(c), 33);
    r := Context(x, Load64(m, p + 552), Load64(m, p + 560), Load64(m, p + 568), Load64(m, p + SIGMASK_OFFSET));
  }

  // ----------------------------------------------------------- frames in place

  /** A delivered signal: what it interrupted, and the handler's entry stack pointer. */
  datatype Saved = Saved(ctx: Context, entry: nat)

  /** Where the stack space of depth `k` ends: the entry point of the handler below, or the stack's end. */
  function Ceiling(hi: nat, frames: seq<Saved>, k: nat): nat
    requires k <= |frames|
  {
    if k == 0 then hi else frames[k - 1].entry
  }

  /** One frame, on a stack block at `phys` for user addresses from `lo`, below `top`. */
  ghost predicate FrameOk(m: Mem, phys: nat, lo: nat, top: nat, f: Saved)
  {
    && ContextOk(f.ctx) && lo <= f.entry && f.entry % 16 == 0
    && f.entry + SIGFRAME_SIZE <= f.ctx.sp <= top
    && Holds(m, phys + (f.entry - lo), f.ctx)
  }

  ghost predicate FramesOk(m: Mem, phys: nat, lo: nat, hi: nat, frames: seq<Saved>)
  {
    forall k {:trigger FrameAt(m, phys, lo, hi, frames, k)} :: 0 <= k < |frames| ==> FrameAt(m, phys, lo, hi, frames, k)
  }

  /** The frame of depth `k` is in place, below the handler it interrupted. */
  ghost predicate FrameAt(m: Mem, phys: nat, lo: nat, hi: nat, frames: seq<Saved>, k: nat)
    requires k < |frames|
  {
    FrameOk(m, phys, lo, Ceiling(hi, frames, k), frames[k])
  }

  /** Frames of different depths never overlap: the deeper one ends where the other begins, or below. */
  lemma {:induction false} FramesApart(m: Mem, phys: nat, lo: nat, hi: nat, frames: seq<Saved>, i: nat, j: nat)
    requires FramesOk(m, phys, lo, hi, frames) && i < j < |frames|
    ensures frames[j].entry + SIGFRAME_SIZE <= frames[i].entry
  {
    hide Holds, ContextOk;
    assert FrameAt(m, phys, lo, hi, frames, j);
    if i < j - 1 { FramesApart(m, phys, lo, hi, frames, i, j - 1); }
  }

  /** All frames lie at or above the ceiling of the next one. */
  lemma {:induction false} FramesAbove(m: Mem, phys: nat, lo: nat, hi: nat, frames: seq<Saved>, k: nat)
    requires FramesOk(m, phys, lo, hi, frames) && k < |frames|
    ensures lo <= Ceiling(hi, frames, |frames|) <= frames[k].entry && frames[k].entry + SIGFRAME_SIZE <= hi
    decreases |frames| - k
  {
    hide Holds, ContextOk;
    var n := |frames|;
    if k < n - 1 { FramesApart(m, phys, lo, hi, frames, k, n - 1); }
    assert FrameAt(m, phys, lo, hi, frames, n - 1);
    BelowHi(m, phys, lo, hi, frames, k);
  }

  lemma {:induction false} BelowHi(m: Mem, phys: nat, lo: nat, hi: nat, frames: seq<Saved>, k: nat)
    requires FramesOk(m, phys, lo, hi, frames) && k < |frames|
    ensures frames[k].entry + SIGFRAME_SIZE <= hi
  {
    hide Holds, ContextOk;
    assert FrameAt(m, phys, lo, hi, frames, k);
    if k > 0 { BelowHi(m, phys, lo, hi, frames, k - 1); }
  }

  lemma CeilingBelow(m: Mem, phys: nat, lo: nat, hi: nat, frames: seq<Saved>)
    requires FramesOk(m, phys, lo, hi, frames)
    ensures Ceiling(hi, frames, |frames|) <= hi
  {
    hide FramesOk;
    if |frames| > 0 { BelowHi(m, phys, lo, hi, frames, |frames| - 1); }
  }

  /** Bytes at and above the ceiling unchanged: every frame stays. */
  lemma FramesKept(m: Mem, m': Mem, phys: nat, lo: nat, hi: nat, frames: seq<Saved>)
    requires FramesOk(m, phys, lo, hi, frames) && lo <= Ceiling(hi, frames, |frames|)
    requires var top := Ceiling(hi, frames, |frames|);
             forall x :: phys + (top - lo) <= x < phys + (hi - lo) ==> m'(x) == m(x)
    ensures FramesOk(m', phys, lo, hi, frames)
  {
    hide Holds, ContextOk;
    forall k | 0 <= k < |frames|
      ensures FrameAt(m', phys, lo, hi, frames, k)
    {
      assert FrameAt(m, phys, lo, hi, frames, k);
      FramesAbove(m, phys, lo, hi, frames, k);
      assert |frames[k].ctx.x| == 31 by { ContextLength(frames[k].ctx); }
      HoldsSame(m, m', phys + (frames[k].entry - lo), frames[k].ctx);
    }
  }

  lemma ContextLength(c: Context)
    requires ContextOk(c)
    ensures |c.x| == 31 && c.sp < W64
  {
  }

  lemma FramePushed(m: Mem, phys: nat, lo: nat, hi: nat, frames: seq<Saved>, f: Saved)
    requires FramesOk(m, phys, lo, hi, frames) && FrameOk(m, phys, lo, Ceiling(hi, frames, |frames|), f)
    ensures FramesOk(m, phys, lo, hi, frames + [f])
  {
    hide FrameOk;
    var fs := frames + [f];
    forall k | 0 <= k < |fs|
      ensures FrameAt(m, phys, lo, hi, fs, k)
    {
      assert k < |frames| ==> fs[k] == frames[k] && FrameAt(m, phys, lo, hi, frames, k);
      assert Ceiling(hi, fs, k) == Ceiling(hi, frames, k);
    }
  }

  lemma FramePopped(m: Mem, phys: nat, lo: nat, hi: nat, frames: seq<Saved>)
    requires FramesOk(m, phys, lo, hi, frames) && |frames| > 0
    ensures FramesOk(m, phys, lo, hi, frames[..|frames| - 1])
  {
    hide FrameOk;
    var fs := frames[..|frames| - 1];
    forall k | 0 <= k < |fs|
      ensures FrameAt(m, phys, lo, hi, fs, k)
    {
      assert FrameAt(m, phys, lo, hi, frames, k) && Ceiling(hi, fs, k) == Ceiling(hi, frames, k);
    }
  }

  /** The stack pointer a handler gets. */
  function EntrySp(sp: nat): nat
    requires sp >= SIGFRAME_SIZE
  {
    16 * ((sp - SIGFRAME_SIZE) / 16)
  }

  /** The aligned frame fits on a stack that starts at `lo`. */
  predicate Room(sp: nat, lo: nat)
  {
    sp >= SIGFRAME_SIZE && EntrySp(sp) != 0 && lo <= EntrySp(sp)
  }

  /** A frame that would start below the stack would start at an unmapped address. */
  predicate GuardedAt(rs: Slots, lo: nat, sp: nat)
  {
    sp >= SIGFRAME_SIZE && EntrySp(sp) < lo ==> VirtToPhys(rs, EntrySp(sp)) == None
  }

  /** The registers a handler starts with. */
  function HandlerContext(c: Context, sig: nat, handler: nat, restorer: nat, entry: nat): Context
    requires |c.x| == 31
  {
    c.(x := c.x[0 := sig][1 := entry][2 := entry + UC_OFFSET][30 := restorer], sp := entry, pc := handler)
  }

  lemma HandlerOk(c: Context, sig: nat, handler: nat, restorer: nat, entry: nat)
    requires ContextOk(c) && sig < W64 && handler < W64 && restorer < W64 && entry + UC_OFFSET < W64
    ensures ContextOk(HandlerContext(c, sig, handler, restorer, entry))
    ensures HandlerContext(c, sig, handler, restorer, entry).sp == entry
  {
  }

  /**
    What a handler finds when it is entered with the registers `c`, by the AArch64 signal
    calling convention of Linux: the signal number in x0, the address of a siginfo with
    the signal number in x1 and the address of a ucontext in x2, whose `uc_sigmask` and
    `uc_mcontext` hold the interrupted mask and registers and whose other fields are zero.
    The stack pointer is the highest aligned one below all this; x3 to x29 and PSTATE are
    as they were.
   */
  ghost predicate HandlerSees(u: Mem, c: Context, was: Context, sig: nat)
  {
    && |c.x| == |was.x| == 31
    && c.x[0] == sig && FromLe(Load(u, c.x[1], 4)) == sig && UcontextHolds(u, c.x[2], was)
    && c.x[1] == c.sp && c.x[2] == c.sp + 128 && Blank(u, c.sp)
    && c.sp % 16 == 0 && c.sp + SIGFRAME_SIZE <= was.sp
    && (forall q: nat :: q % 16 == 0 && q + SIGFRAME_SIZE <= was.sp ==> q <= c.sp)
    && (forall k :: 3 <= k < 30 ==> c.x[k] == was.x[k]) && c.pstate == was.pstate
  }

  /** The mask and the registers, in the ucontext at `uc`. */
  ghost predicate UcontextHolds(u: Mem, uc: int, was: Context)
    requires |was.x| == 31
  {
    && Load64(u, uc + 40) == was.mask
    && (forall k :: 0 <= k < 31 ==> Load64(u, uc + 176 + 8 * k) == was.x[k])
    && Load64(u, uc + 424) == was.sp && Load64(u, uc + 432) == was.pc && Load64(u, uc + 440) == was.pstate
  }

  lemma WordSeen(u: Mem, m: Mem, p: nat, a: nat, was: Context, k: nat)
    requires |was.x| == 31 && Holds(m, p, was) && Shows(u, a, m, p, SIGFRAME_SIZE) && k < 34
    ensures Load64(u, a + UC_OFFSET + 176 + 8 * k) == SavedWords(was)[k]
  {
    hide FromLe, Shows;
    ShownLoad(u, a, m, p, SIGFRAME_SIZE, REGS_OFFSET + 8 * k, 8);
    assert Load64(m, p + REGS_OFFSET + 8 * k) == SavedWords(was)[k];
  }

  lemma UcontextSeen(u: Mem, m: Mem, p: nat, a: nat, was: Context)
    requires |was.x| == 31 && Holds(m, p, was) && Shows(u, a, m, p, SIGFRAME_SIZE)
    ensures UcontextHolds(u, a + UC_OFFSET, was)
  {
    assert Load64(u, a + UC_OFFSET + 40) == was.mask by { ShownLoad(u, a, m, p, SIGFRAME_SIZE, SIGMASK_OFFSET, 8); }
    hide Load64, Shows, Holds;
    forall k | 0 <= k < 31
      ensures Load64(u, a + UC_OFFSET + 176 + 8 * k) == was.x[k]
    {
      WordSeen(u, m, p, a, was, k);
    }
    WordSeen(u, m, p, a, was, 31);
    WordSeen(u, m, p, a, was, 32);
    WordSeen(u, m, p, a, was, 33);
  }

  /** The frame in memory at `p`, seen from the handler's side. */
  lemma FrameSeen(u: Mem, m: Mem, p: nat, c: Context, was: Context, sig: nat)
    requires ContextOk(was) && |c.x| == 31 && Holds(m, p, was) && FromLe(Load(m, p, 4)) == sig && Blank(m, p)
    requires Shows(u, c.sp, m, p, SIGFRAME_SIZE) && was.sp >= SIGFRAME_SIZE && c.sp == EntrySp(was.sp)
    requires c.x[0] == sig && c.x[1] == c.sp && c.x[2] == c.sp + UC_OFFSET && c.pstate == was.pstate
    requires forall k :: 3 <= k < 30 ==> c.x[k] == was.x[k]
    ensures HandlerSees(u, c, was, sig)
  {
    hide Blank, Load, FromLe, Shows, Holds, UcontextHolds;
    ShownLoad(u, c.sp, m, p, SIGFRAME_SIZE, 0, 4);
    ShownBlank(u, c.sp, m, p);
    UcontextSeen(u, m, p, c.sp, was);
  }

  lemma HandlerStarts(u: Mem, m: Mem, p: nat, was: Context, mask: nat, sig: nat, handler: nat, restorer: nat,
                      entry: nat)
    requires ContextOk(was) && mask < W64 && Holds(m, p, was.(mask := mask)) && FromLe(Load(m, p, 4)) == sig
    requires Blank(m, p) && was.sp >= SIGFRAME_SIZE && entry == EntrySp(was.sp)
    requires Shows(u, entry, m, p, SIGFRAME_SIZE)
    ensures var c := HandlerContext(was, sig, handler, restorer, entry);
            && HandlerSees(u, c, was.(mask := mask), sig)
            && c.pc == handler && c.x[30] == restorer && c.mask == was.mask
  {
    hide Blank, Load, FromLe, Shows, Holds, HandlerSees;
    FrameSeen(u, m, p, HandlerContext(was, sig, handler, restorer, entry), was.(mask := mask), sig);
  }

  /** User addresses inside an eager area show its block. */
  lemma StackSeen(rs: Slots, i: nat, m: Mem, a: nat, n: nat)
    requires Disjoint(rs) && i < MAX_AREAS && rs[i].Some? && !rs[i].value.lazy
    requires 4096 * rs[i].value.first <= a && a + n <= 4096 * rs[i].value.past
    ensures Shows(UserView(m, rs), a, m, rs[i].value.phys + (a - 4096 * rs[i].value.first), n)
  {
    hide Disjoint, VirtToPhys;
    var lo, pb := 4096 * rs[i].value.first, rs[i].value.phys + (a - 4096 * rs[i].value.first);
    forall x | a <= x < a + n
      ensures UserView(m, rs)(x) == m(x - a + pb)
    {
      EagerByte(rs, i, x - lo);
    }
  }

  lemma ShownBlank(u: Mem, a: nat, m: Mem, p: nat)
    requires Shows(u, a, m, p, SIGFRAME_SIZE) && Blank(m, p)
    ensures Blank(u, a)
  {
    forall x | a + 4 <= x < a + SIGFRAME_SIZE && !(a + 168 <= x < a + 176) && !(a + 304 <= x < a + 576)
      ensures u(x) == 0
    {
      assert u(x) == m(x - a + p);
    }
  }

  lemma EntryFacts(sp: nat)
    requires sp >= SIGFRAME_SIZE
    ensures EntrySp(sp) % 16 == 0 && EntrySp(sp) + SIGFRAME_SIZE <= sp
  {
  }

  /** Where a handler returns to; 0 if the action names no restorer. */
  function Restorer(a: SigAction): nat
  {
    if Bit(a.flags, SA_RESTORER) then a.restorer else 0
  }

  /** The mask while the handler of signal `i` runs: widened by the signal and its action's mask, unless SA_NODEFER. */
  ghost predicate MaskedFor(mask: nat, mask': nat, a: SigAction, i: nat)
  {
    forall j :: Bit(mask', j) <==> Bit(mask, j) || (!Bit(a.flags, SA_NODEFER) && (j == i || Bit(a.mask, j)))
  }

  datatype Outcome = Nothing | Delivered(sig: nat) | Exited(code: nat)

  // ------------------------------------------------------------ which signal

  /** What delivery looks at, and changes, before it touches the stack. */
  datatype Scan = Scan(pending: nat, mask: nat, actions: seq<SigAction>)

  predicate Eligible(s: Scan, i: nat)
  {
    Bit(s.pending, i) && !Bit(s.mask, i)
  }

  /** Signal `i` is no longer pending, and masked as its action says; SA_RESETHAND disarms the action. */
  function Accepted(s: Scan, i: nat): (t: Scan)
    requires i < |s.actions|
    ensures |t.actions| == |s.actions|
  {
    var a := s.actions[i];
    Scan(Without(s.pending, i),
         if Bit(a.flags, SA_NODEFER) then s.mask else Or(s.mask, Or(Pow2(i), a.mask)),
         if Bit(a.flags, SA_RESETHAND) then s.actions[i := a.(handler := 0)] else s.actions)
  }

  /** One pass upwards: the state after accepting every eligible signal below `i`. */
  function ScanTo(s: Scan, i: nat): (t: Scan)
    requires i <= |s.actions|
    ensures |t.actions| == |s.actions|
  {
    if i == 0 then s
    else
      var t := ScanTo(s, i - 1);
      if Eligible(t, i - 1) then Accepted(t, i - 1) else t
  }

  /** The first signal at or above `i` that the pass does not merely drop as ignored. */
  function TakenFrom(s: Scan, i: nat): (j: nat)
    requires i <= |s.actions| == SIGNALS
    ensures i <= j <= SIGNALS
    ensures j < SIGNALS ==> Eligible(ScanTo(s, j), j) && s.actions[j].handler != 1
    ensures forall k :: i <= k < j && Eligible(ScanTo(s, k), k) ==> s.actions[k].handler == 1
    decreases SIGNALS - i
  {
    if i == SIGNALS then SIGNALS
    else if Eligible(ScanTo(s, i), i) && s.actions[i].handler != 1 then i
    else TakenFrom(s, i + 1)
  }

  function Taken(s: Scan): (i: nat)
    requires |s.actions| == SIGNALS
    ensures i <= SIGNALS
  {
    TakenFrom(s, 0)
  }

  lemma AcceptedBits(s: Scan, i: nat)
    requires i < |s.actions|
    ensures forall j :: Bit(Accepted(s, i).pending, j) <==> Bit(s.pending, j) && j != i
    ensures MaskedFor(s.mask, Accepted(s, i).mask, s.actions[i], i)
  {
    hide Bit, Without, Or, Pow2;
    var a := s.actions[i];
    forall j
      ensures Bit(Without(s.pending, i), j) <==> Bit(s.pending, j) && j != i
    {
      WithoutBits(s.pending, i, j);
    }
    forall j
      ensures Bit(Or(s.mask, Or(Pow2(i), a.mask)), j) <==> Bit(s.mask, j) || j == i || Bit(a.mask, j)
    {
      OrBits(s.mask, Or(Pow2(i), a.mask), j);
      OrBits(Pow2(i), a.mask, j);
      PowerBit(i, j);
    }
  }

  /** The pass changes the pending bits and actions of signals below `n` only, and never clears a mask bit. */
  lemma {:induction false} ScanKeeps(s: Scan, i: nat, n: nat)
    requires i <= n <= |s.actions|
    ensures forall j :: Bit(ScanTo(s, i).mask, j) ==> Bit(ScanTo(s, n).mask, j)
    ensures forall j :: Bit(ScanTo(s, n).pending, j) ==> Bit(ScanTo(s, i).pending, j)
    ensures forall j :: j >= n ==> (Bit(ScanTo(s, n).pending, j) <==> Bit(s.pending, j))
    ensures forall j :: n <= j < |s.actions| ==> ScanTo(s, n).actions[j] == s.actions[j]
    decreases n
  {
    hide Bit;
    if n > 0 {
      var t := ScanTo(s, n - 1);
      if i < n { ScanKeeps(s, i, n - 1); } else { ScanKeeps(s, n - 1, n - 1); }
      if Eligible(t, n - 1) { AcceptedBits(t, n - 1); }
    }
  }

  /** Nothing below `n` is left eligible by the pass. */
  lemma ScanDone(s: Scan, n: nat, k: nat)
    requires k < n <= |s.actions|
    ensures !Eligible(ScanTo(s, n), k)
  {
    hide Bit;
    ScanKeeps(s, k + 1, n);
    if Eligible(ScanTo(s, k), k) { AcceptedBits(ScanTo(s, k), k); }
  }

  /** Signals that are not eligible are passed over. */
  lemma {:induction false} ScanSkips(s: Scan, n: nat, i: nat)
    requires n <= i <= |s.actions| && forall k :: n <= k < i ==> !Eligible(ScanTo(s, n), k)
    ensures ScanTo(s, i) == ScanTo(s, n)
    decreases i
  {
    hide Bit, Eligible;
    if n < i { ScanSkips(s, n, i - 1); }
  }

  /**
    The mask that sigreturn goes back to is the mask from before the signals arrived
    exactly when every ignored signal dropped on the way had SA_NODEFER.
   */
  lemma MaskKept(s: Scan, n: nat)
    requires n <= |s.actions|
    ensures ScanTo(s, n).mask == s.mask
            <==> forall k :: 0 <= k < n && Eligible(s, k) ==> Bit(s.actions[k].flags, SA_NODEFER)
  {
    hide Bit;
    if forall k :: 0 <= k < n && Eligible(s, k) ==> Bit(s.actions[k].flags, SA_NODEFER) {
      NoDeferKeeps(s, n);
    } else {
      var k :| 0 <= k < n && Eligible(s, k) && !Bit(s.actions[k].flags, SA_NODEFER);
      ScanKeeps(s, 0, k);
      ScanKeeps(s, k, n);
      ScanKeeps(s, k + 1, n);
      if Eligible(ScanTo(s, k), k) {
        AcceptedBits(ScanTo(s, k), k);
      }
      assert Bit(ScanTo(s, n).mask, k) && !Bit(s.mask, k);
    }
  }

  lemma {:induction false} NoDeferKeeps(s: Scan, n: nat)
    requires n <= |s.actions| && forall k :: 0 <= k < n && Eligible(s, k) ==> Bit(s.actions[k].flags, SA_NODEFER)
    ensures ScanTo(s, n).mask == s.mask
  {
    hide Bit;
    if n > 0 {
      NoDeferKeeps(s, n - 1);
      ScanKeeps(s, 0, n - 1);
    }
  }

  /** Exactly which bits the dropped signals add: their own and those of their actions' masks. */
  lemma {:induction false} MaskGains(s: Scan, n: nat, j: nat)
    requires n <= |s.actions|
    ensures Bit(ScanTo(s, n).mask, j)
            <==> Bit(s.mask, j) || exists k :: 0 <= k < n && Eligible(ScanTo(s, k), k) && Adds(s.actions[k], k, j)
  {
    hide Bit, Eligible;
    if n > 0 {
      MaskGains(s, n - 1, j);
      ScanKeeps(s, 0, n - 1);
      AcceptedBits(ScanTo(s, n - 1), n - 1);
    }
  }

  predicate Adds(a: SigAction, i: nat, j: nat)
  {
    !Bit(a.flags, SA_NODEFER) && (j == i || Bit(a.mask, j))
  }

  /** Signal 1 is ignored and signal 2 handled: the handler's return leaves signal 1 masked. */
  lemma IgnoredWidens(handler: nat)
    requires handler > 1
    ensures var quiet, loud := SigAction(1, 0, 0, 0), SigAction(handler, 0, 0, 0);
            var s := Scan(3, 0, [quiet, loud, quiet, quiet]);
            Taken(s) == 1 && ScanTo(s, 1).mask == 1 != s.mask
  {
    var quiet, loud := SigAction(1, 0, 0, 0), SigAction(handler, 0, 0, 0);
    var s := Scan(3, 0, [quiet, loud, quiet, quiet]);
    ZeroBits(SA_NODEFER);
    ZeroBits(SA_RESETHAND);
    assert Eligible(s, 0) by { assert Bit(3, 0) && !Bit(0, 0); }
    assert Or(Pow2(0), 0) == 1 && Or(0, 1) == 1;
    assert ScanTo(s, 0) == s;
    assert ScanTo(s, 1) == Accepted(s, 0);
    assert Accepted(s, 0).mask == 1;
    assert Accepted(s, 0).pending == 2;
    assert Eligible(ScanTo(s, 1), 1) by { assert Bit(2, 1) && !Bit(1, 1); }
  }

  // -------------------------------------------------------------- the process

  /** A process with an eagerly mapped stack, and the handlers it is in. */
  class Process {
    const rs: Slots
    const stack: nat
    var mem: Mem
    var cur: Context
    var pending: nat
    var actions: seq<SigAction>
    ghost var frames: seq<Saved>

    ghost predicate StackOk()
    {
      && stack < MAX_AREAS && rs[stack].Some? && !rs[stack].value.lazy && Disjoint(rs)
      && rs[stack].value.first < rs[stack].value.past && 4096 * rs[stack].value.past < USER_END
    }

    function Lo(): nat
      requires StackOk()
    {
      4096 * rs[stack].value.first
    }

    function Hi(): nat
      requires StackOk()
    {
      4096 * rs[stack].value.past
    }

    function Base(): nat
      requires StackOk()
    {
      rs[stack].value.phys
    }

    function Now(): Scan
      reads this
    {
      Scan(pending, cur.mask, actions)
    }

    /** The bytes from here up belong to whoever was interrupted. */
    ghost function Top(): nat
      requires StackOk()
      reads this
    {
      Ceiling(Hi(), frames, |frames|)
    }

    ghost predicate Valid()
      reads this
    {
      && StackOk() && ContextOk(cur) && cur.sp <= Top() && Lo() <= Top()
      && |actions| == SIGNALS
      && (forall i :: 0 <= i < SIGNALS ==>
            actions[i].handler < W64 && actions[i].restorer < W64 && actions[i].mask < W64)
      && FramesOk(mem, Base(), Lo(), Hi(), frames)
    }

    /** Below the mapped stack there is nothing a frame could be written to by mistake. */
    predicate Guarded()
      requires StackOk()
      reads this
    {
      GuardedAt(rs, Lo(), cur.sp)
    }

    /** Save the interrupted context on the user stack and enter the handler. */
    method Prepare(sig: nat, handler: nat, restorer: nat, oldMask: nat) returns (ok: bool)
      requires Valid() && Guarded() && sig < 0x1_0000_0000 && handler < W64 && restorer < W64 && oldMask < W64
      modifies this`mem, this`cur, this`frames
      ensures Valid()
      ensures ok <==> Room(old(cur).sp, Lo())
      ensures ok ==>
                var entry := EntrySp(old(cur).sp);
                && frames == old(frames) + [Saved(old(cur).(mask := oldMask), entry)]
                && cur == HandlerContext(old(cur), sig, handler, restorer, entry)
                && Within(old(mem), mem, Base() + (entry - Lo()), Base() + (entry - Lo()) + SIGFRAME_SIZE)
      ensures ok ==>
                && HandlerSees(UserView(mem, rs), cur, old(cur).(mask := oldMask), sig)
                && cur.pc == handler && cur.x[30] == restorer && cur.mask == old(cur).mask
      ensures !ok ==> mem == old(mem) && cur == old(cur) && frames == old(frames)
    {
      hide FramesOk, Holds, Disjoint, VirtToPhys, Within, EntrySp, HandlerContext, HandlerSees, Blank, FromLe, Load,
        UserView;
      CeilingBelow(mem, Base(), Lo(), Hi(), frames);
      if cur.sp < SIGFRAME_SIZE { return false; }
      var entry := EntrySp(cur.sp);
      EntryFacts(cur.sp);
      if entry == 0 || entry >= USER_END { return false; }
      var phys := VirtToPhys(rs, entry);
      if Lo() <= entry { EagerByte(rs, stack, entry - Lo()); }
      if phys.None? { return false; }
      ghost var m0 := mem;
      var saved := cur.(mask := oldMask);
      mem := WriteFrame(mem, phys.value, sig, saved);
      FrameWritten(m0, mem, Base(), Lo(), Hi(), frames, Saved(saved, entry));
      frames := frames + [Saved(saved, entry)];
      HandlerOk(cur, sig, handler, restorer, entry);
      StackSeen(rs, stack, mem, entry, SIGFRAME_SIZE);
      cur := HandlerContext(cur, sig, handler, restorer, entry);
      HandlerStarts(UserView(mem, rs), mem, phys.value, old(cur), oldMask, sig, handler, restorer, entry);
      return true;
    }

    /** Undo the innermost delivery: the context comes back as it was saved. */
    method Restore()
      requires Valid() && |frames| > 0 && cur.sp == frames[|frames| - 1].entry
      modifies this`cur, this`frames
      ensures Valid()
      ensures cur == old(frames)[|old(frames)| - 1].ctx
      ensures frames == old(frames)[..|old(frames)| - 1]
    {
      hide Holds, Disjoint, VirtToPhys, FramesOk;
      ghost var n := |frames| - 1;
      TopFrame(mem, Base(), Lo(), Hi(), frames);
      EagerByte(rs, stack, cur.sp - Lo());
      FramePopped(mem, Base(), Lo(), Hi(), frames);
      var phys := VirtToPhys(rs, cur.sp).value;
      cur := ReadFrame(mem, phys, frames[n].ctx);
      frames := frames[..n];
    }

    /** The lowest pending signal that is not masked, or SIGNALS. */
    method NextSignal() returns (i: nat)
      requires pending < 16
      ensures i <= SIGNALS && (i < SIGNALS ==> Bit(pending, i) && !Bit(cur.mask, i))
      ensures forall j :: 0 <= j < i ==> !(Bit(pending, j) && !Bit(cur.mask, j))
    {
      i := 0;
      while i < SIGNALS && !(Bit(pending, i) && !Bit(cur.mask, i))
        invariant i <= SIGNALS && forall j :: 0 <= j < i ==> !(Bit(pending, j) && !Bit(cur.mask, j))
      {
        i := i + 1;
      }
    }

    /** Take signal `i` off the pending set, and mask it as its action says. */
    method Accept(i: nat) returns (action: SigAction)
      requires Valid() && i < SIGNALS && pending < 16 && Bit(pending, i)
      modifies this`cur, this`pending, this`actions
      ensures Valid() && action == old(actions)[i] && pending < old(pending) < 16
      ensures cur == old(cur).(mask := cur.mask) && Now() == Accepted(old(Now()), i)
    {
      hide FramesOk, Bit, Without, Or, Pow2;
      action := actions[i];
      WithoutBits(pending, i, 0);
      pending := Without(pending, i);
      if !Bit(action.flags, SA_NODEFER) {
        MaskBound(cur.mask, i, action.mask);
        cur := cur.(mask := Or(cur.mask, Or(Pow2(i), action.mask)));
      }
      if Bit(action.flags, SA_RESETHAND) {
        actions := actions[i := action.(handler := 0)];
      }
    }

    /**
      Deliver the first pending, unmasked signal that has a handler. Ignored ones before it
      are dropped, and widen the mask that the handler's return will go back to; a default
      action ends the process, and so does a stack without room for the frame.
     */
    method Deliver() returns (out: Outcome)
      requires Valid() && Guarded() && pending < 16
      modifies this`mem, this`cur, this`pending, this`actions, this`frames
      ensures Valid() && pending < 16
      ensures var s := old(Now()); var i := Taken(s); var t := ScanTo(s, i);
              if i == SIGNALS then
                out == Nothing && Now() == t && cur == old(cur).(mask := t.mask) && mem == old(mem)
                  && frames == old(frames)
              else
                && Now() == Accepted(t, i)
                && if old(actions)[i].handler == 0 || !Room(old(cur).sp, Lo()) then
                     && out == Exited(if old(actions)[i].handler == 0 then 129 + i else 139)
                     && cur == old(cur).(mask := cur.mask) && mem == old(mem) && frames == old(frames)
                   else
                     var entry := EntrySp(old(cur).sp);
                     && out == Delivered(i + 1)
                     && frames == old(frames) + [Saved(old(cur).(mask := t.mask), entry)]
                     && cur == HandlerContext(old(cur).(mask := cur.mask), i + 1, old(actions)[i].handler,
                                              Restorer(old(actions)[i]), entry)
                     && Within(old(mem), mem, Base() + (entry - Lo()), Base() + (entry - Lo()) + SIGFRAME_SIZE)
                     && HandlerSees(UserView(mem, rs), cur, old(cur).(mask := t.mask), i + 1)
                     && cur.pc == old(actions)[i].handler
                     && cur.x[30] == if Bit(old(actions)[i].flags, 26) then old(actions)[i].restorer else 0
    {
      hide FramesOk, Bit, Within, Accepted, HandlerSees, UserView, VirtToPhys;
      ghost var s := Now();
      ghost var n: nat := 0;
      while true
        invariant Valid() && Guarded() && pending < 16 && n <= SIGNALS
        invariant cur == old(cur).(mask := cur.mask) && mem == old(mem) && frames == old(frames)
        invariant Now() == ScanTo(s, n) && Taken(s) == TakenFrom(s, n)
        decreases pending
      {
        var i := NextSignal();
        NextIsScanned(s, n, i);
        var sampled := cur.mask;
        if i == SIGNALS { return Nothing; }
        var action := Accept(i);
        n := i + 1;
        if action.handler == 0 { return Exited(128 + i + 1); }
        if action.handler != 1 {
          var ok := Prepare(i + 1, action.handler, Restorer(action), sampled);
          return if ok then Delivered(i + 1) else Exited(128 + 11);
        }
      }
    }

    /** What user code may do inside a handler: anything, except to bytes at or above its entry stack pointer. */
    ghost predicate MayAct(m: Mem, c: Context)
      requires StackOk()
      reads this
    {
      && ContextOk(c) && c.sp <= Top() && Lo() <= Top()
      && forall x :: Base() + (Top() - Lo()) <= x < Base() + (Hi() - Lo()) ==> m(x) == mem(x)
    }

    method Act(m: Mem, c: Context)
      requires Valid() && MayAct(m, c)
      modifies this`mem, this`cur
      ensures Valid() && mem == m && cur == c
    {
      hide FramesOk;
      FramesKept(mem, m, Base(), Lo(), Hi(), frames);
      mem, cur := m, c;
    }
  }

  lemma TopFrame(m: Mem, phys: nat, lo: nat, hi: nat, frames: seq<Saved>)
    requires FramesOk(m, phys, lo, hi, frames) && |frames| > 0
    ensures var n := |frames| - 1; var f := frames[n];
            && ContextOk(f.ctx) && lo <= f.entry && f.entry + SIGFRAME_SIZE <= f.ctx.sp <= Ceiling(hi, frames, n) <= hi
            && Holds(m, phys + (f.entry - lo), f.ctx)
  {
    hide Holds, ContextOk;
    var n := |frames| - 1;
    assert FrameAt(m, phys, lo, hi, frames, n);
    if n > 0 { BelowHi(m, phys, lo, hi, frames, n - 1); }
  }

  lemma Pow2At8()
    ensures Pow2(8) == 256
  {
    assert Pow2(4) == 16;
  }

  lemma MaskBound(a: nat, i: nat, b: nat)
    requires a < W64 && b < W64 && i < SIGNALS
    ensures Or(a, Or(Pow2(i), b)) < W64
  {
    hide Or, Pow2;
    Pow2At8();
    Pow2Add(8, 8);
    Pow2Add(16, 16);
    Pow2Add(32, 32);
    Pow2Mono(i, 8);
    OrBound(Pow2(i), b, 64);
    OrBound(a, Or(Pow2(i), b), 64);
  }

  /** The lowest eligible signal is the next one the pass accepts. */
  lemma NextIsScanned(s: Scan, n: nat, i: nat)
    requires n <= SIGNALS && i <= SIGNALS == |s.actions| && (i < SIGNALS ==> Eligible(ScanTo(s, n), i))
    requires forall j :: 0 <= j < i ==> !Eligible(ScanTo(s, n), j)
    ensures n <= i && ScanTo(s, i) == ScanTo(s, n)
    ensures TakenFrom(s, n) == TakenFrom(s, i)
    ensures i < SIGNALS ==>
              && ScanTo(s, n).actions[i] == s.actions[i]
              && ScanTo(s, i + 1) == Accepted(ScanTo(s, i), i)
              && TakenFrom(s, i) == if s.actions[i].handler == 1 then TakenFrom(s, i + 1) else i
  {
    hide Bit, Accepted;
    if i < n { ScanDone(s, n, i); }
    ScanSkips(s, n, i);
    ScanKeeps(s, n, n);
    TakenSkips(s, n, i);
  }

  lemma {:induction false} TakenSkips(s: Scan, n: nat, i: nat)
    requires n <= i <= SIGNALS == |s.actions| && forall k :: n <= k < i ==> !Eligible(ScanTo(s, n), k)
    ensures TakenFrom(s, n) == TakenFrom(s, i)
    decreases i - n
  {
    hide Eligible;
    if n < i {
      ScanSkips(s, n, n + 1);
      TakenSkips(s, n + 1, i);
    }
  }

  /** The new frame is in place, and the older ones are untouched. */
  lemma FrameWritten(m: Mem, m': Mem, phys: nat, lo: nat, hi: nat, frames: seq<Saved>, f: Saved)
    requires FramesOk(m, phys, lo, hi, frames) && lo <= f.entry && f.entry % 16 == 0 && ContextOk(f.ctx)
    requires f.entry + SIGFRAME_SIZE <= f.ctx.sp <= Ceiling(hi, frames, |frames|)
    requires Holds(m', phys + (f.entry - lo), f.ctx)
    requires Within(m, m', phys + (f.entry - lo), phys + (f.entry - lo) + SIGFRAME_SIZE)
    ensures FramesOk(m', phys, lo, hi, frames + [f])
  {
    hide FramesOk, Holds;
    FramesKept(m, m', phys, lo, hi, frames);
    FramePushed(m', phys, lo, hi, frames, f);
  }

  // -------------------------------------------------------------------- nesting

  /**
    What happens while some code runs: it acts, or signals are raised and a handler
    runs (itself a script), returning with the registers `ret`.
   */
  datatype Script =
    | Done
    | Act(m: Mem, c: Context, next: Script)
    | Interrupt(raised: nat, body: Script, ret: Context, next: Script)

  /** Bytes of the stack at and above user address `a` are the same. */
  ghost predicate SameAbove(p: Process, m: Mem, m': Mem, a: nat)
    requires p.StackOk()
  {
    forall x :: p.Base() + (a - p.Lo()) <= x < p.Base() + (p.Hi() - p.Lo()) ==> m'(x) == m(x)
  }

  /** Memory `m` where user code may write, the present memory in [lo, hi). */
  function Merged(mem: Mem, m: Mem, lo: int, hi: int): (r: Mem)
    ensures forall x :: r(x) == if lo <= x < hi then mem(x) else m(x)
  {
    x => if lo <= x < hi then mem(x) else m(x)
  }

  /** The state of a process without its memory and its frames. */
  datatype Core = Core(cur: Context, pending: nat, actions: seq<SigAction>)

  predicate Shaped(c: Core)
  {
    |c.cur.x| == 31 && |c.actions| == SIGNALS
  }

  /** What the arrival of signals does: nothing but bookkeeping, the end, or a handler. */
  datatype Arrival = Passes(core: Core) | Dies | Enters(saved: Context, entry: nat, core: Core)

  function Arrive(rs: Slots, lo: nat, raised: nat, c: Core): (r: Arrival)
    requires Shaped(c)
    ensures r.Passes? || r.Enters? ==> Shaped(r.core)
    ensures r.Passes? ==> r.core.cur == c.cur.(mask := r.core.cur.mask)
    ensures r.Enters? ==> r.saved == c.cur.(mask := r.saved.mask)
  {
    if !GuardedAt(rs, lo, c.cur.sp) then Passes(c)
    else
      var s := Scan(Or(c.pending, raised % 16), c.cur.mask, c.actions);
      var i := Taken(s);
      var t := ScanTo(s, i);
      if i == SIGNALS then Passes(Core(c.cur.(mask := t.mask), t.pending, t.actions))
      else if s.actions[i].handler == 0 || !Room(c.cur.sp, lo) then Dies
      else
        var u, entry := Accepted(t, i), EntrySp(c.cur.sp);
        Enters(c.cur.(mask := t.mask), entry,
               Core(HandlerContext(c.cur.(mask := u.mask), i + 1, s.actions[i].handler, Restorer(s.actions[i]), entry),
                    u.pending, u.actions))
  }

  /**
    The same process on a machine that keeps interrupted contexts where no program can
    reach them: sigreturn simply gives back what was saved. None means it was ended.
   */
  function After(rs: Slots, lo: nat, s: Script, top: nat, c: Core): (r: Option<Core>)
    requires Shaped(c)
    ensures r.Some? ==> Shaped(r.value)
    decreases s
  {
    match s
    case Done => Some(c)
    case Act(_, k, next) => After(rs, lo, next, top, c.(cur := if ContextOk(k) && k.sp <= top then k else c.cur))
    case Interrupt(raised, body, _, next) =>
      match Arrive(rs, lo, raised, c)
      case Passes(d) => After(rs, lo, next, top, d)
      case Dies => None
      case Enters(saved, entry, d) =>
        match After(rs, lo, body, entry, d)
        case None => None
        case Some(e) => After(rs, lo, next, top, Core(saved, e.pending, e.actions))
  }

  ghost function CoreOf(p: Process): Core
    reads p
  {
    Core(p.cur, p.pending, p.actions)
  }

  /**
    Run a script below the stack pointer `top` its code was entered with. Its actions are
    arbitrary except that bytes from `top` up stay and the stack pointer does not rise
    above it. However deep the handlers nest, the process ends up exactly as on a machine
    that protects the saved contexts, and is ended exactly when it would be there; the
    interrupted code's stack and all frames are as before.
   */
  method RunScript(p: Process, s: Script, top: nat) returns (exited: bool)
    requires p.Valid() && top == p.Top() && p.pending < 16
    modifies p`mem, p`cur, p`pending, p`actions, p`frames
    ensures p.Valid() && p.pending < 16
    ensures var r := After(p.rs, p.Lo(), s, top, old(CoreOf(p)));
            && (exited <==> r.None?)
            && (!exited ==> CoreOf(p) == r.value)
    ensures !exited ==> p.frames == old(p.frames) && SameAbove(p, old(p.mem), p.mem, top)
    decreases s, 1
  {
    hide FramesOk, Bit, Within, Or, GuardedAt, Room, Taken, ScanTo, Arrive;
    ContextLength(p.cur);
    match s
    case Done => return false;
    case Act(m, c, next) =>
      var m' := Merged(p.mem, m, p.Base() + (top - p.Lo()), p.Base() + (p.Hi() - p.Lo()));
      p.Act(m', if ContextOk(c) && c.sp <= top then c else p.cur);
      exited := RunScript(p, next, top);
    case Interrupt(raised, body, ret, next) =>
      exited := RunInterrupt(p, raised, body, ret, top);
      if !exited { exited := RunScript(p, next, top); }
  }

  /**
    Signals arrive, and if one has a handler it runs and returns at its entry stack
    pointer. Then registers, stack pointer, program counter and PSTATE are back as they
    were, the stack from the interrupted stack pointer up is untouched, and so is the
    mask, exactly if the ignored signals dropped before it all had SA_NODEFER.
   */
  method RunInterrupt(p: Process, raised: nat, body: Script, ret: Context, top: nat) returns (exited: bool)
    requires p.Valid() && top == p.Top() && p.pending < 16
    modifies p`mem, p`cur, p`pending, p`actions, p`frames
    ensures p.Valid() && p.pending < 16
    ensures match Arrive(p.rs, p.Lo(), raised, old(CoreOf(p)))
            case Passes(d) => !exited && CoreOf(p) == d
            case Dies => exited
            case Enters(saved, entry, d) =>
              var r := After(p.rs, p.Lo(), body, entry, d);
              && (exited <==> r.None?)
              && (!exited ==> CoreOf(p) == Core(saved, r.value.pending, r.value.actions))
    ensures !exited ==>
              && p.frames == old(p.frames) && SameAbove(p, old(p.mem), p.mem, old(p.cur).sp)
              && p.cur == old(p.cur).(mask := p.cur.mask)
    ensures !exited && old(p.Guarded()) ==>
              var s := old(Scan(Or(p.pending, raised % 16), p.cur.mask, p.actions));
              p.cur.mask == old(p.cur.mask)
              <==> forall k :: 0 <= k < Taken(s) && Eligible(s, k) ==> Bit(s.actions[k].flags, SA_NODEFER)
    decreases body, 3
  {
    hide FramesOk, Bit, Within, Or, Room, ScanTo, Accepted, Taken, GuardedAt, VirtToPhys, Restorer, Disjoint, Eligible,
      After, HandlerSees, UserView;
    ContextLength(p.cur);
    if !p.Guarded() { return false; }
    p.pending := Or(p.pending, raised % 16);
    PendingBound(old(p.pending), raised % 16);
    ghost var m0, sp0, s := p.mem, p.cur.sp, p.Now();
    MaskKept(s, Taken(s));
    var out := p.Deliver();
    if out.Nothing? { return false; }
    if out.Exited? { return true; }
    ghost var entry, m1 := p.cur.sp, p.mem;
    ContextLength(p.cur);
    exited := RunHandler(p, body, ret);
    if !exited { HandlerBelow(p, m0, m1, p.mem, entry, sp0); }
  }

  /** A handler just entered runs its script and returns at its entry stack pointer. */
  method RunHandler(p: Process, body: Script, ret: Context) returns (exited: bool)
    requires p.Valid() && p.pending < 16 && Shaped(CoreOf(p))
    requires |p.frames| > 0 && p.cur.sp == p.frames[|p.frames| - 1].entry
    modifies p`mem, p`cur, p`pending, p`actions, p`frames
    ensures p.Valid() && p.pending < 16
    ensures var n := |old(p.frames)| - 1; var r := After(p.rs, p.Lo(), body, old(p.cur).sp, old(CoreOf(p)));
            && (exited <==> r.None?)
            && (!exited ==>
                  && CoreOf(p) == Core(old(p.frames)[n].ctx, r.value.pending, r.value.actions)
                  && p.frames == old(p.frames)[..n] && SameAbove(p, old(p.mem), p.mem, old(p.cur).sp))
    decreases body, 2
  {
    hide FramesOk, After, Disjoint;
    var entry := p.cur.sp;
    exited := RunScript(p, body, entry);
    if exited { return; }
    ContextLength(p.cur);
    SpReplaced(ret, entry);
    SpReplaced(p.cur, entry);
    p.cur := if ContextOk(ret) then ret.(sp := entry) else p.cur.(sp := entry);
    p.Restore();
  }

  lemma SpReplaced(c: Context, sp: nat)
    requires sp < W64
    ensures ContextOk(c) ==> ContextOk(c.(sp := sp))
  {
  }

  /** The frame and everything its handler wrote lie below the interrupted stack pointer. */
  lemma HandlerBelow(p: Process, m0: Mem, m1: Mem, m2: Mem, entry: nat, sp: nat)
    requires p.StackOk() && entry + SIGFRAME_SIZE <= sp
    requires Within(m0, m1, p.Base() + (entry - p.Lo()), p.Base() + (entry - p.Lo()) + SIGFRAME_SIZE)
    requires SameAbove(p, m1, m2, entry)
    ensures SameAbove(p, m0, m2, sp)
  {
  }

  lemma PendingBound(a: nat, b: nat)
    requires a < 16 && b < 16
    ensures Or(a, b) < 16
  {
    hide Or;
    assert Pow2(4) == 16;
    OrBound(a, b, 4);
  }
}
