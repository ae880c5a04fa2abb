/**
  The stack part of execve (kernel/src/syscall.rs): map the stack of the new process,
  build the frame through physical memory, and read it back as the process will.
 */
module Exec {
  import opened Words
  import opened Buddy
  import opened Paging
  import opened Areas
  import opened Space
  import opened Steps
  import opened Rights
  import opened Vmm
  import opened Costs
  import opened Runs
  import opened UserMemory
  import opened Images
  import opened Elf
  import opened Tables
  import opened ExecStack

  const STACK_FLAGS := PageFlags(true, true, true, false, false)

  const STACK_PAGE := 0x7fff_ffff_f - 8
  const STACK_PAGES := 8

  lemma StackRange()
    ensures 4096 * STACK_PAGE == STACK_TOP - STACK_SIZE && (STACK_TOP - STACK_SIZE) / 4096 == STACK_PAGE
    ensures (STACK_SIZE + 4095) / 4096 == STACK_PAGES && STACK_PAGE + STACK_PAGES <= USER_PAGES
    ensures 4096 * (STACK_PAGE + STACK_PAGES) == STACK_TOP
  {
  }

  /** The stack area shows its block, byte by byte. */
  lemma StackShows(m: Mem, own: Owners, id: nat, nodes: Nodes, rs: Slots, i: nat, sp: nat)
    requires SpaceOk(m, own, id, nodes, rs) && i < MAX_AREAS && rs[i].Some? && !rs[i].value.lazy
    requires rs[i].value.first == STACK_PAGE && rs[i].value.past == STACK_PAGE + STACK_PAGES
    requires STACK_TOP - STACK_SIZE <= sp <= STACK_TOP
    ensures VirtToPhys(rs, sp).Some? || sp == STACK_TOP
    ensures Shows(UserView(m, rs), sp, m, rs[i].value.phys + (sp - (STACK_TOP - STACK_SIZE)), STACK_TOP - sp)
    ensures sp < STACK_TOP ==> VirtToPhys(rs, sp) == Some(rs[i].value.phys + (sp - (STACK_TOP - STACK_SIZE)))
  {
    hide SpaceOk, VirtToPhys, Disjoint;
    StackRange();
    EagerBlock(m, own, id, nodes, rs, i);
    var pb := rs[i].value.phys + (sp - (STACK_TOP - STACK_SIZE));
    forall x | sp <= x < sp + (STACK_TOP - sp)
      ensures UserView(m, rs)(x) == m(x - sp + pb)
    {
      EagerByte(rs, i, x - (STACK_TOP - STACK_SIZE));
    }
    if sp < STACK_TOP { EagerByte(rs, i, sp - (STACK_TOP - STACK_SIZE)); }
  }

  /** Writing inside the block of an eager area is data of this space only. */
  lemma BlockWritten(m: Mem, own: Owners, id: nat, nodes: Nodes, rs: Slots, i: nat, m': Mem, lo: nat, hi: nat)
    requires SpaceOk(m, own, id, nodes, rs) && i < MAX_AREAS && rs[i].Some? && !rs[i].value.lazy
    requires Within(m, m', lo, hi) && rs[i].value.phys <= lo && hi <= rs[i].value.phys + 4096 * NPages(rs[i].value)
    ensures SpaceOk(m', own, id, nodes, rs) && DataWritten(id, own, m, m')
    ensures SameLeavesBut(m, nodes, m', nodes, -1) && ROOT in nodes && UpperHalfSame(nodes[ROOT], m, m')
  {
    hide SpaceOk, Leaf;
    EagerBlock(m, own, id, nodes, rs, i);
    assert Undisturbed(id, own, m, own, m');
    SpaceUndisturbed(id, own, m, own, m', nodes, rs);
  }

  /** Reads elsewhere are not affected by writes to the stack block. */
  lemma ReadsKept(m: Mem, own: Owners, id: nat, nodes: Nodes, rs: Slots, i: nat, m': Mem, lo: nat, hi: nat, a: nat)
    requires SpaceOk(m, own, id, nodes, rs) && i < MAX_AREAS && rs[i].Some? && !rs[i].value.lazy
    requires Within(m, m', lo, hi) && rs[i].value.phys <= lo && hi <= rs[i].value.phys + 4096 * NPages(rs[i].value)
    requires !Covers(rs[i].value, a / 4096)
    ensures UserByte(m', rs, a) == UserByte(m, rs, a)
  {
    hide SpaceOk, PageOf, FindFrom, Disjoint;
    EagerBlock(m, own, id, nodes, rs, i);
    UserByteAt(m, rs, a);
    UserByteAt(m', rs, a);
    if PageOf(rs, a / 4096).Some? {
      PageTag(m, own, id, nodes, rs, a / 4096, PageOf(rs, a / 4096).value + a % 4096);
      if FindFrom(rs, a / 4096, 0) == i { assert false; }
    }
  }

  /**
    The stack with the frame in place. The stack pointer is the highest aligned address
    with `size` bytes above it, of which `used` are written and less than sixteen are
    padding. All the stack below, and what is left above, is zero and free to use.
   */
  ghost predicate StackLeft(m: Mem, rs: Slots, sp: nat, size: nat, used: nat)
  {
    && Topmost(sp, size) && used <= size < used + 16
    && sp - (STACK_TOP - STACK_SIZE) >= STACK_SIZE - size - 15
    && (forall a: nat {:trigger UserByte(m, rs, a)} ::
          STACK_TOP - STACK_SIZE <= a < STACK_TOP && !(sp <= a < sp + used) ==> UserByte(m, rs, a) == Some(0))
  }

  /** What the new process finds: its frame on a mapped stack, everything else untouched. */
  ghost predicate StackReady(m: Mem, rs: Slots, m': Mem, rs': Slots, sp: nat, size: nat, used: nat, argv: seq<Str>,
                             envp: seq<Str>, seed: seq<Byte>, port: nat)
  {
    && STACK_TOP - STACK_SIZE <= sp < STACK_TOP
    && Frame(UserView(m', rs'), sp, argv, envp, seed, port)
    && StackLeft(m', rs', sp, size, used)
    && (forall a: nat {:trigger UserByte(m', rs', a)} :: !(STACK_TOP - STACK_SIZE <= a < STACK_TOP) ==>
        UserByte(m', rs', a) == UserByte(m, rs, a))
    && (forall a: nat {:trigger UserByte(m', rs', a)} :: STACK_TOP - STACK_SIZE <= a < STACK_TOP ==>
        UserByte(m', rs', a).Some?)
    && (forall a: nat {:trigger UserByte(m, rs, a)} :: STACK_TOP - STACK_SIZE <= a < STACK_TOP ==>
        UserByte(m, rs, a) == None)
  }

  lemma StackBuilt(m: Mem, own: Owners, id: nat, nodes: Nodes, rs: Slots, m1: Mem, own1: Owners, nodes1: Nodes,
                   rs1: Slots, root: nat, m2: Mem, sp: nat, pb: nat, n: nat)
    requires SpaceOk(m, own, id, nodes, rs) && SpaceOk(m1, own1, id, nodes1, rs1) && ROOT in nodes && ROOT in nodes1
             && nodes[ROOT] == nodes1[ROOT] == root
    requires Additive(id, own, m, own1, m1) && UpperHalfSame(root, m, m1) && WriteXorExecute(m, nodes, rs)
    requires EagerAdded(m, nodes, rs, m1, nodes1, rs1, STACK_PAGE, STACK_PAGES, STACK_FLAGS)
             && Vacant(rs, STACK_PAGE, STACK_PAGE + STACK_PAGES)
    requires STACK_TOP - STACK_SIZE <= sp && sp + n <= STACK_TOP && n > 0
    requires VirtToPhys(rs1, sp) == Some(pb) && Within(m1, m2, pb, pb + n)
    ensures SpaceOk(m2, own1, id, nodes1, rs1) && Kept(id, root, own, m, own1, m2, nodes1, rs1)
    ensures Shows(UserView(m2, rs1), sp, m2, pb, STACK_TOP - sp)
    ensures forall a: nat {:trigger UserByte(m2, rs1, a)} :: !(STACK_TOP - STACK_SIZE <= a < STACK_TOP) ==>
              UserByte(m2, rs1, a) == UserByte(m, rs, a)
    ensures forall a: nat {:trigger UserByte(m2, rs1, a)} :: STACK_TOP - STACK_SIZE <= a < STACK_TOP ==>
              UserByte(m2, rs1, a).Some? && (!(sp <= a < sp + n) ==> UserByte(m2, rs1, a) == Some(0))
    ensures OpenTo(m2, root, STACK_PAGE, STACK_PAGES, Access(true, true, false)) && WalksKept(m, root, m2)
    ensures forall a: nat {:trigger UserByte(m, rs, a)} :: STACK_TOP - STACK_SIZE <= a < STACK_TOP ==>
              UserByte(m, rs, a) == None
  {
    hide SpaceOk, Additive, UserByte, UpperHalfSame, WriteXorExecute, Isolated, EagerAdded, FreeSlot, Kept, DataWritten,
      SameLeavesBut, Within, Shows, VirtToPhys, Disjoint, SafeLeaves, Vacant, OpenTo, WalksKept;
    StackRange();
    var i := FreeSlot(rs);
    StackArea(m, nodes, rs, m1, nodes1, rs1);
    StackZero(m, nodes, rs, m1, nodes1, rs1);
    StackShows(m1, own1, id, nodes1, rs1, i, sp);
    BlockWritten(m1, own1, id, nodes1, rs1, i, m2, pb, pb + n);
    MapSafe(m, own, id, nodes, rs, m1, own1, nodes1, rs1, STACK_PAGE, STACK_PAGES, STACK_FLAGS);
    StoredKept(m, own, id, m1, own1, nodes1, rs1, root, m2);
    StackShows(m2, own1, id, nodes1, rs1, i, sp);
    EagerBlock(m2, own1, id, nodes1, rs1, i);
    forall a: nat | !(STACK_TOP - STACK_SIZE <= a < STACK_TOP)
      ensures UserByte(m2, rs1, a) == UserByte(m, rs, a)
    {
      NotInArea(STACK_PAGE, STACK_PAGES, a);
      ReadsKept(m1, own1, id, nodes1, rs1, i, m2, pb, pb + n, a);
      AddedByte(m, own, id, nodes, rs, m1, own1, rs1, i, a);
    }
    forall a: nat | STACK_TOP - STACK_SIZE <= a < STACK_TOP
      ensures UserByte(m2, rs1, a).Some? && (!(sp <= a < sp + n) ==> UserByte(m2, rs1, a) == Some(0))
    {
      StackByte(m1, rs1, i, m2, pb, n, sp, a);
    }
    StackOpens(m, own, id, nodes, rs, m1, own1, nodes1, rs1, m2);
    forall a: nat | STACK_TOP - STACK_SIZE <= a < STACK_TOP
      ensures UserByte(m, rs, a) == None
    {
      FreshUnread(m, rs, STACK_PAGE, STACK_PAGES, a);
    }
  }

  /** A byte of the stack is mapped, and zero unless it was written. */
  lemma StackByte(m1: Mem, rs: Slots, i: nat, m2: Mem, pb: nat, n: nat, sp: nat, a: nat)
    requires Disjoint(rs) && i < MAX_AREAS && rs[i].Some? && !rs[i].value.lazy
    requires rs[i].value.first == STACK_PAGE && rs[i].value.past == STACK_PAGE + STACK_PAGES
    requires STACK_TOP - STACK_SIZE <= a < STACK_TOP && pb == rs[i].value.phys + (sp - (STACK_TOP - STACK_SIZE))
    requires forall x :: rs[i].value.phys <= x < rs[i].value.phys + STACK_SIZE ==> m1(x) == 0
    requires Within(m1, m2, pb, pb + n)
    ensures UserByte(m2, rs, a).Some? && (!(sp <= a < sp + n) ==> UserByte(m2, rs, a) == Some(0))
  {
    hide Disjoint, VirtToPhys;
    StackRange();
    EagerByte(rs, i, a - (STACK_TOP - STACK_SIZE));
  }

  lemma StackZero(m: Mem, nodes: Nodes, rs: Slots, m1: Mem, nodes1: Nodes, rs1: Slots)
    requires EagerAdded(m, nodes, rs, m1, nodes1, rs1, STACK_PAGE, STACK_PAGES, STACK_FLAGS)
    ensures var phys := rs1[FreeSlot(rs)].value.phys;
            forall x :: phys <= x < phys + STACK_SIZE ==> m1(x) == 0
  {
    hide LeavesMapped;
    StackRange();
  }

  /** The stack is readable and writable data, and every other page is as before. */
  lemma StackOpens(m: Mem, own: Owners, id: nat, nodes: Nodes, rs: Slots, m1: Mem, own1: Owners, nodes1: Nodes,
                   rs1: Slots, m2: Mem)
    requires SpaceOk(m, own, id, nodes, rs) && SpaceOk(m1, own1, id, nodes1, rs1) && SpaceOk(m2, own1, id, nodes1, rs1)
    requires EagerAdded(m, nodes, rs, m1, nodes1, rs1, STACK_PAGE, STACK_PAGES, STACK_FLAGS)
    requires Vacant(rs, STACK_PAGE, STACK_PAGE + STACK_PAGES) && nodes1[ROOT] == nodes[ROOT]
    requires SameLeavesBut(m1, nodes1, m2, nodes1, -1)
    ensures OpenTo(m2, nodes[ROOT], STACK_PAGE, STACK_PAGES, Access(true, true, false))
            && WalksKept(m, nodes[ROOT], m2)
  {
    hide AreasOk, AgreeOutside, TableOk, HwWalk, Permits, EagerAdded, Vacant, SameLeavesBut;
    StackRange();
    EagerKeepsWalks(m, own, id, nodes, rs, m1, own1, nodes1, rs1, STACK_PAGE, STACK_PAGES, STACK_FLAGS);
    EagerWalks(m, nodes, rs, m1, own1, id, nodes1, rs1, STACK_PAGE, STACK_PAGES, STACK_FLAGS);
    QuietWalks(m1, own1, nodes1, m2, own1, id, nodes1);
    hide SpaceOk;
  }

  lemma StackArea(m: Mem, nodes: Nodes, rs: Slots, m1: Mem, nodes1: Nodes, rs1: Slots)
    requires EagerAdded(m, nodes, rs, m1, nodes1, rs1, STACK_PAGE, STACK_PAGES, STACK_FLAGS)
    ensures var i := FreeSlot(rs);
            && i < MAX_AREAS && rs[i].None? && rs1[i].Some? && rs1 == rs[i := rs1[i]] && !rs1[i].value.lazy
            && rs1[i].value.first == STACK_PAGE && rs1[i].value.past == STACK_PAGE + STACK_PAGES
            && NPages(rs1[i].value) == STACK_PAGES
  {
    hide LeavesMapped;
  }

  /** The stack pointer, or the error, that a process ends up with. */
  ghost function StackOutcome(q: Room, argc: nat, envc: nat, args: nat, envs: nat): int
  {
    var size := FrameSize(argc, envc, args, envs);
    if !RoomFor(q, STACK_PAGE, STACK_PAGES) then -12 else if size > STACK_SIZE then -22 else StackPointer(size)
  }

  /**
    Map the stack and build the initial frame. On success the process sees exactly the
    collected arguments and environment, on a 16-byte aligned stack, and nothing outside
    the stack changes. `-12`: no room or memory for the stack; `-22`: the frame is too large.
   */
  method SetUpStack(a: AddressSpace, argv: ExecStrBuf, envp: ExecStrBuf, seed: seq<Byte>, port: nat, ghost q: Room)
    returns (r: int)
    requires a.Valid() && WriteXorExecute(a.ram.mem, a.nodes, a.regions) && RoomIs(a.regions, a.nodes, a.ram.heads, q)
    requires argv.Valid() && envp.Valid() && |seed| == 16 && port < W64
    modifies a`regions, a`nodes, a.ram`mem, a.ram`heads, a.ram`freePages, a.ram`own, a.ram`lost
    ensures a.Valid()
    ensures Kept(a.id, a.root, old(a.ram.own), old(a.ram.mem), a.ram.own, a.ram.mem, a.nodes, a.regions)
    ensures WalksKept(old(a.ram.mem), a.root, a.ram.mem)
    ensures r >= 0 ==>
              && StackReady(old(a.ram.mem), old(a.regions), a.ram.mem, a.regions, r,
                            FrameSize(argv.count, envp.count, argv.end, envp.end),
                            FrameBytes(argv.count, envp.count, argv.end, envp.end), argv.strings, envp.strings, seed,
                            port)
              && OpenTo(a.ram.mem, a.root, STACK_PAGE, STACK_PAGES, Access(true, true, false))
    ensures r == StackOutcome(q, argv.count, envp.count, argv.end, envp.end)
  {
    hide RoomIs, RoomFor, RangeTables, Missing, Order, Pow2;
    hide SpaceOk, ListsOk, TagsOk, Total, Additive, UpperHalfSame, EagerAdded, SameLeavesBut, WriteXorExecute, Isolated,
      Vacant, Kept, AllPacked, Offset, Built, Within, Frame, Shows, VirtToPhys, FrameSize, TableBytes, FrameBytes,
      OpenTo, WalksKept, Topmost, UserByte, UserView, StackPointer;
    ghost var o0, m0, n0, rs := a.ram.own, a.ram.mem, a.nodes, a.regions;
    StackRange();
    RoomDecides(rs, n0, a.ram.heads, q, STACK_PAGE, STACK_PAGES);
    var ok := a.Map(STACK_TOP - STACK_SIZE, STACK_SIZE, STACK_FLAGS);
    if !ok {
      NothingMapped(a.id, a.root, o0, m0, n0, rs, a.ram.own, a.ram.mem, a.nodes);
      QuietKeepsWalks(m0, o0, a.id, n0, rs, a.ram.mem, a.ram.own, a.nodes, a.regions);
      return -12;
    }
    var size := FrameSize(argv.count, envp.count, argv.end, envp.end);
    if size > STACK_SIZE {
      Mapped(m0, o0, a.id, n0, rs, a.ram.mem, a.ram.own, a.nodes, a.regions, a.root);
      EagerKeepsWalks(m0, o0, a.id, n0, rs, a.ram.mem, a.ram.own, a.nodes, a.regions, STACK_PAGE, STACK_PAGES,
                      STACK_FLAGS);
      return -22;
    }
    FrameFits(argv.count, envp.count, argv.end, envp.end);
    var sp := StackPointer(size);
    TopmostLeaves(sp, size);
    TableFound(m0, n0, rs, a.ram.mem, a.ram.own, a.id, a.nodes, a.regions, sp, argv.count, envp.count, argv.end,
               envp.end);
    var pb := VirtToPhys(a.regions, sp);
    ghost var m1 := a.ram.mem;
    var m2 := BuildFrame(a.ram.mem, pb.value, sp, argv, envp, seed, port);
    ghost var n := FrameBytes(argv.count, envp.count, argv.end, envp.end);
    StackBuilt(m0, o0, a.id, n0, rs, m1, a.ram.own, a.nodes, a.regions, a.root, m2, sp, pb.value, n);
    FrameSeen(UserView(m2, a.regions), sp, m2, pb.value, STACK_TOP - sp, argv.strings, argv.data[..], argv.end,
              envp.strings, envp.data[..], envp.end, seed, port);
    a.ram.mem := m2;
    return sp;
  }

  lemma TopmostLeaves(sp: nat, size: nat)
    requires Topmost(sp, size) && size <= STACK_SIZE
    ensures sp % 16 == 0 && sp + size <= STACK_TOP
    ensures sp - (STACK_TOP - STACK_SIZE) >= STACK_SIZE - size - 15
  {
    var q := 16 * ((STACK_TOP - size) / 16);
    assert q % 16 == 0 && q + size <= STACK_TOP;
  }

  lemma Mapped(m: Mem, own: Owners, id: nat, nodes: Nodes, rs: Slots, m1: Mem, own1: Owners, nodes1: Nodes, rs1: Slots,
               root: nat)
    requires SpaceOk(m1, own1, id, nodes1, rs1) && WriteXorExecute(m, nodes, rs)
    requires Additive(id, own, m, own1, m1) && UpperHalfSame(root, m, m1)
    requires EagerAdded(m, nodes, rs, m1, nodes1, rs1, STACK_PAGE, STACK_PAGES, STACK_FLAGS)
    ensures Kept(id, root, own, m, own1, m1, nodes1, rs1)
  {
    hide SpaceOk, Additive, UpperHalfSame, WriteXorExecute, Isolated, EagerAdded, SafeLeaves;
    MapSafe(m, own, id, nodes, rs, m1, own1, nodes1, rs1, STACK_PAGE, STACK_PAGES, STACK_FLAGS);
    AdditiveIsolated(id, own, m, own1, m1);
  }

  lemma TableFound(m0: Mem, n0: Nodes, rs: Slots, m: Mem, own: Owners, id: nat, nodes: Nodes, rs': Slots, sp: nat,
                   argc: nat, envc: nat, args: nat, envs: nat)
    requires SpaceOk(m, own, id, nodes, rs')
             && EagerAdded(m0, n0, rs, m, nodes, rs', STACK_PAGE, STACK_PAGES, STACK_FLAGS)
    requires STACK_TOP - STACK_SIZE <= sp && sp + TableBytes(argc, envc) + args + envs + 16 <= STACK_TOP
    ensures sp < STACK_TOP && VirtToPhys(rs', sp).Some?
  {
    hide SpaceOk, EagerAdded, VirtToPhys, FreeSlot;
    StackArea(m0, n0, rs, m, nodes, rs');
    StackShows(m, own, id, nodes, rs', FreeSlot(rs), sp);
  }

  /** The stack leaves the loaded image alone. */
  lemma ImageSurvives(m: Mem, rs: Slots, m': Mem, rs': Slots, sp: nat, size: nat, used: nat, argv: seq<Str>,
                      envp: seq<Str>, seed: seq<Byte>, port: nat, b: seq<Byte>, h: Ehdr, n: nat)
    requires ImageLoaded(m, rs, b, h, n) && StackReady(m, rs, m', rs', sp, size, used, argv, envp, seed, port)
    ensures ImageLoaded(m', rs', b, h, n)
  {
    hide UserByte, SegmentAt, Frame, StackLeft;
    forall i: nat | i < n && SegmentAt(b, h, i).Some?
      ensures SegmentLoaded(m', rs', b, SegmentAt(b, h, i).value)
    {
      var p := SegmentAt(b, h, i).value;
      assert SegmentLoaded(m, rs, b, p);
      forall x: nat | p.vaddr <= x < p.vaddr + p.memsz
        ensures UserByte(m', rs', x) == Some(if x < p.vaddr + p.filesz then b[p.offset + (x - p.vaddr)] else 0)
      {
        assert UserByte(m, rs, x).Some?;
      }
    }
  }

  /**
    The new image of a process: load the executable, then set up its stack. On success
    the process sees every segment as the file prescribes, and its arguments.
   */
  method NewImage(a: AddressSpace, b: seq<Byte>, argv: ExecStrBuf, envp: ExecStrBuf, seed: seq<Byte>, port: nat)
    returns (entry: Result<nat>, r: int)
    requires a.Valid() && WriteXorExecute(a.ram.mem, a.nodes, a.regions) && LoadableFile(b)
    requires argv.Valid() && envp.Valid() && |seed| == 16 && port < W64
    modifies a`regions, a`nodes, a`heapStart, a`heapEnd, a.ram`mem, a.ram`heads, a.ram`freePages, a.ram`own, a.ram`lost
    ensures a.Valid()
    ensures Kept(a.id, a.root, old(a.ram.own), old(a.ram.mem), a.ram.own, a.ram.mem, a.nodes, a.regions)
    ensures r >= 0 ==>
              && ParseEhdr(b).Ok? && entry == Ok(ParseEhdr(b).value.entry)
              && ImageLoaded(a.ram.mem, a.regions, b, ParseEhdr(b).value, ParseEhdr(b).value.phnum)
              && ImageOpen(a.ram.mem, a.root, b, ParseEhdr(b).value, ParseEhdr(b).value.phnum)
              && Frame(UserView(a.ram.mem, a.regions), r, argv.strings, envp.strings, seed, port)
              && StackLeft(a.ram.mem, a.regions, r, FrameSize(argv.count, envp.count, argv.end, envp.end),
                           FrameBytes(argv.count, envp.count, argv.end, envp.end))
              && OpenTo(a.ram.mem, a.root, STACK_PAGE, STACK_PAGES, Access(true, true, false))
    ensures match FileOutcome(b, RoomOf(old(a.regions), old(a.nodes), old(a.ram.heads)))
            case Refused(e) => entry == Err(e) && r == -8
            case Loaded(q) => entry.Ok? && r == StackOutcome(q, argv.count, envp.count, argv.end, envp.end)
  {
    hide RoomIs, RoomOf, FileOutcome, StackOutcome;
    hide SpaceOk, ListsOk, TagsOk, Total, WriteXorExecute, ImageLoaded, ParseEhdr, AllPacked, Offset, Frame, UserView,
      UserByte, LoadableFile, Isolated, UpperHalfSame, ImageOpen, StackLeft, OpenTo, WalksKept, FrameSize, FrameBytes;
    ghost var o0, m0 := a.ram.own, a.ram.mem;
    ghost var o := FileOutcome(b, RoomOf(a.regions, a.nodes, a.ram.heads));
    entry := LoadImage(a, b);
    if entry.Err? { return entry, -8; }
    ghost var o1, m1, n1, r1 := a.ram.own, a.ram.mem, a.nodes, a.regions;
    r := SetUpStack(a, argv, envp, seed, port, o.room);
    KeptTrans(a.id, a.root, o0, m0, o1, m1, n1, r1, a.ram.own, a.ram.mem, a.nodes, a.regions);
    if r >= 0 {
      ImageSurvives(m1, r1, a.ram.mem, a.regions, r, FrameSize(argv.count, envp.count, argv.end, envp.end),
                    FrameBytes(argv.count, envp.count, argv.end, envp.end), argv.strings, envp.strings, seed, port, b,
                    ParseEhdr(b).value, ParseEhdr(b).value.phnum);
      ImageStaysOpen(m1, a.root, a.ram.mem, b, ParseEhdr(b).value, ParseEhdr(b).value.phnum);
    }
  }

  /**
    A program starts exactly when its file is sound, its segments and the stack fit into
    the space together, and its arguments and environment fit on the stack.
   */
  lemma StartsWhen(b: seq<Byte>, q: Room, argc: nat, envc: nat, args: nat, envs: nat)
    ensures FileOutcome(b, q).Loaded? && StackOutcome(FileOutcome(b, q).room, argc, envc, args, envs) >= 0 <==>
              && ParseEhdr(b).Ok? && TableFits(b, ParseEhdr(b).value)
              && (forall i: nat :: i < ParseEhdr(b).value.phnum ==> HeaderSound(b, ParseEhdr(b).value, i))
              && AllFit(q, Spans(b, ParseEhdr(b).value, 0) + [Span(STACK_PAGE, STACK_PAGES)])
              && FrameSize(argc, envc, args, envs) <= STACK_SIZE
  {
    hide ParseEhdr, HeaderSound, AllFit, TableFits, ImageOutcome, Spans, RoomFor, FrameSize, StackPointer;
    if ParseEhdr(b).Ok? {
      var ss := Spans(b, ParseEhdr(b).value, 0);
      ImageFills(b, ParseEhdr(b).value, 0, q);
      FillLast(q, ss, Span(STACK_PAGE, STACK_PAGES));
      FillExact(q, ss + [Span(STACK_PAGE, STACK_PAGES)]);
    }
  }
}
