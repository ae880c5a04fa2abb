/**
  Whole runs of one address space: what every sequence of operations keeps.
 */
module Runs {
  import opened Words
  import opened Buddy
  import opened Paging
  import opened Areas
  import opened Space
  import opened Steps
  import opened Faults
  import opened Unmaps
  import opened Protects
  import opened Rights
  import opened Strays
  import opened Costs
  import opened Ledger
  import opened Vmm

  // ---------------------------------------------------------- write xor execute

  predicate SafeFlags(f: PageFlags)
  {
    !(f.writable && f.execute)
  }

  predicate SafeEntry(e: nat)
  {
    !(Writable(e) && !NoExec(e))
  }

  /** No area is both writable and executable. */
  ghost predicate SafeAreas(rs: Slots)
  {
    forall i :: 0 <= i < MAX_AREAS && rs[i].Some? ==> SafeFlags(rs[i].value.flags)
  }

  /** No mapped user page outside [lo, hi) is both writable and executable. */
  ghost predicate SafeLeaves(m: Mem, nodes: Nodes, lo: int, hi: int)
  {
    forall w: nat {:trigger Leaf(m, nodes, w)} :: w < USER_PAGES && !(lo <= w < hi) && Leaf(m, nodes, w).Some? ==>
      SafeEntry(Leaf(m, nodes, w).value)
  }

  ghost predicate WriteXorExecute(m: Mem, nodes: Nodes, rs: Slots)
  {
    SafeAreas(rs) && SafeLeaves(m, nodes, 0, 0)
  }

  lemma SafeLeaf(p: nat, f: PageFlags)
    requires p % 4096 == 0 && p < PHYS_LIMIT && SafeFlags(f)
    ensures SafeEntry(LeafEntry(p, Translate(f)))
  {
    LeafEntryFields(p, Translate(f));
    hide LeafEntry, Writable, NoExec;
  }

  lemma MapSafe(m: Mem, own: Owners, id: nat, nodes: Nodes, rs: Slots, m': Mem, own': Owners, nodes': Nodes, rs': Slots,
                first: nat, n: nat, flags: PageFlags)
    requires WriteXorExecute(m, nodes, rs) && EagerAdded(m, nodes, rs, m', nodes', rs', first, n, flags)
    requires SpaceOk(m', own', id, nodes', rs')
    ensures SafeFlags(flags) ==> WriteXorExecute(m', nodes', rs')
    ensures SafeLeaves(m', nodes', first, first + n)
    ensures forall i :: 0 <= i < MAX_AREAS && i != FreeSlot(rs) && rs'[i].Some? ==> SafeFlags(rs'[i].value.flags)
  {
    hide SpaceOk, Leaf, LeafEntry, SafeEntry;
    var slot := FreeSlot(rs);
    var phys := rs'[slot].value.phys;
    if SafeFlags(flags) {
      forall w: nat | w < USER_PAGES && Leaf(m', nodes', w).Some?
        ensures SafeEntry(Leaf(m', nodes', w).value)
      {
        if first <= w < first + n {
          EagerFrame(m', own', id, nodes', rs', slot, w);
          SafeLeaf(phys + 4096 * (w - first), flags);
        }
      }
    }
  }

  lemma LazySafe(m: Mem, nodes: Nodes, rs: Slots, rs': Slots, first: nat, n: nat, flags: PageFlags)
    requires WriteXorExecute(m, nodes, rs) && LazyAdded(rs, rs', first, n, flags) && SafeFlags(flags)
    ensures WriteXorExecute(m, nodes, rs')
  {
    hide Leaf, PageOf, Covered, SafeEntry;
  }

  lemma QuietSafe(m: Mem, nodes: Nodes, rs: Slots, m': Mem, nodes': Nodes)
    requires WriteXorExecute(m, nodes, rs) && SameLeavesBut(m, nodes, m', nodes', -1)
    ensures WriteXorExecute(m', nodes', rs)
  {
    hide Leaf, SafeEntry;
  }

  lemma FaultSafe(m: Mem, own: Owners, id: nat, nodes: Nodes, rs: Slots, m': Mem, nodes': Nodes, rs': Slots, v: nat)
    requires WriteXorExecute(m, nodes, rs) && FaultHandled(m, nodes, rs, m', nodes', rs', v)
    requires SpaceOk(m', own, id, nodes', rs')
    ensures WriteXorExecute(m', nodes', rs')
  {
    var i := FindFrom(rs, v, 0);
    var p := PageOf(rs', v).value;
    FoundFrame(m', own, id, nodes', rs', v);
    SafeLeaf(p, rs[i].value.flags);
    hide SpaceOk, Leaf, LeafEntry, SafeEntry, FindFrom, Recorded, PageOf;
  }

  /** Unmapping a range leaves nothing unsafe in it. */
  lemma UnmapRepairs(m: Mem, nodes: Nodes, own: Owners, m': Mem, own': Owners, id: nat, rs': Slots, v: nat, end: nat)
    requires SafeLeaves(m, nodes, v, end) && UnmapStep(id, own, m, own', m', nodes, v, end)
             && SpaceOk(m', own', id, nodes, rs')
    requires forall w: nat :: v <= w < end ==> PageOf(rs', w) == None
    requires SafeAreas(rs')
    ensures WriteXorExecute(m', nodes, rs')
  {
    SpaceAgrees(m', own', id, nodes, rs');
    hide SpaceOk, TableOk, AreasOk, Leaf, SafeEntry, PageOf, Subtractive;
    forall w: nat | w < USER_PAGES && Leaf(m', nodes, w).Some?
      ensures SafeEntry(Leaf(m', nodes, w).value)
    {
      assert FrameOf(Leaf(m', nodes, w)) == PageOf(rs', w);
    }
  }

  /** Unmapping cannot create a writable and executable page. */
  lemma UnmapSafe(m: Mem, nodes: Nodes, rs: Slots, own: Owners, m': Mem, own': Owners, id: nat, rs': Slots, v: nat,
                  end: nat)
    requires WriteXorExecute(m, nodes, rs) && UnmapStep(id, own, m, own', m', nodes, v, end)
             && SpaceOk(m', own', id, nodes, rs')
    requires forall w: nat :: v <= w < end ==> PageOf(rs', w) == None
    requires SafeAreas(rs')
    ensures WriteXorExecute(m', nodes, rs')
  {
    assert SafeLeaves(m, nodes, v, end) by { hide Leaf, SafeEntry, SpaceOk, PageOf; }
    hide SpaceOk, SafeLeaves, UnmapStep, PageOf, SafeAreas;
    UnmapRepairs(m, nodes, own, m', own', id, rs', v, end);
  }

  lemma TrimmedSafe(rs: Slots, rs': Slots, v: nat, end: nat)
    requires v < end && Trimmed(rs, rs', v, end) && SafeAreas(rs)
    ensures SafeAreas(rs')
  {
    hide CountNonZero;
  }

  /** A protection change that is not write-and-execute repairs its whole range. */
  lemma ProtectSafe(m: Mem, own: Owners, id: nat, nodes: Nodes, rs: Slots, m': Mem, own': Owners, nodes': Nodes,
                    rs': Slots, f: PageFlags, v: nat, end: nat)
    requires SpaceOk(m, own, id, nodes, rs) && Protected(m, nodes, rs, m', nodes', Translate(f), v, end) && SafeFlags(f)
    requires SafeLeaves(m, nodes, v, end)
    requires forall k :: 0 <= k < MAX_AREAS ==> rs'[k] == ReflagSlot(rs[k], v, end, f)
    requires forall k :: 0 <= k < MAX_AREAS && rs[k].Some? && !Overlaps(rs[k].value, v, end) ==>
               SafeFlags(rs[k].value.flags)
    ensures WriteXorExecute(m', nodes', rs')
  {
    SpaceAgrees(m, own, id, nodes, rs);
    hide SpaceOk, TableOk, AreasOk, Leaf, LeafEntry, SafeEntry, PageOf;
    forall w: nat | w < USER_PAGES && Leaf(m', nodes', w).Some?
      ensures SafeEntry(Leaf(m', nodes', w).value)
    {
      assert FrameOf(Leaf(m, nodes, w)) == PageOf(rs, w);
      if PageOf(rs, w).Some? {
        FoundFrame(m, own, id, nodes, rs, w);
        SafeLeaf(PageOf(rs, w).value, f);
      }
    }
  }

  // ---------------------------------------------------------------- whole runs

  datatype Op =
    | OpMap(virt: nat, size: nat, flags: PageFlags)
    | OpMapLazy(virt: nat, size: nat, flags: PageFlags)
    | OpFault(va: nat)
    | OpUnmap(virt: nat, len: nat)
    | OpMprotect(addr: nat, len: nat, write: bool, exec: bool)
    | OpBrk(newEnd: nat)

  /**
    What a caller must respect: user-half ranges, blocks of at most 1024 pages, flags
    that are present and not write-and-execute, unmaps that leave no area with a hole
    or a misaligned remainder, and a lazy heap not shrunk below its start.
   */
  predicate Admissible(rs: Slots, heapStart: nat, op: Op)
  {
    match op
    case OpMap(virt, size, flags) =>
      flags.present && SafeFlags(flags) && (size + 4095) / 4096 <= 1024
        && virt / 4096 + (size + 4095) / 4096 <= USER_PAGES
    case OpMapLazy(virt, size, flags) =>
      flags.present && SafeFlags(flags) && virt / 4096 + (size + 4095) / 4096 <= USER_PAGES
    case OpFault(_) => true
    case OpUnmap(virt, len) =>
      len + 4095 < W64 && (len != 0 ==> forall k :: 0 <= k < MAX_AREAS && rs[k].Some? ==>
        Trimmable(rs[k].value, virt / 4096, virt / 4096 + (len + 4095) / 4096))
    case OpMprotect(_, len, _, _) => len + 4095 < W64
    case OpBrk(newEnd) =>
      var end, i := (newEnd + 4095) / 4096, HeapSlot(rs, heapStart);
      && end <= USER_PAGES && heapStart / 4096 + HeapPages(heapStart, end) <= USER_PAGES
      && (newEnd != 0 && heapStart != 0 && i < MAX_AREAS ==> rs[i].value.lazy && 4096 * end >= heapStart)
  }

  /** The operation does not cut an eager area so that memory goes astray. */
  predicate Tidy(rs: Slots, op: Op)
  {
    op.OpUnmap? ==>
      var v, end := op.virt / 4096, op.virt / 4096 + (op.len + 4095) / 4096;
      v < end && 4096 * end < W64 ==> NoLeak(rs, v, end)
  }

  lemma IsolatedRefl(id: nat, own: Owners, m: Mem)
    ensures Isolated(id, own, m, own, m)
  {
  }

  lemma IsolatedTrans(id: nat, o0: Owners, m0: Mem, o1: Owners, m1: Mem, o2: Owners, m2: Mem)
    requires Isolated(id, o0, m0, o1, m1) && Isolated(id, o1, m1, o2, m2)
    ensures Isolated(id, o0, m0, o2, m2)
  {
  }

  lemma UnmapIsolated(id: nat, own: Owners, m: Mem, own': Owners, m': Mem, nodes: Nodes, v: int, end: int)
    requires UnmapStep(id, own, m, own', m', nodes, v, end)
    ensures Isolated(id, own, m, own', m') && ROOT in nodes && UpperHalfSame(nodes[ROOT], m, m')
  {
    SubtractiveIsolated(id, own, m, own', m');
    hide Isolated, Subtractive, SameOutside;
  }

  lemma UpperTrans(root: nat, m0: Mem, m1: Mem, m2: Mem)
    requires UpperHalfSame(root, m0, m1) && UpperHalfSame(root, m1, m2)
    ensures UpperHalfSame(root, m0, m2)
  {
  }

  /** One operation keeps the space, write-xor-execute, every other owner and the kernel half. */
  ghost predicate Kept(id: nat, root: nat, o0: Owners, m0: Mem, own: Owners, m: Mem, nodes: Nodes, rs: Slots)
  {
    && WriteXorExecute(m, nodes, rs)
    && Isolated(id, o0, m0, own, m)
    && UpperHalfSame(root, m0, m)
  }

  method RunMap(a: AddressSpace, virt: nat, size: nat, flags: PageFlags)
    requires a.Valid() && Admissible(a.regions, a.heapStart, OpMap(virt, size, flags))
             && WriteXorExecute(a.ram.mem, a.nodes, a.regions)
    modifies a`regions, a`nodes, a.ram`mem, a.ram`heads, a.ram`freePages, a.ram`own, a.ram`lost
    ensures a.Valid()
    ensures Kept(a.id, a.root, old(a.ram.own), old(a.ram.mem), a.ram.own, a.ram.mem, a.nodes, a.regions)
    ensures old(a.Tight()) ==> a.Tight()
    ensures a.Pages() == old(a.Pages())
  {
    hide SpaceOk, ListsOk, TagsOk, Total, Additive, UpperHalfSame, EagerAdded, SameLeavesBut, WriteXorExecute, Isolated,
      Vacant, NoStray, Missing, RangeTables, DataPages;
    ghost var o0, m0, n0, rs := a.ram.own, a.ram.mem, a.nodes, a.regions;
    var ok := a.Map(virt, size, flags);
    AdditiveIsolated(a.id, o0, m0, a.ram.own, a.ram.mem);
    if ok {
      MapSafe(m0, o0, a.id, n0, rs, a.ram.mem, a.ram.own, a.nodes, a.regions, virt / 4096, (size + 4095) / 4096, flags);
    } else {
      QuietSafe(m0, n0, rs, a.ram.mem, a.nodes);
    }
  }

  method RunMapLazy(a: AddressSpace, virt: nat, size: nat, flags: PageFlags)
    requires a.Valid() && Admissible(a.regions, a.heapStart, OpMapLazy(virt, size, flags))
             && WriteXorExecute(a.ram.mem, a.nodes, a.regions)
    modifies a`regions
    ensures a.Valid()
    ensures Kept(a.id, a.root, a.ram.own, a.ram.mem, a.ram.own, a.ram.mem, a.nodes, a.regions)
    ensures old(a.Tight()) ==> a.Tight()
    ensures a.Pages() == old(a.Pages())
  {
    hide SpaceOk, ListsOk, TagsOk, Total, LazyAdded, WriteXorExecute, Vacant, NoStray, DataPages;
    ghost var rs := a.regions;
    var ok := a.MapLazy(virt, size, flags);
    IsolatedRefl(a.id, a.ram.own, a.ram.mem);
    hide Isolated;
    if ok { LazySafe(a.ram.mem, a.nodes, rs, a.regions, virt / 4096, (size + 4095) / 4096, flags); }
  }

  method RunFault(a: AddressSpace, va: nat)
    requires a.Valid() && WriteXorExecute(a.ram.mem, a.nodes, a.regions)
    modifies a`regions, a`nodes, a.ram`mem, a.ram`heads, a.ram`freePages, a.ram`own, a.ram`lost
    ensures a.Valid()
    ensures Kept(a.id, a.root, old(a.ram.own), old(a.ram.mem), a.ram.own, a.ram.mem, a.nodes, a.regions)
    ensures old(a.Tight()) ==> a.Tight()
    ensures a.Pages() == old(a.Pages())
  {
    hide SpaceOk, ListsOk, TagsOk, Total, Additive, UpperHalfSame, FaultHandled, SameLeavesBut, WriteXorExecute,
      Isolated, NoStray, Missing, PathTables, DataPages;
    ghost var o0, m0, n0, rs := a.ram.own, a.ram.mem, a.nodes, a.regions;
    var ok := a.HandlePageFault(va);
    AdditiveIsolated(a.id, o0, m0, a.ram.own, a.ram.mem);
    if ok {
      FaultSafe(m0, a.ram.own, a.id, n0, rs, a.ram.mem, a.nodes, a.regions, va / 4096);
    } else {
      QuietSafe(m0, n0, rs, a.ram.mem, a.nodes);
    }
  }

  method RunUnmap(a: AddressSpace, virt: nat, len: nat)
    requires a.Valid() && Admissible(a.regions, a.heapStart, OpUnmap(virt, len))
             && WriteXorExecute(a.ram.mem, a.nodes, a.regions)
    modifies a`regions, a.ram`mem, a.ram`heads, a.ram`freePages, a.ram`own, a.ram`lost
    ensures a.Valid()
    ensures Kept(a.id, a.root, old(a.ram.own), old(a.ram.mem), a.ram.own, a.ram.mem, a.nodes, a.regions)
    ensures old(a.Tight()) ==> (a.Tight() <==> Tidy(old(a.regions), OpUnmap(virt, len)))
    ensures var v, end := virt / 4096, virt / 4096 + (len + 4095) / 4096;
            v < end && 4096 * end < W64 ==>
              && (forall k :: 0 <= k < MAX_AREAS && old(a.regions)[k].Some? ==>
                    old(a.regions)[k].value.first <= old(a.regions)[k].value.past)
              && Trimmed(old(a.regions), a.regions, v, end)
              && a.ram.heads == UnmapLists(old(a.ram.heads), old(a.regions), v, end, MAX_AREAS)
              && UnmapStep(a.id, old(a.ram.own), old(a.ram.mem), a.ram.own, a.ram.mem, a.nodes, v, end)
              && forall w: nat :: PageOf(a.regions, w) == if v <= w < end then None else PageOf(old(a.regions), w)
    ensures a.Pages() <= old(a.Pages())
    ensures a.Pages() == old(a.Pages()) <==> Tidy(old(a.regions), OpUnmap(virt, len))
  {
    hide SpaceOk, ListsOk, TagsOk, Total, UpperHalfSame, UnmapStep, Isolated, Trimmed, PageOf, Covered, Trimmable,
      SafeLeaves, SafeAreas, NoStray, NoLeak, GivenBack, DataPages, Waste, UnmapLists;
    ghost var o0, m0, rs := a.ram.own, a.ram.mem, a.regions;
    var v, end := virt / 4096, virt / 4096 + (len + 4095) / 4096;
    a.UnmapRange(virt, len);
    UnmapIsolated(a.id, o0, m0, a.ram.own, a.ram.mem, a.nodes, v, end);
    if !(v == end || 4096 * end >= W64) {
      TrimmedSafe(rs, a.regions, v, end);
      UnmapSafe(m0, a.nodes, rs, o0, a.ram.mem, a.ram.own, a.id, a.regions, v, end);
    }
  }

  method RunMprotect(a: AddressSpace, addr: nat, len: nat, write: bool, exec: bool)
    requires a.Valid() && len + 4095 < W64 && WriteXorExecute(a.ram.mem, a.nodes, a.regions)
    modifies a`regions, a`nodes, a.ram`mem, a.ram`heads, a.ram`freePages, a.ram`own
    ensures a.Valid()
    ensures Kept(a.id, a.root, old(a.ram.own), old(a.ram.mem), a.ram.own, a.ram.mem, a.nodes, a.regions)
    ensures old(a.Tight()) ==> a.Tight()
    ensures a.Pages() == old(a.Pages())
  {
    hide SpaceOk, ListsOk, TagsOk, Total, UpperHalfSame, Additive, Isolated, PageOf, Covered, Protected, Leaf,
      SafeEntry, Overlaps, NoStray, DataPages;
    ghost var o0, m0, n0, rs := a.ram.own, a.ram.mem, a.nodes, a.regions;
    var _ := a.Mprotect(addr, len, write, exec);
    AdditiveIsolated(a.id, o0, m0, a.ram.own, a.ram.mem);
    var v, end := addr / 4096, addr / 4096 + (len + 4095) / 4096;
    if !((write && exec) || 4096 * end >= W64) {
      ProtectSafe(m0, o0, a.id, n0, rs, a.ram.mem, a.ram.own, a.nodes, a.regions, ProtFlags(write, exec), v, end);
    }
  }

  lemma BrkSafeAreas(rs: Slots, heapStart: nat, newEnd: nat)
    requires SafeAreas(rs)
    requires BrkOutcome(rs, heapStart, newEnd).Shrunk? ==> 4096 * ((newEnd + 4095) / 4096) >= heapStart
    ensures SafeAreas(AfterBrk(rs, heapStart, newEnd))
  {
    hide CountNonZero, Vacant, OthersClear;
  }

  method RunBrk(a: AddressSpace, newEnd: nat)
    requires a.Valid() && Admissible(a.regions, a.heapStart, OpBrk(newEnd))
             && WriteXorExecute(a.ram.mem, a.nodes, a.regions)
    modifies a`regions, a`heapEnd, a.ram`mem, a.ram`heads, a.ram`freePages, a.ram`own, a.ram`lost
    ensures a.Valid()
    ensures Kept(a.id, a.root, old(a.ram.own), old(a.ram.mem), a.ram.own, a.ram.mem, a.nodes, a.regions)
    ensures old(a.Tight()) ==> a.Tight()
    ensures a.Pages() == old(a.Pages())
  {
    hide SpaceOk, ListsOk, TagsOk, Total, UpperHalfSame, UnmapStep, Isolated, PageOf, SafeLeaves, SafeAreas, AfterBrk,
      HeapSlot, Vacant, OthersClear, FreeSlot, NoStray, PagesReleased, DataPages;
    ghost var o0, m0, rs := a.ram.own, a.ram.mem, a.regions;
    var _ := a.Brk(newEnd);
    BrkSafeAreas(rs, a.heapStart, newEnd);
    IsolatedRefl(a.id, o0, m0);
    UpperRefl(a.root, m0);
    if BrkOutcome(rs, a.heapStart, newEnd).Shrunk? {
      ghost var past := rs[HeapSlot(rs, a.heapStart)].value.past;
      UnmapIsolated(a.id, o0, m0, a.ram.own, a.ram.mem, a.nodes, (newEnd + 4095) / 4096, past);
      UnmapSafe(m0, a.nodes, rs, o0, a.ram.mem, a.ram.own, a.id, a.regions, (newEnd + 4095) / 4096, past);
    }
  }

  lemma UpperRefl(root: nat, m: Mem)
    ensures UpperHalfSame(root, m, m)
  {
  }

  /** Perform one admissible operation. A space that is tight stays so exactly if the operation is tidy. */
  method Step(a: AddressSpace, op: Op)
    requires a.Valid() && Admissible(a.regions, a.heapStart, op) && WriteXorExecute(a.ram.mem, a.nodes, a.regions)
    modifies a`regions, a`nodes, a`heapEnd, a.ram`mem, a.ram`heads, a.ram`freePages, a.ram`own, a.ram`lost
    ensures a.Valid()
    ensures Kept(a.id, a.root, old(a.ram.own), old(a.ram.mem), a.ram.own, a.ram.mem, a.nodes, a.regions)
    ensures old(a.Tight()) ==> (a.Tight() <==> Tidy(old(a.regions), op))
    ensures a.Pages() <= old(a.Pages()) && (a.Pages() == old(a.Pages()) <==> Tidy(old(a.regions), op))
  {
    hide SpaceOk, ListsOk, TagsOk, Total, Kept, WriteXorExecute, Trimmable, HeapSlot, HeapPages, NoStray, NoLeak,
      DataPages, Trimmed, UnmapLists, UnmapStep, PageOf;
    match op
    case OpMap(virt, size, flags) => RunMap(a, virt, size, flags);
    case OpMapLazy(virt, size, flags) => RunMapLazy(a, virt, size, flags);
    case OpFault(va) => RunFault(a, va);
    case OpUnmap(virt, len) => RunUnmap(a, virt, len);
    case OpMprotect(addr, len, write, exec) => RunMprotect(a, addr, len, write, exec);
    case OpBrk(newEnd) => RunBrk(a, newEnd);
  }

  lemma KeptRefl(id: nat, root: nat, own: Owners, m: Mem, nodes: Nodes, rs: Slots)
    requires WriteXorExecute(m, nodes, rs)
    ensures Kept(id, root, own, m, own, m, nodes, rs)
  {
    hide WriteXorExecute;
  }

  lemma KeptTrans(id: nat, root: nat, o0: Owners, m0: Mem, o1: Owners, m1: Mem, n1: Nodes, r1: Slots, o2: Owners,
                  m2: Mem, n2: Nodes, r2: Slots)
    requires Kept(id, root, o0, m0, o1, m1, n1, r1) && Kept(id, root, o1, m1, o2, m2, n2, r2)
    ensures Kept(id, root, o0, m0, o2, m2, n2, r2)
  {
    hide WriteXorExecute, Isolated;
    IsolatedTrans(id, o0, m0, o1, m1, o2, m2);
  }

  /**
    Every run: after any sequence of operations, of which the inadmissible ones are
    skipped, the areas and the page table still agree page by page with the processor's
    walk, no page or area is writable and executable, no other space's memory or tags
    have changed, and every kernel address translates as before. No page appears on the
    books out of nowhere. In a `tidy` run, which also skips unmaps that cut an eager area
    wastefully, no memory goes astray, and free pages, pages behind areas and tables add
    up to what they were.
   */
  method Run(a: AddressSpace, ops: seq<Op>, tidy: bool)
    requires a.Valid() && WriteXorExecute(a.ram.mem, a.nodes, a.regions) && KernelReserved(a.ram.mem, a.ram.own, a.root)
    modifies a`regions, a`nodes, a`heapEnd, a.ram`mem, a.ram`heads, a.ram`freePages, a.ram`own, a.ram`lost
    ensures a.Valid() && WriteXorExecute(a.ram.mem, a.nodes, a.regions)
    ensures Isolated(a.id, old(a.ram.own), old(a.ram.mem), a.ram.own, a.ram.mem)
    ensures forall w: nat :: w < USER_PAGES ==> WalkFrame(HwWalk(a.ram.mem, a.root, w)) == PageOf(a.regions, w)
    ensures forall w :: KernelPage(w) ==> HwWalk(a.ram.mem, a.root, w) == HwWalk(old(a.ram.mem), a.root, w)
    ensures tidy && old(a.Tight()) ==> a.Tight()
    ensures a.Pages() <= old(a.Pages()) && (tidy ==> a.Pages() == old(a.Pages()))
  {
    hide SpaceOk, ListsOk, TagsOk, Total, Kept, WriteXorExecute, Isolated, KernelReserved, HwWalk, PageOf, Admissible,
      Tidy, NoStray, DataPages;
    ghost var o0, m0 := a.ram.own, a.ram.mem;
    KeptRefl(a.id, a.root, o0, m0, a.nodes, a.regions);
    for i := 0 to |ops|
      invariant a.Valid()
      invariant Kept(a.id, a.root, o0, m0, a.ram.own, a.ram.mem, a.nodes, a.regions)
      invariant tidy && old(a.Tight()) ==> a.Tight()
      invariant a.Pages() <= old(a.Pages()) && (tidy ==> a.Pages() == old(a.Pages()))
    {
      RunOne(a, ops[i], tidy, o0, m0);
    }
    RunResult(a.id, a.root, o0, m0, a.ram.own, a.ram.mem, a.nodes, a.regions);
  }

  method RunOne(a: AddressSpace, op: Op, tidy: bool, ghost o0: Owners, ghost m0: Mem)
    requires a.Valid() && Kept(a.id, a.root, o0, m0, a.ram.own, a.ram.mem, a.nodes, a.regions)
    modifies a`regions, a`nodes, a`heapEnd, a.ram`mem, a.ram`heads, a.ram`freePages, a.ram`own, a.ram`lost
    ensures a.Valid()
    ensures Kept(a.id, a.root, o0, m0, a.ram.own, a.ram.mem, a.nodes, a.regions)
    ensures tidy && old(a.Tight()) ==> a.Tight()
    ensures a.Pages() <= old(a.Pages()) && (tidy ==> a.Pages() == old(a.Pages()))
  {
    hide SpaceOk, ListsOk, TagsOk, Total, WriteXorExecute, Isolated, UpperHalfSame, Admissible, Tidy, NoStray,
      DataPages;
    ghost var o1, m1, n1, r1 := a.ram.own, a.ram.mem, a.nodes, a.regions;
    if Admissible(a.regions, a.heapStart, op) && (!tidy || Tidy(a.regions, op)) {
      Step(a, op);
      KeptTrans(a.id, a.root, o0, m0, o1, m1, n1, r1, a.ram.own, a.ram.mem, a.nodes, a.regions);
    }
  }

  lemma RunResult(id: nat, root: nat, o0: Owners, m0: Mem, own: Owners, m: Mem, nodes: Nodes, rs: Slots)
    requires SpaceOk(m, own, id, nodes, rs) && ROOT in nodes && root == nodes[ROOT]
    requires Kept(id, root, o0, m0, own, m, nodes, rs) && KernelReserved(m0, o0, root)
    ensures WriteXorExecute(m, nodes, rs) && Isolated(id, o0, m0, own, m)
    ensures forall w: nat :: w < USER_PAGES ==> WalkFrame(HwWalk(m, root, w)) == PageOf(rs, w)
    ensures forall w :: KernelPage(w) ==> HwWalk(m, root, w) == HwWalk(m0, root, w)
  {
    hide SpaceOk, WriteXorExecute, KernelReserved, HwWalk, PageOf;
    forall w: nat | w < USER_PAGES
      ensures WalkFrame(HwWalk(m, root, w)) == PageOf(rs, w)
    {
      WalkAgrees(m, own, id, nodes, rs, w);
    }
    forall w | KernelPage(w)
      ensures HwWalk(m, root, w) == HwWalk(m0, root, w)
    {
      KernelHalfFixed(m0, o0, m, own, root, w);
    }
  }
}
