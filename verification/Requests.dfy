/**
  Whole runs of one address space, seen from the process: the access the processor
  grants to a page is the access last asked for it.
 */
module Requests {
  import opened Words
  import opened Buddy
  import opened Paging
  import opened Areas
  import opened Space
  import opened Steps
  import opened Faults
  import opened Unmaps
  import opened Protects
  import opened Rights
  import opened Strays
  import opened Costs
  import opened Ledger
  import opened Vmm
  import opened Runs

  // ---------------------------------------------------------- one lemma per change

  lemma QuietHonoured(m: Mem, own: Owners, nodes: Nodes, rs: Slots, m': Mem, own': Owners, id: nat, nodes': Nodes,
                      want: Wishes)
    requires TableOk(m, own, id, nodes) && TableOk(m', own', id, nodes') && nodes'[ROOT] == nodes[ROOT]
    requires SameLeavesBut(m, nodes, m', nodes', -1) && Honoured(m, nodes[ROOT], rs, want)
    ensures Honoured(m', nodes[ROOT], rs, Wished(want, None))
  {
    LeafWalks(m, own, nodes, m', own', id, nodes', 0, 0);
    hide TableOk, SameLeavesBut, HwWalk, Permits, Leaf, PageOf, Covered, FlagsAt, Asks;
  }

  lemma EagerKept(rs: Slots, rs': Slots, i: nat, r: Area, want: Wishes, g: Grant)
    requires KeptAsAsked(rs, want) && i < MAX_AREAS && rs[i].None? && rs' == rs[i := Some(r)]
    requires Disjoint(rs) && Disjoint(rs') && !r.lazy && g.first == r.first && g.past == r.past
    ensures KeptAsAsked(rs', Wished(want, Some(g)))
  {
    forall w: nat | w < USER_PAGES && Covered(rs', w) && PageOf(rs', w).None?
      ensures Asks(FlagsAt(rs', w), Wished(want, Some(g))(w))
    {
      SlotReplaced(rs, i, Some(r), w);
      FlagsReplaced(rs, i, Some(r), w);
      hide Covered, PageOf, FlagsAt, Disjoint, FindFrom;
    }
  }

  lemma MapHonoured(m: Mem, own: Owners, id: nat, nodes: Nodes, rs: Slots, m': Mem, own': Owners, nodes': Nodes,
                    rs': Slots, first: nat, n: nat, flags: PageFlags, want: Wishes)
    requires SpaceOk(m, own, id, nodes, rs) && SpaceOk(m', own', id, nodes', rs') && nodes'[ROOT] == nodes[ROOT]
    requires EagerAdded(m, nodes, rs, m', nodes', rs', first, n, flags) && first + n <= USER_PAGES
    requires Honoured(m, nodes[ROOT], rs, want)
    ensures Honoured(m', nodes[ROOT], rs',
                     Wished(want, Some(Grant(first, first + n, Access(flags.user, flags.writable, flags.execute)))))
  {
    var root := nodes[ROOT];
    var g := Grant(first, first + n, Access(flags.user, flags.writable, flags.execute));
    SpaceAreas(m, own, id, nodes, rs);
    SpaceAreas(m', own', id, nodes', rs');
    hide AreasOk, AgreeOutside, TableOk, HwWalk, Permits, Leaf, LeafEntry, KeptAsAsked, PageOf, Covered, Disjoint, Asks;
    EagerKept(rs, rs', FreeSlot(rs), EagerArea(first, n, rs'[FreeSlot(rs)].value.phys, flags), want, g);
    LeafWalks(m, own, nodes, m', own', id, nodes', first, first + n);
    EagerWalks(m, nodes, rs, m', own', id, nodes', rs', first, n, flags);
    hide EagerAdded, SpaceOk, OpenAsAsked;
    OpenStep(m, m', root, want, Some(g));
  }

  lemma LazyKept(rs: Slots, rs': Slots, i: nat, r: Area, want: Wishes, g: Grant)
    requires KeptAsAsked(rs, want) && i < MAX_AREAS && rs[i].None? && rs' == rs[i := Some(r)]
    requires Disjoint(rs) && Disjoint(rs') && g.first == r.first && g.past == r.past && Asks(r.flags, g.access)
    ensures KeptAsAsked(rs', Wished(want, Some(g)))
  {
    forall w: nat | w < USER_PAGES && Covered(rs', w) && PageOf(rs', w).None?
      ensures Asks(FlagsAt(rs', w), Wished(want, Some(g))(w))
    {
      SlotReplaced(rs, i, Some(r), w);
      FlagsReplaced(rs, i, Some(r), w);
      hide Covered, PageOf, FlagsAt, Disjoint, FindFrom;
    }
  }

  /** Pages that had no frame before may be asked for anything. */
  lemma UnbackedOpen(m: Mem, own: Owners, id: nat, nodes: Nodes, rs: Slots, want: Wishes, g: Grant)
    requires SpaceOk(m, own, id, nodes, rs) && OpenAsAsked(m, nodes[ROOT], want)
    requires forall w: nat :: w < USER_PAGES && g.first <= w < g.past ==> PageOf(rs, w) == None
    ensures OpenAsAsked(m, nodes[ROOT], Wished(want, Some(g)))
  {
    var root := nodes[ROOT];
    hide SpaceOk, HwWalk, Permits, PageOf, OpenAsAsked;
    forall w: nat | w < USER_PAGES && g.first <= w < g.past
      ensures !HwWalk(m, root, w).Mapped?
    {
      UnbackedFaults(m, own, id, nodes, rs, w);
    }
    OpenStep(m, m, root, want, Some(g));
  }

  lemma LazyHonoured(m: Mem, own: Owners, id: nat, nodes: Nodes, rs: Slots, rs': Slots, first: nat, n: nat,
                     flags: PageFlags, want: Wishes)
    requires SpaceOk(m, own, id, nodes, rs) && SpaceOk(m, own, id, nodes, rs')
    requires LazyAdded(rs, rs', first, n, flags) && Vacant(rs, first, first + n) && Honoured(m, nodes[ROOT], rs, want)
    ensures Honoured(m, nodes[ROOT], rs',
                     Wished(want, Some(Grant(first, first + n, Access(flags.user, flags.writable, flags.execute)))))
  {
    var root := nodes[ROOT];
    var g := Grant(first, first + n, Access(flags.user, flags.writable, flags.execute));
    SpaceAreas(m, own, id, nodes, rs);
    SpaceAreas(m, own, id, nodes, rs');
    hide SpaceOk, HwWalk, KeptAsAsked, OpenAsAsked, PageOf, Covered, Disjoint, Vacant;
    LazyKept(rs, rs', FreeSlot(rs), LazyArea(first, n, flags), want, g);
    forall w: nat | w < USER_PAGES && first <= w < first + n
      ensures PageOf(rs, w) == None
    {
      VacantUncovered(rs, first, first + n, w);
    }
    UnbackedOpen(m, own, id, nodes, rs, want, g);
  }

  lemma FaultKept(rs: Slots, rs': Slots, i: nat, v: nat, p: nat, want: Wishes)
    requires KeptAsAsked(rs, want) && Disjoint(rs) && Disjoint(rs') && p != 0
    requires i == FindFrom(rs, v, 0) < MAX_AREAS && Demandable(rs[i].value, v)
             && rs' == rs[i := Some(FaultedIn(rs[i].value, v, p))]
    ensures KeptAsAsked(rs', Wished(want, None))
  {
    forall w: nat | w < USER_PAGES && Covered(rs', w) && PageOf(rs', w).None?
      ensures Asks(FlagsAt(rs', w), want(w))
    {
      FaultPageOf(rs, i, v, p, w);
      FlagsReplaced(rs, i, Some(FaultedIn(rs[i].value, v, p)), w);
      if Covers(rs[i].value, w) { FindUnique(rs, i, w); }
      hide PageOf, Disjoint, FindFrom, Recorded;
    }
  }

  lemma FaultedNonZero(rs: Slots, rs': Slots, i: nat, v: nat, p: nat)
    requires Disjoint(rs') && i < MAX_AREAS && rs[i].Some? && Demandable(rs[i].value, v)
    requires rs' == rs[i := Some(FaultedIn(rs[i].value, v, p))] && PageOf(rs', v) == Some(p)
    ensures p != 0
  {
    FindUnique(rs', i, v);
  }

  /** The page that is faulted in gets the access that its area kept for it. */
  lemma FaultOpen(m: Mem, m': Mem, root: nat, v: nat, f: PageFlags, want: Wishes)
    requires OpenAsAsked(m, root, want) && Asks(f, want(v))
    requires Permits(HwWalk(m', root, v), Access(f.user, f.writable, f.execute))
    requires forall w: nat :: w < USER_PAGES && !(v <= w < v + 1) ==> HwWalk(m', root, w) == HwWalk(m, root, w)
    ensures OpenAsAsked(m', root, Wished(want, None))
  {
    hide HwWalk;
  }

  lemma FaultHonoured(m: Mem, own: Owners, id: nat, nodes: Nodes, rs: Slots, m': Mem, own': Owners, nodes': Nodes,
                      rs': Slots, v: nat, want: Wishes)
    requires SpaceOk(m, own, id, nodes, rs) && SpaceOk(m', own', id, nodes', rs') && nodes'[ROOT] == nodes[ROOT]
    requires FaultHandled(m, nodes, rs, m', nodes', rs', v) && Honoured(m, nodes[ROOT], rs, want)
    ensures Honoured(m', nodes[ROOT], rs', Wished(want, None))
  {
    var root := nodes[ROOT];
    hide AreasOk, AgreeOutside, TableOk, HwWalk, Permits, Leaf, LeafEntry, FaultedIn, FindFrom, PageOf, OpenAsAsked,
      KeptAsAsked, Disjoint, Demandable, Asks;
    var i, p := FindFrom(rs, v, 0), PageOf(rs', v).value;
    SpaceAreas(m, own, id, nodes, rs);
    SpaceAreas(m', own', id, nodes', rs');
    FoundFrame(m', own', id, nodes', rs', v);
    FaultWalk(m, nodes, rs, m', own', id, nodes', rs', v);
    FaultedNonZero(rs, rs', i, v, p);
    FaultKept(rs, rs', i, v, p, want);
    LeafWalks(m, own, nodes, m', own', id, nodes', v, v + 1);
    KeptAt(rs, want, i, v);
    hide SpaceOk, FaultHandled;
    FaultOpen(m, m', root, v, rs[i].value.flags, want);
  }

  lemma KeptAt(rs: Slots, want: Wishes, i: nat, v: nat)
    requires KeptAsAsked(rs, want) && v < USER_PAGES && i == FindFrom(rs, v, 0) < MAX_AREAS
             && Demandable(rs[i].value, v)
    ensures Asks(rs[i].value.flags, want(v))
  {
    assert Covered(rs, v) && PageOf(rs, v).None?;
  }

  lemma TrimmedFlags(rs: Slots, rs': Slots, v: nat, end: nat, w: nat)
    requires v < end && Trimmed(rs, rs', v, end) && Disjoint(rs) && Covered(rs', w)
    ensures Covered(rs, w) && FlagsAt(rs', w) == FlagsAt(rs, w)
  {
    var j := FindFrom(rs', w, 0);
    assert rs'[j] == TrimSlot(rs[j], v, end) && rs[j].Some? && Covers(rs[j].value, w) by { hide CountNonZero, Drained; }
    FindUnique(rs, j, w);
    hide CountNonZero, Drained, Zeroed, FindFrom;
  }

  lemma UnmapHonoured(m: Mem, own: Owners, id: nat, nodes: Nodes, rs: Slots, m': Mem, own': Owners, rs': Slots,
                      v: nat, end: nat, want: Wishes)
    requires SpaceOk(m, own, id, nodes, rs) && SpaceOk(m', own', id, nodes, rs')
    requires UnmapStep(id, own, m, own', m', nodes, v, end) && Honoured(m, nodes[ROOT], rs, want)
    requires forall w: nat :: PageOf(rs', w) == if v <= w < end then None else PageOf(rs, w)
    requires forall w: nat :: Covered(rs', w) ==>
               !(v <= w < end) && Covered(rs, w) && FlagsAt(rs', w) == FlagsAt(rs, w)
    ensures Honoured(m', nodes[ROOT], rs', Wished(want, None))
  {
    var root := nodes[ROOT];
    hide AreasOk, AgreeOutside, TableOk, HwWalk, Permits, Leaf, PageOf, Covered, FlagsAt, Asks, Subtractive;
    LeafWalks(m, own, nodes, m', own', id, nodes, v, end);
    forall w: nat | w < USER_PAGES && v <= w < end
      ensures !HwWalk(m', root, w).Mapped?
    {
      UnbackedFaults(m', own', id, nodes, rs', w);
    }
    hide SpaceOk;
  }

  /** Every page that a protection change reaches only because its area is touched has that access already. */
  predicate Confined(rs: Slots, v: nat, end: nat, x: Access)
  {
    forall w: nat {:trigger PageOf(rs, w)} ::
      && w < USER_PAGES && !(v <= w < end) && Covered(rs, w) && PageOf(rs, w).None?
      && Overlaps(rs[FindFrom(rs, w, 0)].value, v, end)
      ==> Asks(FlagsAt(rs, w), x)
  }

  lemma ReflaggedAt(rs: Slots, rs': Slots, v: nat, end: nat, f: PageFlags, w: nat)
    requires forall k :: 0 <= k < MAX_AREAS ==> rs'[k] == ReflagSlot(rs[k], v, end, f)
    requires Disjoint(rs) && Covered(rs, w)
    ensures Covered(rs', w)
    ensures FlagsAt(rs', w) == if Overlaps(rs[FindFrom(rs, w, 0)].value, v, end) then f else FlagsAt(rs, w)
  {
    var j, j' := FindFrom(rs, w, 0), FindFrom(rs', w, 0);
    assert rs'[j] == ReflagSlot(rs[j], v, end, f);
    assert j' <= j;
    assert rs'[j'] == ReflagSlot(rs[j'], v, end, f);
    FindUnique(rs, j', w);
  }

  /** A protection change honours what was asked for if and only if it is confined. */
  lemma ProtectKept(rs: Slots, rs': Slots, v: nat, end: nat, f: PageFlags, x: Access, want: Wishes)
    requires forall k :: 0 <= k < MAX_AREAS ==> rs'[k] == ReflagSlot(rs[k], v, end, f)
    requires forall w: nat ::
               PageOf(rs', w) == PageOf(rs, w) && (Covered(rs', w) <==> Covered(rs, w))
    requires Disjoint(rs) && KeptAsAsked(rs, want) && Asks(f, x)
    ensures KeptAsAsked(rs', Wished(want, Some(Grant(v, end, x)))) <==> Confined(rs, v, end, x)
  {
    var want' := Wished(want, Some(Grant(v, end, x)));
    forall w: nat | Covered(rs, w)
      ensures FlagsAt(rs', w) == if Overlaps(rs[FindFrom(rs, w, 0)].value, v, end) then f else FlagsAt(rs, w)
      ensures v <= w < end ==> Overlaps(rs[FindFrom(rs, w, 0)].value, v, end)
    {
      ReflaggedAt(rs, rs', v, end, f, w);
    }
    if KeptAsAsked(rs', want') {
      forall w: nat | w < USER_PAGES && !(v <= w < end) && Covered(rs, w) && PageOf(rs, w).None?
                      && Overlaps(rs[FindFrom(rs, w, 0)].value, v, end)
        ensures Asks(FlagsAt(rs, w), x)
      {
        assert Asks(FlagsAt(rs', w), want'(w)) && Asks(FlagsAt(rs, w), want(w));
      }
    }
    if Confined(rs, v, end, x) {
      forall w: nat | w < USER_PAGES && Covered(rs', w) && PageOf(rs', w).None?
        ensures Asks(FlagsAt(rs', w), want'(w))
      {
        assert Asks(FlagsAt(rs, w), want(w));
      }
    }
    hide ReflagSlot, PageOf, FlagsAt, FindFrom, Overlaps;
  }

  lemma ShrunkFlags(rs: Slots, i: nat, end: nat, w: nat)
    requires Disjoint(rs) && i < MAX_AREAS && rs[i].Some? && rs[i].value.first <= end < rs[i].value.past
    requires Covered(rs[i := Some(WithoutFrames(rs[i].value, end, rs[i].value.past).(past := end))], w)
    ensures var rs' := rs[i := Some(WithoutFrames(rs[i].value, end, rs[i].value.past).(past := end))];
            !(end <= w < rs[i].value.past) && Covered(rs, w) && FlagsAt(rs', w) == FlagsAt(rs, w)
  {
    var r := WithoutFrames(rs[i].value, end, rs[i].value.past).(past := end);
    DisjointShrunk(rs, i, Some(r));
    FlagsReplaced(rs, i, Some(r), w);
    if Covers(rs[i].value, w) { FindUnique(rs, i, w); }
    hide Zeroed, CountNonZero, FindFrom, Disjoint;
  }

  /** Pages above the end of the heap, and clear of the other areas, have no frame. */
  lemma AboveHeap(rs: Slots, i: nat, end: nat, w: nat)
    requires i < MAX_AREAS && rs[i].Some? && OthersClear(rs, i, rs[i].value.past, end) && rs[i].value.past <= w < end
    ensures PageOf(rs, w) == None
  {
  }

  lemma GrownAt(rs: Slots, rs': Slots, i: nat, end: nat, want: Wishes, x: Access, w: nat)
    requires i < MAX_AREAS && rs[i].Some? && rs[i].value.first <= rs[i].value.past < end
    requires rs' == rs[i := Some(rs[i].value.(past := end))] && Disjoint(rs) && Disjoint(rs')
    requires KeptAsAsked(rs, want) && Asks(rs[i].value.flags, x)
    requires w < USER_PAGES && Covered(rs', w) && PageOf(rs, w).None?
    ensures Asks(FlagsAt(rs', w), Wished(want, Some(Grant(rs[i].value.past, end, x)))(w))
  {
    var r := rs[i].value;
    FlagsReplaced(rs, i, Some(r.(past := end)), w);
    if Covers(r, w) { FindUnique(rs, i, w); }
    hide PageOf, FindFrom, Disjoint;
    if !(r.past <= w < end) { assert Covered(rs, w) && Asks(FlagsAt(rs, w), want(w)); }
  }

  /** A grown heap honours what was asked for if and only if its area still stands for that access. */
  lemma GrownKept(rs: Slots, rs': Slots, i: nat, end: nat, want: Wishes, x: Access)
    requires i < MAX_AREAS && rs[i].Some? && rs[i].value.first <= rs[i].value.past < end <= USER_PAGES
    requires rs' == rs[i := Some(rs[i].value.(past := end))] && Disjoint(rs) && Disjoint(rs')
    requires KeptAsAsked(rs, want) && OthersClear(rs, i, rs[i].value.past, end)
    requires forall w: nat :: PageOf(rs', w) == PageOf(rs, w)
    ensures KeptAsAsked(rs', Wished(want, Some(Grant(rs[i].value.past, end, x)))) <==> Asks(rs[i].value.flags, x)
  {
    var past := rs[i].value.past;
    var want' := Wished(want, Some(Grant(past, end, x)));
    AboveHeap(rs, i, end, past);
    FindUnique(rs', i, past);
    hide PageOf, FindFrom, Disjoint, OthersClear, Asks;
    if KeptAsAsked(rs', want') {
      assert Covered(rs', past) && Asks(FlagsAt(rs', past), want'(past));
      assert Names(Some(Grant(past, end, x)), past) && want'(past) == x;
    }
    if Asks(rs[i].value.flags, x) {
      hide Covered, FlagsAt;
      forall w: nat | w < USER_PAGES && Covered(rs', w) && PageOf(rs', w).None?
        ensures Asks(FlagsAt(rs', w), want'(w))
      {
        GrownAt(rs, rs', i, end, want, x, w);
      }
      assert KeptAsAsked(rs', want');
    }
  }

  // ------------------------------------------------------------------- requests

  const DATA := Access(true, true, false)

  /** What an operation that answered `ok` grants; the break request grants readable and writable data. */
  function Asked(rs: Slots, heapStart: nat, op: Op, ok: bool): Option<Grant>
  {
    match op
    case OpMap(virt, size, f) =>
      if ok then Some(Grant(virt / 4096, virt / 4096 + (size + 4095) / 4096, Access(f.user, f.writable, f.execute)))
      else None
    case OpMapLazy(virt, size, f) =>
      if ok then Some(Grant(virt / 4096, virt / 4096 + (size + 4095) / 4096, Access(f.user, f.writable, f.execute)))
      else None
    case OpFault(_) => None
    case OpUnmap(_, _) => None
    case OpMprotect(addr, len, write, exec) =>
      var v, end := addr / 4096, addr / 4096 + (len + 4095) / 4096;
      if (write && exec) || 4096 * end >= W64 then None else Some(Grant(v, end, Access(true, write, exec)))
    case OpBrk(newEnd) =>
      var first, end := heapStart / 4096, (newEnd + 4095) / 4096;
      match BrkOutcome(rs, heapStart, newEnd)
      case Created => Some(Grant(first, first + HeapPages(heapStart, end), DATA))
      case Grown => Some(Grant(rs[HeapSlot(rs, heapStart)].value.past, end, DATA))
      case _ => None
  }

  /** The operation changes the access of the pages it names only. */
  predicate Exact(rs: Slots, heapStart: nat, op: Op)
  {
    match op
    case OpMprotect(addr, len, write, exec) =>
      var v, end := addr / 4096, addr / 4096 + (len + 4095) / 4096;
      (write && exec) || 4096 * end >= W64 || Confined(rs, v, end, Access(true, write, exec))
    case OpBrk(newEnd) =>
      BrkOutcome(rs, heapStart, newEnd).Grown? ==> Asks(rs[HeapSlot(rs, heapStart)].value.flags, DATA)
    case _ => true
  }

  method AskMap(a: AddressSpace, virt: nat, size: nat, flags: PageFlags, ghost want: Wishes) returns (ok: bool)
    requires a.Valid() && Admissible(a.regions, a.heapStart, OpMap(virt, size, flags))
             && Honoured(a.ram.mem, a.root, a.regions, want)
    modifies a`regions, a`nodes, a.ram`mem, a.ram`heads, a.ram`freePages, a.ram`own, a.ram`lost
    ensures a.Valid()
    ensures Honoured(a.ram.mem, a.root, a.regions,
                     Wished(want, Asked(old(a.regions), a.heapStart, OpMap(virt, size, flags), ok)))
  {
    hide SpaceOk, ListsOk, TagsOk, Total, Additive, UpperHalfSame, EagerAdded, SameLeavesBut, Vacant, NoStray, Missing,
      RangeTables, DataPages, Honoured, Wished, OpenTo, Order, Pow2, FreeSlot, TableOk;
    ghost var o0, m0, n0, rs := a.ram.own, a.ram.mem, a.nodes, a.regions;
    SpaceTable(m0, o0, a.id, n0, rs);
    ok := a.Map(virt, size, flags);
    SpaceTable(a.ram.mem, a.ram.own, a.id, a.nodes, a.regions);
    if ok {
      MapHonoured(m0, o0, a.id, n0, rs, a.ram.mem, a.ram.own, a.nodes, a.regions, virt / 4096, (size + 4095) / 4096,
                  flags, want);
    } else {
      QuietHonoured(m0, o0, n0, rs, a.ram.mem, a.ram.own, a.id, a.nodes, want);
    }
  }

  lemma SpaceDisjoint(m: Mem, own: Owners, id: nat, nodes: Nodes, rs: Slots)
    requires SpaceOk(m, own, id, nodes, rs)
    ensures Disjoint(rs)
  {
  }

  lemma SpaceTable(m: Mem, own: Owners, id: nat, nodes: Nodes, rs: Slots)
    requires SpaceOk(m, own, id, nodes, rs)
    ensures TableOk(m, own, id, nodes)
  {
  }

  method AskMapLazy(a: AddressSpace, virt: nat, size: nat, flags: PageFlags, ghost want: Wishes) returns (ok: bool)
    requires a.Valid() && Admissible(a.regions, a.heapStart, OpMapLazy(virt, size, flags))
             && Honoured(a.ram.mem, a.root, a.regions, want)
    modifies a`regions
    ensures a.Valid()
    ensures Honoured(a.ram.mem, a.root, a.regions,
                     Wished(want, Asked(old(a.regions), a.heapStart, OpMapLazy(virt, size, flags), ok)))
  {
    hide SpaceOk, ListsOk, TagsOk, Total, LazyAdded, Vacant, NoStray, DataPages, Honoured;
    ghost var rs := a.regions;
    ok := a.MapLazy(virt, size, flags);
    if ok {
      LazyHonoured(a.ram.mem, a.ram.own, a.id, a.nodes, rs, a.regions, virt / 4096, (size + 4095) / 4096, flags, want);
    } else {
      SameWishes(a.ram.mem, a.root, rs, want);
    }
  }

  lemma SameWishes(m: Mem, root: nat, rs: Slots, want: Wishes)
    requires Honoured(m, root, rs, want)
    ensures Honoured(m, root, rs, Wished(want, None))
  {
    hide HwWalk, Permits, PageOf, Covered, FlagsAt, Asks;
  }

  method AskFault(a: AddressSpace, va: nat, ghost want: Wishes) returns (ok: bool)
    requires a.Valid() && Honoured(a.ram.mem, a.root, a.regions, want)
    modifies a`regions, a`nodes, a.ram`mem, a.ram`heads, a.ram`freePages, a.ram`own, a.ram`lost
    ensures a.Valid()
    ensures Honoured(a.ram.mem, a.root, a.regions, Wished(want, None))
  {
    hide SpaceOk, ListsOk, TagsOk, Total, Additive, UpperHalfSame, FaultHandled, SameLeavesBut, NoStray, Missing,
      PathTables, DataPages, Honoured, Wished, HwWalk, Permits;
    ghost var o0, m0, n0, rs := a.ram.own, a.ram.mem, a.nodes, a.regions;
    SpaceTable(m0, o0, a.id, n0, rs);
    ok := a.HandlePageFault(va);
    SpaceTable(a.ram.mem, a.ram.own, a.id, a.nodes, a.regions);
    if ok {
      FaultHonoured(m0, o0, a.id, n0, rs, a.ram.mem, a.ram.own, a.nodes, a.regions, va / 4096, want);
    } else {
      QuietHonoured(m0, o0, n0, rs, a.ram.mem, a.ram.own, a.id, a.nodes, want);
    }
  }

  method AskUnmap(a: AddressSpace, virt: nat, len: nat, ghost want: Wishes)
    requires a.Valid() && Admissible(a.regions, a.heapStart, OpUnmap(virt, len))
             && Honoured(a.ram.mem, a.root, a.regions, want)
    modifies a`regions, a.ram`mem, a.ram`heads, a.ram`freePages, a.ram`own, a.ram`lost
    ensures a.Valid()
    ensures Honoured(a.ram.mem, a.root, a.regions, Wished(want, None))
  {
    hide SpaceOk, ListsOk, TagsOk, Total, UnmapStep, Trimmed, PageOf, Covered, Trimmable, NoStray, NoLeak, GivenBack,
      DataPages, Waste, UnmapLists, Honoured, Wished;
    ghost var o0, m0, rs := a.ram.own, a.ram.mem, a.regions;
    var v, end := virt / 4096, virt / 4096 + (len + 4095) / 4096;
    SpaceAreas(m0, o0, a.id, a.nodes, rs);
    hide Disjoint, AreaOk, AreaHeld;
    a.UnmapRange(virt, len);
    SameWishes(m0, a.root, rs, want);
    if !(v == end || 4096 * end >= W64) {
      forall w: nat | Covered(a.regions, w)
        ensures Covered(rs, w) && FlagsAt(a.regions, w) == FlagsAt(rs, w)
      {
        TrimmedFlags(rs, a.regions, v, end, w);
      }
      UnmapHonoured(m0, o0, a.id, a.nodes, rs, a.ram.mem, a.ram.own, a.regions, v, end, want);
    }
  }

  method AskMprotect(a: AddressSpace, addr: nat, len: nat, write: bool, exec: bool, ghost want: Wishes)
    requires a.Valid() && len + 4095 < W64 && Honoured(a.ram.mem, a.root, a.regions, want)
    modifies a`regions, a`nodes, a.ram`mem, a.ram`heads, a.ram`freePages, a.ram`own
    ensures a.Valid()
    ensures var op := OpMprotect(addr, len, write, exec);
            Honoured(a.ram.mem, a.root, a.regions, Wished(want, Asked(old(a.regions), a.heapStart, op, true)))
            <==> Exact(old(a.regions), a.heapStart, op)
  {
    hide SpaceOk, ListsOk, TagsOk, Total, UpperHalfSame, Additive, PageOf, Covered, Protected, NoStray, DataPages,
      HwWalk, Permits, Confined, KeptAsAsked, OpenAsAsked, Wished, ReflagSlot;
    ghost var m0, rs := a.ram.mem, a.regions;
    SpaceAreas(m0, a.ram.own, a.id, a.nodes, rs);
    hide Disjoint, AreaOk, AreaHeld;
    SameWishes(m0, a.root, rs, want);
    var _ := a.Mprotect(addr, len, write, exec);
    var v, end := addr / 4096, addr / 4096 + (len + 4095) / 4096;
    if !((write && exec) || 4096 * end >= W64) {
      ProtectKept(rs, a.regions, v, end, ProtFlags(write, exec), Access(true, write, exec), want);
      ProtectOpen(m0, a.ram.mem, a.ram.own, a.id, a.nodes, a.regions, v, end, Access(true, write, exec), want);
    }
  }

  lemma ProtectOpen(m: Mem, m': Mem, own': Owners, id: nat, nodes': Nodes, rs': Slots, v: nat, end: nat, x: Access,
                    want: Wishes)
    requires SpaceOk(m', own', id, nodes', rs') && OpenAsAsked(m, nodes'[ROOT], want)
    requires forall w: nat :: w < USER_PAGES ==>
               if v <= w < end && PageOf(rs', w).Some? then Permits(HwWalk(m', nodes'[ROOT], w), x)
               else HwWalk(m', nodes'[ROOT], w) == HwWalk(m, nodes'[ROOT], w)
    ensures OpenAsAsked(m', nodes'[ROOT], Wished(want, Some(Grant(v, end, x))))
  {
    var root := nodes'[ROOT];
    hide SpaceOk, HwWalk, Permits, PageOf, OpenAsAsked;
    forall w: nat | w < USER_PAGES && v <= w < end && HwWalk(m', root, w).Mapped?
      ensures Permits(HwWalk(m', root, w), x)
    {
      if PageOf(rs', w).None? { UnbackedFaults(m', own', id, nodes', rs', w); }
    }
    OpenStep(m, m', root, want, Some(Grant(v, end, x)));
  }

  /** What each case of an admissible break request means for the areas. */
  lemma BrkCases(rs: Slots, heapStart: nat, newEnd: nat)
    requires Admissible(rs, heapStart, OpBrk(newEnd))
    ensures var end, i, c := (newEnd + 4095) / 4096, HeapSlot(rs, heapStart), BrkOutcome(rs, heapStart, newEnd);
            && (c.Shrunk? ==> 4096 * end >= heapStart)
            && var rs' := AfterBrk(rs, heapStart, newEnd);
               match c
               case Unchanged => rs' == rs
               case NoOp => rs' == rs
               case Created =>
                 var first, n := heapStart / 4096, HeapPages(heapStart, end);
                 && FreeSlot(rs) < MAX_AREAS && Vacant(rs, first, first + n)
                 && rs' == rs[FreeSlot(rs) := Some(LazyArea(first, n, HEAP_FLAGS))]
               case Grown =>
                 && i < MAX_AREAS && rs[i].value.past < end <= USER_PAGES && OthersClear(rs, i, rs[i].value.past, end)
                 && rs' == rs[i := Some(rs[i].value.(past := end))]
               case Shrunk =>
                 && i < MAX_AREAS && rs[i].value.first <= end < rs[i].value.past
                 && rs' == rs[i := Some(WithoutFrames(rs[i].value, end, rs[i].value.past).(past := end))]
  {
    hide HeapSlot, HeapPages, OthersClear, Vacant, WithoutFrames, FreeSlot, LazyArea;
  }

  /** What a break request does to the wishes, case by case. */
  lemma BrkHonoured(m: Mem, own: Owners, id: nat, nodes: Nodes, rs: Slots, m': Mem, own': Owners, rs': Slots,
                    root: nat, heapStart: nat, newEnd: nat, want: Wishes)
    requires ROOT in nodes && root == nodes[ROOT] && Honoured(m, root, rs, want)
    requires SpaceOk(m, own, id, nodes, rs) && SpaceOk(m', own', id, nodes, rs')
    requires Admissible(rs, heapStart, OpBrk(newEnd)) && rs' == AfterBrk(rs, heapStart, newEnd)
    requires BrkOutcome(rs, heapStart, newEnd).Shrunk? ==>
               var end, past := (newEnd + 4095) / 4096, rs[HeapSlot(rs, heapStart)].value.past;
               && UnmapStep(id, own, m, own', m', nodes, end, past)
               && forall w: nat :: PageOf(rs', w) == if end <= w < past then None else PageOf(rs, w)
    requires !BrkOutcome(rs, heapStart, newEnd).Shrunk? ==>
               m' == m && own' == own && forall w: nat :: PageOf(rs', w) == PageOf(rs, w)
    ensures Honoured(m', root, rs', Wished(want, Asked(rs, heapStart, OpBrk(newEnd), true)))
            <==> Exact(rs, heapStart, OpBrk(newEnd))
  {
    hide SpaceOk, UnmapStep, PageOf, Covered, FlagsAt, Honoured, Disjoint, OthersClear, Vacant, HeapSlot, FreeSlot,
      WithoutFrames, Wished, HwWalk, HeapPages, LazyArea, Asks, Admissible, AfterBrk, BrkOutcome;
    BrkCases(rs, heapStart, newEnd);
    var end, i := (newEnd + 4095) / 4096, HeapSlot(rs, heapStart);
    SpaceDisjoint(m, own, id, nodes, rs);
    SpaceDisjoint(m', own', id, nodes, rs');
    if i < MAX_AREAS { AreaBounds(m, own, id, nodes, rs, i); }
    match BrkOutcome(rs, heapStart, newEnd)
    case Unchanged => SameWishes(m, root, rs, want);
    case NoOp => SameWishes(m, root, rs, want);
    case Created => CreatedHonoured(m, own, id, nodes, rs, rs', heapStart / 4096, HeapPages(heapStart, end), want);
    case Grown => GrownHonoured(m, own, id, nodes, rs, rs', i, end, want);
    case Shrunk => ShrunkHonoured(m, own, id, nodes, rs, m', own', rs', i, end, want);
  }

  lemma CreatedHonoured(m: Mem, own: Owners, id: nat, nodes: Nodes, rs: Slots, rs': Slots, first: nat, n: nat,
                        want: Wishes)
    requires SpaceOk(m, own, id, nodes, rs) && SpaceOk(m, own, id, nodes, rs') && Honoured(m, nodes[ROOT], rs, want)
    requires FreeSlot(rs) < MAX_AREAS && Vacant(rs, first, first + n)
    requires rs' == rs[FreeSlot(rs) := Some(LazyArea(first, n, HEAP_FLAGS))]
    ensures Honoured(m, nodes[ROOT], rs', Wished(want, Some(Grant(first, first + n, DATA))))
  {
    SpaceAreas(m, own, id, nodes, rs);
    SpaceAreas(m, own, id, nodes, rs');
    hide SpaceOk, HwWalk, KeptAsAsked, OpenAsAsked, PageOf, Covered, Disjoint, Vacant, AreaOk, AreaHeld;
    LazyKept(rs, rs', FreeSlot(rs), LazyArea(first, n, HEAP_FLAGS), want, Grant(first, first + n, DATA));
    forall w: nat | w < USER_PAGES && first <= w < first + n
      ensures PageOf(rs, w) == None
    {
      VacantUncovered(rs, first, first + n, w);
    }
    UnbackedOpen(m, own, id, nodes, rs, want, Grant(first, first + n, DATA));
  }

  lemma GrownHonoured(m: Mem, own: Owners, id: nat, nodes: Nodes, rs: Slots, rs': Slots, i: nat, end: nat,
                      want: Wishes)
    requires SpaceOk(m, own, id, nodes, rs) && Disjoint(rs) && Disjoint(rs') && Honoured(m, nodes[ROOT], rs, want)
    requires i < MAX_AREAS && rs[i].Some? && rs[i].value.first <= rs[i].value.past < end <= USER_PAGES
    requires rs' == rs[i := Some(rs[i].value.(past := end))] && OthersClear(rs, i, rs[i].value.past, end)
    requires forall w: nat :: PageOf(rs', w) == PageOf(rs, w)
    ensures Honoured(m, nodes[ROOT], rs', Wished(want, Some(Grant(rs[i].value.past, end, DATA))))
            <==> Asks(rs[i].value.flags, DATA)
  {
    hide SpaceOk, HwWalk, KeptAsAsked, OpenAsAsked, PageOf, Disjoint, OthersClear, Asks;
    GrownKept(rs, rs', i, end, want, DATA);
    forall w: nat | w < USER_PAGES && rs[i].value.past <= w < end
      ensures PageOf(rs, w) == None
    {
      AboveHeap(rs, i, end, w);
    }
    UnbackedOpen(m, own, id, nodes, rs, want, Grant(rs[i].value.past, end, DATA));
  }

  lemma ShrunkHonoured(m: Mem, own: Owners, id: nat, nodes: Nodes, rs: Slots, m': Mem, own': Owners, rs': Slots,
                       i: nat, end: nat, want: Wishes)
    requires SpaceOk(m, own, id, nodes, rs) && SpaceOk(m', own', id, nodes, rs') && Honoured(m, nodes[ROOT], rs, want)
    requires i < MAX_AREAS && rs[i].Some? && rs[i].value.first <= end < rs[i].value.past && Disjoint(rs)
    requires rs' == rs[i := Some(WithoutFrames(rs[i].value, end, rs[i].value.past).(past := end))]
    requires UnmapStep(id, own, m, own', m', nodes, end, rs[i].value.past)
    requires forall w: nat :: PageOf(rs', w) == if end <= w < rs[i].value.past then None else PageOf(rs, w)
    ensures Honoured(m', nodes[ROOT], rs', Wished(want, None))
  {
    hide SpaceOk, UnmapStep, PageOf, Covered, FlagsAt, Honoured, Disjoint, WithoutFrames, Wished;
    forall w: nat | Covered(rs', w)
      ensures !(end <= w < rs[i].value.past) && Covered(rs, w) && FlagsAt(rs', w) == FlagsAt(rs, w)
    {
      ShrunkFlags(rs, i, end, w);
    }
    UnmapHonoured(m, own, id, nodes, rs, m', own', rs', end, rs[i].value.past, want);
  }

  method AskBrk(a: AddressSpace, newEnd: nat, ghost want: Wishes)
    requires a.Valid() && Admissible(a.regions, a.heapStart, OpBrk(newEnd))
             && Honoured(a.ram.mem, a.root, a.regions, want)
    modifies a`regions, a`heapEnd, a.ram`mem, a.ram`heads, a.ram`freePages, a.ram`own, a.ram`lost
    ensures a.Valid()
    ensures var op := OpBrk(newEnd);
            Honoured(a.ram.mem, a.root, a.regions, Wished(want, Asked(old(a.regions), a.heapStart, op, true)))
            <==> Exact(old(a.regions), a.heapStart, op)
  {
    hide SpaceOk, ListsOk, TagsOk, Total, UnmapStep, PageOf, AfterBrk, HeapSlot, Vacant, OthersClear, FreeSlot, NoStray,
      PagesReleased, DataPages, Honoured, Wished, Asked, Exact;
    ghost var o0, m0, rs := a.ram.own, a.ram.mem, a.regions;
    var _ := a.Brk(newEnd);
    BrkHonoured(m0, o0, a.id, a.nodes, rs, a.ram.mem, a.ram.own, a.regions, a.root, a.heapStart, newEnd,
                want);
  }

  /** One operation keeps every wish, old and new, if and only if it is exact. */
  method Ask(a: AddressSpace, op: Op, ghost want: Wishes) returns (ok: bool)
    requires a.Valid() && Admissible(a.regions, a.heapStart, op) && Honoured(a.ram.mem, a.root, a.regions, want)
    modifies a`regions, a`nodes, a`heapEnd, a.ram`mem, a.ram`heads, a.ram`freePages, a.ram`own, a.ram`lost
    ensures a.Valid()
    ensures Honoured(a.ram.mem, a.root, a.regions, Wished(want, Asked(old(a.regions), a.heapStart, op, ok)))
            <==> Exact(old(a.regions), a.heapStart, op)
  {
    hide SpaceOk, ListsOk, TagsOk, Total, Honoured, Wished, Trimmable, HeapSlot, HeapPages, Confined, BrkOutcome, Asks;
    ok := true;
    match op
    case OpMap(virt, size, flags) => ok := AskMap(a, virt, size, flags, want);
    case OpMapLazy(virt, size, flags) => ok := AskMapLazy(a, virt, size, flags, want);
    case OpFault(va) => ok := AskFault(a, va, want);
    case OpUnmap(virt, len) => AskUnmap(a, virt, len, want);
    case OpMprotect(addr, len, write, exec) => AskMprotect(a, addr, len, write, exec, want);
    case OpBrk(newEnd) => AskBrk(a, newEnd, want);
  }

  // ------------------------------------------------------------------ whole runs

  /** The access of the last grant in `log` that names page `w`, or the first wish. */
  function Latest(want: Wishes, log: seq<Option<Grant>>, w: int): Access
  {
    if log == [] then want(w)
    else
      var n := |log| - 1;
      if Names(log[n], w) then log[n].value.access else Latest(want, log[..n], w)
  }

  /** If the operation granted anything, it granted what it was asked for. */
  predicate Logged(op: Op, g: Option<Grant>)
  {
    g.Some? ==>
      match op
      case OpMap(virt, size, f) =>
        g.value == Grant(virt / 4096, virt / 4096 + (size + 4095) / 4096, Access(f.user, f.writable, f.execute))
      case OpMapLazy(virt, size, f) =>
        g.value == Grant(virt / 4096, virt / 4096 + (size + 4095) / 4096, Access(f.user, f.writable, f.execute))
      case OpMprotect(addr, len, write, exec) =>
        g.value == Grant(addr / 4096, addr / 4096 + (len + 4095) / 4096, Access(true, write, exec))
      case OpBrk(_) => g.value.access == Access(true, true, false)
      case _ => false
  }

  lemma LatestIsWished(m: Mem, root: nat, rs: Slots, want: Wishes, log: seq<Option<Grant>>, g: Option<Grant>)
    requires Honoured(m, root, rs, Wished(w => Latest(want, log, w), g))
    ensures Honoured(m, root, rs, w => Latest(want, log + [g], w))
  {
    forall w: int
      ensures Latest(want, log + [g], w) == Wished(w => Latest(want, log, w), g)(w)
    {
      assert (log + [g])[..|log|] == log;
    }
    hide HwWalk, Permits, PageOf, Covered, FlagsAt, Asks, Latest, Wished;
  }

  /**
    Every run: after any sequence of operations, of which the inadmissible and the inexact
    ones are skipped, the processor grants each mapped page exactly the access that the
    last request naming the page asked for, and each reserved page will get it.
   */
  method Run(a: AddressSpace, ops: seq<Op>, ghost want: Wishes) returns (ghost log: seq<Option<Grant>>)
    requires a.Valid() && Honoured(a.ram.mem, a.root, a.regions, want)
    modifies a`regions, a`nodes, a`heapEnd, a.ram`mem, a.ram`heads, a.ram`freePages, a.ram`own, a.ram`lost
    ensures a.Valid() && |log| == |ops|
    ensures forall i :: 0 <= i < |ops| ==> Logged(ops[i], log[i])
    ensures forall w: nat :: w < USER_PAGES && HwWalk(a.ram.mem, a.root, w).Mapped? ==>
              Permits(HwWalk(a.ram.mem, a.root, w), Latest(want, log, w))
    ensures forall w: nat :: w < USER_PAGES && Covered(a.regions, w) && PageOf(a.regions, w).None? ==>
              Asks(FlagsAt(a.regions, w), Latest(want, log, w))
  {
    hide SpaceOk, ListsOk, TagsOk, Total, Honoured, Admissible, Exact, Wished, Asked, Latest, Logged;
    log := [];
    LatestStart(a.ram.mem, a.root, a.regions, want);
    for i := 0 to |ops|
      invariant a.Valid() && |log| == i
      invariant forall k :: 0 <= k < i ==> Logged(ops[k], log[k])
      invariant Honoured(a.ram.mem, a.root, a.regions, w => Latest(want, log, w))
    {
      ghost var g: Option<Grant> := None;
      ghost var wishes := w => Latest(want, log, w);
      SameWishes(a.ram.mem, a.root, a.regions, wishes);
      if Admissible(a.regions, a.heapStart, ops[i]) && Exact(a.regions, a.heapStart, ops[i]) {
        ghost var rs := a.regions;
        var ok := Ask(a, ops[i], wishes);
        g := Asked(rs, a.heapStart, ops[i], ok);
        AskedIsLogged(rs, a.heapStart, ops[i], ok);
      } else {
        NothingLogged(ops[i]);
      }
      LatestIsWished(a.ram.mem, a.root, a.regions, want, log, g);
      log := log + [g];
    }
    HonouredOpens(a.ram.mem, a.root, a.regions, want, log);
  }

  lemma LatestStart(m: Mem, root: nat, rs: Slots, want: Wishes)
    requires Honoured(m, root, rs, want)
    ensures Honoured(m, root, rs, w => Latest(want, [], w))
  {
    hide HwWalk, Permits, PageOf, Covered, FlagsAt, Asks;
  }

  lemma AskedIsLogged(rs: Slots, heapStart: nat, op: Op, ok: bool)
    ensures Logged(op, Asked(rs, heapStart, op, ok))
  {
    hide HeapPages, HeapSlot;
  }

  lemma NothingLogged(op: Op)
    ensures Logged(op, None)
  {
  }

  lemma HonouredOpens(m: Mem, root: nat, rs: Slots, want: Wishes, log: seq<Option<Grant>>)
    requires Honoured(m, root, rs, w => Latest(want, log, w))
    ensures forall w: nat :: w < USER_PAGES && HwWalk(m, root, w).Mapped? ==>
              Permits(HwWalk(m, root, w), Latest(want, log, w))
    ensures forall w: nat :: w < USER_PAGES && Covered(rs, w) && PageOf(rs, w).None? ==>
              Asks(FlagsAt(rs, w), Latest(want, log, w))
  {
    hide HwWalk, Permits, PageOf, Covered, FlagsAt, Asks, Latest;
  }

  /** A space without areas honours every wish. */
  lemma EmptyHonoured(m: Mem, own: Owners, id: nat, nodes: Nodes, rs: Slots, want: Wishes)
    requires SpaceOk(m, own, id, nodes, rs) && forall k :: 0 <= k < MAX_AREAS ==> rs[k].None?
    ensures ROOT in nodes && Honoured(m, nodes[ROOT], rs, want)
  {
    forall w: nat
      ensures !Covered(rs, w) && PageOf(rs, w) == None
    {
    }
    var root := nodes[ROOT];
    forall w: nat | w < USER_PAGES
      ensures !HwWalk(m, root, w).Mapped?
    {
      UnbackedFaults(m, own, id, nodes, rs, w);
    }
    hide SpaceOk, HwWalk, PageOf, Covered;
  }

  /** Protecting one page of a reserved, writable pair takes the write access away from the other page too. */
  lemma ProtectSpills(rs: Slots)
    requires rs[0] == Some(LazyArea(1024, 2, HEAP_FLAGS)) && forall k :: 1 <= k < MAX_AREAS ==> rs[k].None?
    ensures !Exact(rs, 0, OpMprotect(1024 * 4096, 4096, false, false))
  {
    assert Covered(rs, 1025) && PageOf(rs, 1025).None?;
  }

  /** A heap that was made read-only grows by read-only pages. */
  lemma GrowsReadOnly(rs: Slots)
    requires rs[0] == Some(LazyArea(1024, 2, HEAP_FLAGS.(writable := false)))
             && forall k :: 1 <= k < MAX_AREAS ==> rs[k].None?
    ensures !Exact(rs, 1024 * 4096, OpBrk(1027 * 4096))
  {
  }
}
