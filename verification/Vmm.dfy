/**
  Per-process address spaces (mm/src/vmm.rs): eager and lazy mappings, demand
  paging, unmapping, protection changes and the heap break.
 */
module Vmm {
  import opened Words
  import opened Buddy
  import opened Paging
  import opened Areas
  import opened Space
  import opened Steps
  import opened Faults
  import opened Unmaps
  import opened Protects
  import opened Rights
  import opened Strays
  import opened Costs
  import opened Ledger

  class AddressSpace {
    const ram: Ram
    const root: nat
    ghost const id: nat
    var regions: Slots
    var heapStart: nat
    var heapEnd: nat
    ghost var nodes: Nodes

    ghost predicate Valid()
      reads this, ram
    {
      && ram.Valid() && ram.own(0) == Kernel
      && ROOT in nodes && root == nodes[ROOT]
      && SpaceOk(ram.mem, ram.own, id, nodes, regions)
    }

    /** Every byte the space holds is in one of its tables, page frames or area blocks. */
    ghost predicate Tight()
      reads this, ram
    {
      NoStray(ram.own, id, regions)
    }

    /** All pages on the books: free ones, those behind the areas, and the tables. */
    ghost function Pages(): nat
      reads this, ram
    {
      ram.freePages + DataPages(regions) + |nodes|
    }

    /** A new space over an empty root table has no areas and no heap. */
    constructor (ram: Ram, root: nat, ghost id: nat, ghost nodes: Nodes)
      requires ram.Valid() && ram.own(0) == Kernel
      requires TableOk(ram.mem, ram.own, id, nodes) && nodes[ROOT] == root
      requires forall v: nat :: v < USER_PAGES ==> Leaf(ram.mem, nodes, v) == None
      ensures Valid() && this.ram == ram && this.root == root && this.id == id && this.nodes == nodes
      ensures heapStart == 0 && heapEnd == 0 && forall i :: 0 <= i < MAX_AREAS ==> regions[i].None?
      ensures (forall x :: Ours(ram.own(x), id) ==> ram.own(x).use.Table?) ==> Tight()
    {
      this.ram, this.root, this.id, this.nodes := ram, root, id, nodes;
      regions := seq(MAX_AREAS, _ => None);
      heapStart, heapEnd := 0, 0;
      new;
      hide ListsOk, TagsOk, Total, TableOk, Leaf;
    }

    /** A space over tables and areas built beforehand; it is well-formed if those are. */
    constructor Inherited(ram: Ram, root: nat, regions: Slots, heapStart: nat, heapEnd: nat,
                          ghost id: nat, ghost nodes: Nodes)
      ensures this.ram == ram && this.root == root && this.id == id && this.nodes == nodes
      ensures this.regions == regions && this.heapStart == heapStart && this.heapEnd == heapEnd
    {
      this.ram, this.root, this.id, this.nodes := ram, root, id, nodes;
      this.regions, this.heapStart, this.heapEnd := regions, heapStart, heapEnd;
    }

    /**
      Reserve pages without backing them. Succeeds exactly when the size is not zero,
      a slot is free and no area overlaps; then only that slot changes.
     */
    method MapLazy(virt: nat, size: nat, flags: PageFlags) returns (ok: bool)
      requires Valid() && flags.present && virt / 4096 + (size + 4095) / 4096 <= USER_PAGES
      modifies this`regions
      ensures Valid()
      ensures ok <==>
                && size != 0
                && FreeSlot(old(regions)) < MAX_AREAS
                && Vacant(old(regions), virt / 4096, virt / 4096 + (size + 4095) / 4096)
      ensures ok ==> LazyAdded(old(regions), regions, virt / 4096, (size + 4095) / 4096, flags)
      ensures !ok ==> regions == old(regions)
      ensures old(Tight()) ==> Tight()
      ensures Pages() == old(Pages())
    {
      hide SpaceOk, Vacant, ListsOk, TagsOk, Total, LazyAdded, FreeSlot, NoStray, SameHoldings, DataPages;
      if size == 0 { return false; }
      var slot := FirstFree(regions);
      if slot == MAX_AREAS { return false; }
      var first, n := virt / 4096, (size + 4095) / 4096;
      var vacant := IsVacant(regions, first, first + n);
      if !vacant { return false; }
      ghost var rs := regions;
      LazyCommit(ram.mem, ram.own, id, nodes, regions, slot, first, n, flags);
      DataUpdate(regions, slot, Some(LazyArea(first, n, flags)));
      regions := regions[slot := Some(LazyArea(first, n, flags))];
      LazyHoldings(rs, regions, first, n, flags);
      if NoStray(ram.own, id, rs) { StraySame(ram.own, id, rs, regions); }
      return true;
    }

    /**
      Map zeroed, contiguous memory. On success the area fills the first free slot,
      its pages map to consecutive frames and nothing else is translated differently;
      on failure, also after running out of memory half way, nothing is. It succeeds
      exactly when the range and a slot are free and the reachable pages pay for the
      block and for the page tables still missing. The processor then permits exactly
      the access asked for.
     */
    method Map(virt: nat, size: nat, flags: PageFlags) returns (ok: bool)
      requires Valid() && flags.present
      requires (size + 4095) / 4096 <= 1024 && virt / 4096 + (size + 4095) / 4096 <= USER_PAGES
      modifies this`regions, this`nodes, ram`mem, ram`heads, ram`freePages, ram`own, ram`lost
      ensures Valid()
      ensures Additive(id, old(ram.own), old(ram.mem), ram.own, ram.mem)
      ensures UpperHalfSame(root, old(ram.mem), ram.mem)
      ensures ok ==>
                && size != 0
                && Vacant(old(regions), virt / 4096, virt / 4096 + (size + 4095) / 4096)
                && EagerAdded(old(ram.mem), old(nodes), old(regions), ram.mem, nodes, regions, virt / 4096,
                              (size + 4095) / 4096, flags)
      ensures !ok ==> regions == old(regions) && SameLeavesBut(old(ram.mem), old(nodes), ram.mem, nodes, -1)
      ensures var first, n := virt / 4096, (size + 4095) / 4096;
              ok <==>
                && size != 0
                && FreeSlot(old(regions)) < MAX_AREAS
                && Vacant(old(regions), first, first + n)
                && Total(old(ram.heads)) >= Pow2(Order(n)) + Missing(old(nodes), RangeTables(first, n))
      ensures ok ==>
                var first, n := virt / 4096, (size + 4095) / 4096;
                && nodes.Keys == old(nodes).Keys + RangeTables(first, n)
                && Total(ram.heads) == Total(old(ram.heads)) - Pow2(Order(n)) - Missing(old(nodes),
                       RangeTables(first, n))
      ensures ok ==> OpenTo(ram.mem, root, virt / 4096, (size + 4095) / 4096,
                            Access(flags.user, flags.writable, flags.execute))
      ensures old(Tight()) ==> Tight()
      ensures Pages() == old(Pages())
    {
      hide SpaceOk, Vacant, ListsOk, TagsOk, Total, EagerAdded, Additive, UpperHalfSame, SameLeavesBut, Order,
        LeastOrder, NoStray, Missing, RangeTables, Pow2, DataPages, OpenTo;
      ghost var m0, n0, rs := ram.mem, nodes, regions;
      SpaceRefl(ram.mem, ram.own, id, nodes, regions);
      if size == 0 { return false; }
      var slot := FirstFree(regions);
      if slot == MAX_AREAS { return false; }
      var first, n := virt / 4096, (size + 4095) / 4096;
      var vacant := IsVacant(regions, first, first + n);
      if !vacant { return false; }
      var order := PagesToOrder(n);
      ok := MapBlock(slot, first, n, order, flags);
      if ok { EagerWalks(m0, n0, rs, ram.mem, ram.own, id, nodes, regions, first, n, flags); }
    }

    /** The part of `Map` that allocates, clears, maps and records a block, or rolls back. */
    method MapBlock(slot: nat, first: nat, n: nat, order: nat, flags: PageFlags) returns (ok: bool)
      requires Valid() && flags.present
      requires slot == FreeSlot(regions) < MAX_AREAS
      requires 0 < n <= 1024 && first + n <= USER_PAGES && Vacant(regions, first, first + n) && order == Order(n)
      modifies this`regions, this`nodes, ram`mem, ram`heads, ram`freePages, ram`own, ram`lost
      ensures Valid()
      ensures Additive(id, old(ram.own), old(ram.mem), ram.own, ram.mem)
      ensures UpperHalfSame(root, old(ram.mem), ram.mem)
      ensures ok ==> EagerAdded(old(ram.mem), old(nodes), old(regions), ram.mem, nodes, regions, first, n, flags)
      ensures !ok ==> regions == old(regions) && SameLeavesBut(old(ram.mem), old(nodes), ram.mem, nodes, -1)
      ensures ok <==> Total(old(ram.heads)) >= Pow2(order) + Missing(old(nodes), RangeTables(first, n))
      ensures ok ==>
                && nodes.Keys == old(nodes).Keys + RangeTables(first, n)
                && Total(ram.heads) == Total(old(ram.heads)) - Pow2(order) - Missing(old(nodes), RangeTables(first, n))
      ensures old(Tight()) ==> Tight()
      ensures Pages() == old(Pages())
    {
      hide SpaceOk, Vacant, ListsOk, TagsOk, Total, EagerAdded, Additive, UpperHalfSame, SameLeavesBut, Order,
        Aligned, Size, Granted, BlockHeld, LeavesMapped, TableStep, Returned, Inside, Leaf, NoStray, Missing,
        RangeTables, Pow2, DataPages;
      ghost var o0, m0, n0 := ram.own, ram.mem, nodes;
      SpaceRefl(m0, o0, id, n0, regions);
      OrderBound(n);
      var block := ram.Alloc(order, Held(id, Extent(slot)));
      if block.None? { return false; }
      var phys := block.value;
      GrantStep(id, o0, m0, ram.own, n0, regions, slot, first, n, phys);
      ram.mem := Clear(ram.mem, phys, 4096 * n);
      ok := MapCleared(slot, first, n, order, phys, flags, o0, m0);
    }

    method MapCleared(slot: nat, first: nat, n: nat, order: nat, phys: nat, flags: PageFlags,
                      ghost o0: Owners, ghost m0: Mem)
      returns (ok: bool)
      requires Valid() && flags.present && o0(0) == Kernel
      requires slot == FreeSlot(regions) < MAX_AREAS && regions[slot].None?
      requires 0 < n <= 1024 && first + n <= USER_PAGES && Vacant(regions, first, first + n) && order == Order(n)
      requires phys != 0 && phys % 4096 == 0 && phys + 4096 * n <= PHYS_LIMIT
               && BlockHeld(ram.own, id, slot, phys, order)
      requires forall x :: Inside(x, phys, order) ==> o0(x).Free?
      requires Granted(o0, ram.own, phys, order, Held(id, Extent(slot)))
      requires ram.mem == Clear(m0, phys, 4096 * n) && Additive(id, o0, m0, ram.own, ram.mem)
      requires SameLeavesBut(m0, nodes, ram.mem, nodes, -1) && UpperHalfSame(root, m0, ram.mem)
      requires forall w: nat :: first <= w < first + n ==> Leaf(ram.mem, nodes, w) == None
      modifies this`regions, this`nodes, ram`mem, ram`heads, ram`freePages, ram`own, ram`lost
      ensures Valid() && Additive(id, o0, m0, ram.own, ram.mem) && UpperHalfSame(root, m0, ram.mem)
      ensures ok ==> EagerAdded(m0, old(nodes), old(regions), ram.mem, nodes, regions, first, n, flags)
      ensures !ok ==> regions == old(regions) && SameLeavesBut(m0, old(nodes), ram.mem, nodes, -1)
      ensures ok <==> Total(old(ram.heads)) >= Missing(old(nodes), RangeTables(first, n))
      ensures ok ==>
                && nodes.Keys == old(nodes).Keys + RangeTables(first, n)
                && Total(ram.heads) == Total(old(ram.heads)) - Missing(old(nodes), RangeTables(first, n))
      ensures NoStray(o0, id, old(regions)) ==> Tight()
      ensures Pages() == old(Pages()) + Pow2(order)
    {
      hide Vacant, ListsOk, TagsOk, Total, EagerAdded, Additive, UpperHalfSame, SameLeavesBut, Order, FreeSlot,
        Aligned, Size, BlockHeld, LeavesMapped, TableStep, Returned, Inside, Leaf, TableOk, AreasOk, AgreeOutside,
        NoStray, Missing, RangeTables, Granted, InPlace, DataPages, Pow2;
      ghost var o1, m1, n0 := ram.own, ram.mem, nodes;
      ok, nodes := MapPages(ram, root, first, n, phys, Translate(flags), id, n0);
      if ok { NeedMet(old(ram.heads), n0, ram.heads, nodes, RangeTables(first, n)); }
      StepUpperHalf(id, m0, o1, m1, n0, ram.own, ram.mem, nodes);
      hide SpaceOk;
      if ok {
        MapDone(id, o0, m0, o1, m1, n0, regions, ram.own, ram.mem, nodes, slot, first, n, phys, flags);
        BlockTight(id, o0, o1, m1, n0, regions, ram.own, ram.mem, nodes, slot, first, n, phys, flags);
        DataUpdate(regions, slot, Some(EagerArea(first, n, phys, flags)));
        regions := regions[slot := Some(EagerArea(first, n, phys, flags))];
      } else {
        ghost var o2, h2 := ram.own, ram.heads;
        BlockReleasable(id, o1, m1, n0, o2, ram.mem, nodes, slot, phys, order);
        ghost var top := ram.Release(phys, order);
        MapUndone(id, o0, m0, o1, m1, n0, regions, o2, ram.mem, nodes, ram.own, slot, phys, order, h2[top], top);
        if NoStray(o0, id, regions) {
          StrayUndone(o0, o1, o2, ram.own, m1, ram.mem, n0, nodes, id, regions, phys, order, Extent(slot), h2[top],
                      top);
        }
      }
    }

    /**
      Demand paging. A fault on a reserved, unbacked page of a lazy area is given a
      zeroed frame of its own, exactly when the reachable pages pay for the frame and for
      the page tables still missing, and with the access its area stands for; any other
      fault, or running out of memory, changes no translation and no area.
     */
    method HandlePageFault(va: nat) returns (ok: bool)
      requires Valid()
      modifies this`regions, this`nodes, ram`mem, ram`heads, ram`freePages, ram`own, ram`lost
      ensures Valid()
      ensures Additive(id, old(ram.own), old(ram.mem), ram.own, ram.mem)
      ensures UpperHalfSame(root, old(ram.mem), ram.mem)
      ensures ok ==> FaultHandled(old(ram.mem), old(nodes), old(regions), ram.mem, nodes, regions, va / 4096)
      ensures !ok ==> regions == old(regions) && SameLeavesBut(old(ram.mem), old(nodes), ram.mem, nodes, -1)
      ensures var i := FindFrom(old(regions), va / 4096, 0);
              ok <==>
                && i < MAX_AREAS
                && Demandable(old(regions)[i].value, va / 4096)
                && Total(old(ram.heads)) >= 1 + Missing(old(nodes), PathTables(va / 4096))
      ensures ok ==>
                var f := old(regions)[FindFrom(old(regions), va / 4096, 0)].value.flags;
                Permits(HwWalk(ram.mem, root, va / 4096), Access(f.user, f.writable, f.execute))
      ensures old(Tight()) ==> Tight()
      ensures Pages() == old(Pages())
    {
      hide SpaceOk, ListsOk, TagsOk, Total, Additive, UpperHalfSame, SameLeavesBut, FaultHandled, Aligned, Size,
        Granted, FrameHeld, NoStray, Missing, PathTables, DataPages, Permits, HwWalk;
      assert Pow2(0) == 1;
      SpaceRefl(ram.mem, ram.own, id, nodes, regions);
      ghost var n0, rs := nodes, regions;
      var v := va / 4096;
      var i := Find(regions, v);
      if i == MAX_AREAS { return false; }
      var r := regions[i].value;
      if !r.lazy { return false; }
      var j := v - r.first;
      if j < |r.lazyPages| && r.lazyPages[j] != 0 { return false; }
      ghost var o0, m0 := ram.own, ram.mem;
      var p := ram.Alloc(0, Held(id, Page(v)));
      if p.None? { return false; }
      FrameStep(id, o0, m0, ram.own, nodes, regions, v, p.value);
      ram.mem := Clear(ram.mem, p.value, 4096);
      ok := MapFrame(i, v, p.value, o0, m0);
      if ok { FaultWalk(m0, n0, rs, ram.mem, ram.own, id, nodes, regions, v); }
    }

    /** Map and record the cleared frame, or release it. */
    method MapFrame(i: nat, v: nat, p: nat, ghost o0: Owners, ghost m0: Mem) returns (ok: bool)
      requires Valid() && o0(0) == Kernel
      requires i == FindFrom(regions, v, 0) < MAX_AREAS && Demandable(regions[i].value, v)
      requires p != 0 && p % 4096 == 0 && p < PHYS_LIMIT && FrameHeld(ram.own, id, p, v)
      requires forall x :: p <= x < p + 4096 ==> o0(x).Free?
      requires Granted(o0, ram.own, p, 0, Held(id, Page(v)))
      requires ram.mem == Clear(m0, p, 4096) && Additive(id, o0, m0, ram.own, ram.mem)
      requires SameLeavesBut(m0, nodes, ram.mem, nodes, -1) && UpperHalfSame(root, m0, ram.mem)
      modifies this`regions, this`nodes, ram`mem, ram`heads, ram`freePages, ram`own, ram`lost
      ensures Valid() && Additive(id, o0, m0, ram.own, ram.mem) && UpperHalfSame(root, m0, ram.mem)
      ensures ok ==> FaultHandled(m0, old(nodes), old(regions), ram.mem, nodes, regions, v)
      ensures !ok ==> regions == old(regions) && SameLeavesBut(m0, old(nodes), ram.mem, nodes, -1)
      ensures ok <==> Total(old(ram.heads)) >= Missing(old(nodes), PathTables(v))
      ensures NoStray(o0, id, old(regions)) ==> Tight()
      ensures Pages() == old(Pages()) + 1
    {
      hide SpaceOk, ListsOk, TagsOk, Total, Additive, UpperHalfSame, SameLeavesBut, FaultHandled, FrameHeld, Leaf,
        LeafEntry, TableStep, TableOk, AreasOk, AgreeOutside, Returned, Inside, Aligned, Size, NoStray, Missing,
        PathTables, Granted, InPlace, DataPages, Recorded;
      assert Pow2(0) == 1;
      PageInRange(ram.mem, ram.own, id, nodes, regions, i, v);
      SpaceAgrees(ram.mem, ram.own, id, nodes, regions);
      ghost var o1, m1, n0 := ram.own, ram.mem, nodes;
      var flags := regions[i].value.flags;
      ok, nodes := Map4k(ram, root, 4096 * v, p, Translate(flags), id, n0);
      StepUpperHalf(id, m0, o1, m1, n0, ram.own, ram.mem, nodes);
      if ok {
        FaultDone(id, o0, m0, o1, m1, n0, regions, ram.own, ram.mem, nodes, i, v, p);
        FrameTight(id, o0, o1, m1, n0, regions, ram.own, ram.mem, nodes, i, v, p);
        DataUpdate(regions, i, Some(FaultedIn(regions[i].value, v, p)));
        regions := regions[i := Some(FaultedIn(regions[i].value, v, p))];
      } else {
        ghost var o2, h2 := ram.own, ram.heads;
        FrameReleasable(id, o1, m1, n0, o2, ram.mem, nodes, p, v);
        ghost var top := ram.Release(p, 0);
        FaultUndone(id, o0, m0, o1, m1, n0, regions, o2, ram.mem, nodes, ram.own, v, p, h2[top], top);
        if NoStray(o0, id, regions) {
          StrayUndone(o0, o1, o2, ram.own, m1, ram.mem, n0, nodes, id, regions, p, 0, Page(v), h2[top], top);
        }
      }
    }

    /** Unmap page `w` of the lazy area in slot `i` and release its frame. */
    method DropPage(i: nat, w: nat)
      requires Valid() && i < MAX_AREAS && regions[i].Some? && Droppable(regions[i].value, w)
      modifies this`regions, ram`mem, ram`heads, ram`freePages, ram`own, ram`lost
      ensures Valid()
      ensures old(regions)[i].value.lazyCount > 0
      ensures regions == old(regions)[i := Some(Dropped(old(regions)[i].value, w))]
      ensures UnmapStep(id, old(ram.own), old(ram.mem), ram.own, ram.mem, nodes, w, w + 1)
      ensures Released(ram.own, old(regions)[i].value.lazyPages[w - old(regions)[i].value.first])
      ensures ExtentsKept(id, old(ram.own), ram.own, i)
      ensures old(Tight()) ==> Tight()
      ensures Pages() == old(Pages())
      ensures ram.heads ==
                ListsAfter(old(ram.heads), old(regions)[i].value.lazyPages[w - old(regions)[i].value.first], 0)
    {
      hide SpaceOk, ListsOk, TagsOk, Total, SameLeavesBut, FrameHeld, Leaf, TableStep, TableOk, AreasOk, AgreeOutside,
        Returned, Inside, Aligned, Size, UnmapStep, Spare, NoStray, Released, ExtentsKept, AreaOk, AreaHeld, Disjoint,
        DataPages, ListsAfter;
      assert Pow2(0) == 1;
      var r := regions[i].value;
      var p := r.lazyPages[w - r.first];
      ghost var o0, m0 := ram.own, ram.mem;
      PageInRange(m0, o0, id, nodes, regions, i, w);
      SpaceAgrees(m0, o0, id, nodes, regions);
      Unmap4k(ram, root, 4096 * w, id, nodes);
      DropCommit(id, o0, m0, nodes, regions, ram.mem, i, w);
      ReleaseFrame(id, o0, p, w);
      ghost var h0, rs := ram.heads, regions;
      ghost var top := ram.Release(p, 0);
      DropCount(r, w);
      DataUpdate(regions, i, Some(Dropped(r, w)));
      regions := regions[i := Some(Dropped(r, w))];
      SpaceAreas(m0, o0, id, nodes, rs);
      StrayDropped(id, o0, ram.own, rs, i, w, p, h0[top], top);
      DropDone(id, o0, m0, nodes, regions, ram.own, ram.mem, w, p, h0[top], top);
    }

    /** Drop every faulted-in page of [lo, hi) from the lazy area in slot `i`. */
    method EmptyLazy(i: nat, lo: nat, hi: nat)
      requires Valid() && i < MAX_AREAS && regions[i].Some? && regions[i].value.lazy
      requires regions[i].value.first <= lo <= hi <= regions[i].value.past
      modifies this`regions, ram`mem, ram`heads, ram`freePages, ram`own, ram`lost
      ensures Valid()
      ensures regions == old(regions)[i := Some(WithoutFrames(old(regions)[i].value, lo, hi))]
      ensures UnmapStep(id, old(ram.own), old(ram.mem), ram.own, ram.mem, nodes, lo, hi)
      ensures PagesReleased(ram.own, old(regions)[i].value, lo, hi) && ExtentsKept(id, old(ram.own), ram.own, i)
      ensures old(Tight()) ==> Tight()
      ensures Pages() == old(Pages()) && ram.heads == LazyLists(old(ram.heads), old(regions)[i].value, lo, hi)
    {
      hide SpaceOk, ListsOk, TagsOk, Total, UnmapStep, WithoutFrames, AreaOk, AreaHeld, Disjoint, NoStray, Released,
        Backing, DataPages, ListsAfter;
      ghost var o0, m0, rs := ram.own, ram.mem, regions;
      var r := regions[i].value;
      EmptyStart(id, o0, m0, nodes, rs, i, lo, hi);
      var w := lo;
      while w < hi && w - r.first < |r.lazyPages|
        invariant Valid() && lo <= w <= hi
        invariant regions == rs[i := Some(WithoutFrames(r, lo, w))]
        invariant UnmapStep(id, o0, m0, ram.own, ram.mem, nodes, lo, hi)
        invariant PagesReleased(ram.own, r, lo, w) && ExtentsKept(id, o0, ram.own, i)
        invariant old(Tight()) ==> Tight()
        invariant Pages() == old(Pages()) && ram.heads == LazyLists(old(ram.heads), r, lo, w)
        decreases hi - w
      {
        EmptyNext(i, lo, hi, w, r, rs, o0, m0, old(ram.heads));
        w := w + 1;
      }
      WithoutAll(r, lo, hi, w);
      LazyListsEnd(old(ram.heads), r, lo, w, hi);
      PagesReleasedAll(ram.own, r, lo, w, hi, lo, hi);
    }

    method EmptyNext(i: nat, lo: nat, hi: nat, w: nat, ghost r: Area, ghost rs: Slots,
                     ghost o0: Owners, ghost m0: Mem, ghost h0: Lists)
      requires Valid() && i < MAX_AREAS && r.lazy && r.first <= lo <= w < hi <= r.past && w - r.first < |r.lazyPages|
      requires regions == rs[i := Some(WithoutFrames(r, lo, w))]
      requires UnmapStep(id, o0, m0, ram.own, ram.mem, nodes, lo, hi)
      requires PagesReleased(ram.own, r, lo, w) && ExtentsKept(id, o0, ram.own, i)
      requires ram.heads == LazyLists(h0, r, lo, w)
      modifies this`regions, ram`mem, ram`heads, ram`freePages, ram`own, ram`lost
      ensures Valid()
      ensures regions == rs[i := Some(WithoutFrames(r, lo, w + 1))]
      ensures UnmapStep(id, o0, m0, ram.own, ram.mem, nodes, lo, hi)
      ensures PagesReleased(ram.own, r, lo, w + 1) && ExtentsKept(id, o0, ram.own, i)
      ensures old(Tight()) ==> Tight()
      ensures Pages() == old(Pages()) && ram.heads == LazyLists(h0, r, lo, w + 1)
    {
      hide SpaceOk, ListsOk, TagsOk, Total, UnmapStep, WithoutFrames, Dropped, Droppable, NoStray, Released,
        PagesReleased, ExtentsKept, DataPages, ListsAfter, LazyLists;
      WithoutNext(r, lo, w);
      LazyListsNext(h0, r, lo, w);
      ghost var o1, m1 := ram.own, ram.mem;
      if regions[i].value.lazyPages[w - regions[i].value.first] != 0 {
        DropPage(i, w);
        UnmapStepTrans(id, o0, m0, o1, m1, ram.own, ram.mem, nodes, lo, hi, w, w + 1);
        StepKeepsReleased(id, o1, m1, ram.own, ram.mem, nodes, w, w + 1, r, lo, w);
        ExtentsKeptTrans(id, o0, o1, ram.own, i);
      }
      LazyReleasedNext(ram.own, r, lo, w);
    }

    method UnmapLazySlot(i: nat, lo: nat, hi: nat)
      requires Valid() && i < MAX_AREAS && regions[i].Some? && regions[i].value.lazy
      requires var r := regions[i].value; r.first <= lo <= hi <= r.past && (lo == r.first || hi == r.past)
      modifies this`regions, ram`mem, ram`heads, ram`freePages, ram`own, ram`lost
      ensures Valid()
      ensures regions == old(regions)[i := Reshaped(WithoutFrames(old(regions)[i].value, lo, hi), lo, hi)]
      ensures UnmapStep(id, old(ram.own), old(ram.mem), ram.own, ram.mem, nodes, lo, hi)
      ensures PagesReleased(ram.own, old(regions)[i].value, lo, hi) && ExtentsKept(id, old(ram.own), ram.own, i)
      ensures old(Tight()) ==> Tight()
      ensures Pages() == old(Pages()) && ram.heads == LazyLists(old(ram.heads), old(regions)[i].value, lo, hi)
    {
      hide SpaceOk, ListsOk, TagsOk, Total, UnmapStep, Reshaped, Unbacked, NoStray, PagesReleased, ExtentsKept, PageOf,
        SameHoldings, DataPages, LazyLists;
      var r := regions[i].value;
      ReshapedPages(ram.mem, ram.own, id, nodes, regions, i, lo, hi);
      EmptyLazy(i, lo, hi);
      WithoutAll(r, lo, hi, hi);
      LazyReshape(id, ram.own, ram.mem, nodes, regions, i, lo, hi);
      ghost var rs := regions;
      DataUpdate(regions, i, Reshaped(regions[i].value, lo, hi));
      regions := regions[i := Reshaped(regions[i].value, lo, hi)];
      LazyReplaced(rs, regions, i, regions[i]);
      if NoStray(ram.own, id, rs) { StraySame(ram.own, id, rs, regions); }
    }

    method UnmapEagerSlot(i: nat, lo: nat, hi: nat)
      requires Valid() && i < MAX_AREAS && regions[i].Some? && !regions[i].value.lazy
      requires var r := regions[i].value; r.first <= lo < hi <= r.past && (lo == r.first || hi == r.past)
                                          && (lo == r.first && hi < r.past ==>
                                              (hi - r.first) % Pow2(Order(r.past - hi)) == 0)
      modifies this`regions, ram`mem, ram`heads, ram`freePages, ram`own, ram`lost
      ensures Valid()
      ensures regions == old(regions)[i := Reshaped(old(regions)[i].value, lo, hi)]
      ensures UnmapStep(id, old(ram.own), old(ram.mem), ram.own, ram.mem, nodes, lo, hi)
      ensures var r := old(regions)[i].value;
              && (if lo == r.first && hi == r.past then BlockReleased(ram.own, r)
                  else BlockHeld(ram.own, id, i, r.phys, Order(NPages(r))))
              && (old(Tight()) && !Leaks(r, lo, hi) ==> Tight())
      ensures ExtentsKept(id, old(ram.own), ram.own, i)
      ensures var r := old(regions)[i].value;
              if lo == r.first && hi == r.past then
                && Order(NPages(r)) < MAX_ORDER && ram.heads == ListsAfter(old(ram.heads), r.phys, Order(NPages(r)))
                && Pages() == old(Pages())
              else
                && ram.heads == old(ram.heads)
                && Pages() == old(Pages()) - SlotPages(Some(r)) + SlotPages(Reshaped(r, lo, hi))
    {
      hide SpaceOk, ListsOk, TagsOk, Total, UnmapStep, Order, TableOk, AreasOk, AgreeOutside, TableStep, LeavesCleared,
        Pow2, BlockHeld, Returned, Inside, Aligned, Size, NoStray, BlockReleased, DataPages, ListsAfter;
      var r := regions[i].value;
      ghost var o0, m0 := ram.own, ram.mem;
      AreaBounds(m0, o0, id, nodes, regions, i);
      SpaceAgrees(m0, o0, id, nodes, regions);
      BlockOf(id, o0, m0, nodes, regions, i);
      UnmapPages(ram, root, lo, hi - lo, id, nodes);
      EagerStep(id, o0, m0, nodes, ram.mem, lo, hi);
      EagerReshape(id, o0, m0, nodes, regions, ram.mem, i, lo, hi);
      ghost var rs := regions;
      DataUpdate(regions, i, Reshaped(r, lo, hi));
      regions := regions[i := Reshaped(r, lo, hi)];
      if lo == r.first && hi == r.past {
        var order := PagesToOrder(r.past - r.first);
        ghost var h0, m1 := ram.heads, ram.mem;
        ghost var top := ram.Release(r.phys, order);
        BlockDropped(id, o0, m1, nodes, regions, ram.own, i, r.phys, order, h0[top], top);
        UnmapStepTrans(id, o0, m0, o0, m1, ram.own, m1, nodes, lo, hi, lo, lo);
        StrayWhole(o0, ram.own, id, rs, i, order, h0[top], top);
      } else if NoStray(o0, id, rs) && !Leaks(r, lo, hi) {
        StrayCut(o0, id, rs, i, lo);
      }
    }

    method UnmapSlot(i: nat, v: nat, end: nat)
      requires Valid() && i < MAX_AREAS && v < end && regions[i].Some?
      requires Overlaps(regions[i].value, v, end) && Trimmable(regions[i].value, v, end)
      modifies this`regions, ram`mem, ram`heads, ram`freePages, ram`own, ram`lost
      ensures Valid() && old(regions)[i].value.first <= old(regions)[i].value.past
      ensures regions == old(regions)[i := TrimSlot(old(regions)[i], v, end)]
      ensures UnmapStep(id, old(ram.own), old(ram.mem), ram.own, ram.mem, nodes, v, end)
      ensures GivenBack(ram.own, id, i, old(regions)[i], v, end) && ExtentsKept(id, old(ram.own), ram.own, i)
      ensures old(Tight()) && !Leaky(old(regions)[i].value, v, end) ==> Tight()
      ensures Pages() == old(Pages()) - SlotWaste(old(regions)[i], v, end)
      ensures ram.heads == SlotLists(old(ram.heads), old(regions)[i], v, end)
    {
      hide SpaceOk, ListsOk, TagsOk, Total, UnmapStep, Reshaped, Trimmable, Pow2, Order, NoStray, PagesReleased,
        BlockReleased, BlockHeld, ExtentsKept, Leaks, DataPages, ListsAfter, LazyLists, SlotPages;
      var r := regions[i].value;
      ghost var o0, m0 := ram.own, ram.mem;
      AreaBounds(m0, o0, id, nodes, regions, i);
      OverlapBounds(r, v, end);
      UnmapStepRefl(id, o0, m0, nodes, v, end);
      var lo, hi := Max(v, r.first), Min(end, r.past);
      if r.lazy {
        UnmapLazySlot(i, lo, hi);
        PagesReleasedAll(ram.own, r, lo, hi, hi, v, end);
      } else {
        ReshapedNone(r, lo, hi);
        UnmapEagerSlot(i, lo, hi);
      }
      UnmapStepTrans(id, o0, m0, o0, m0, ram.own, ram.mem, nodes, v, end, lo, hi);
    }

    /**
      Unmap the pages that [virt, virt + len) touches. Afterwards none of them is
      covered and every other page keeps its area, frame and leaf entry. The frames of
      removed lazy pages and the blocks of wholly removed eager areas are back with the
      allocator; a cut eager area gives back nothing, and a space that held nothing it
      did not use still does exactly when no eager area was cut wastefully.
     */
    method UnmapRange(virt: nat, len: nat)
      requires Valid() && len + 4095 < W64
      requires len != 0 ==> forall k :: 0 <= k < MAX_AREAS && regions[k].Some? ==>
                 Trimmable(regions[k].value, virt / 4096, virt / 4096 + (len + 4095) / 4096)
      modifies this`regions, ram`mem, ram`heads, ram`freePages, ram`own, ram`lost
      ensures Valid()
      ensures var v, end := virt / 4096, virt / 4096 + (len + 4095) / 4096;
              && UnmapStep(id, old(ram.own), old(ram.mem), ram.own, ram.mem, nodes, v, end)
              && (if v == end || 4096 * end >= W64 then regions == old(regions) && ram.mem == old(ram.mem)
                  && ram.own == old(ram.own) else
                    && Trimmed(old(regions), regions, v, end)
                    && forall w: nat ::
                         && PageOf(regions, w) == (if v <= w < end then None else PageOf(old(regions), w))
                         && (Covered(regions, w) <==> Covered(old(regions), w) && !(v <= w < end)))
      ensures var v, end := virt / 4096, virt / 4096 + (len + 4095) / 4096;
              v < end && 4096 * end < W64 ==>
                && (forall k :: 0 <= k < MAX_AREAS ==> GivenBack(ram.own, id, k, old(regions)[k], v, end))
                && (old(Tight()) ==> (Tight() <==> NoLeak(old(regions), v, end)))
      ensures var v, end := virt / 4096, virt / 4096 + (len + 4095) / 4096;
              if v == end || 4096 * end >= W64 then
                ram.heads == old(ram.heads) && Pages() == old(Pages())
              else
                && (forall k :: 0 <= k < MAX_AREAS && old(regions)[k].Some? ==>
                      old(regions)[k].value.first <= old(regions)[k].value.past)
                && ram.heads == UnmapLists(old(ram.heads), old(regions), v, end, MAX_AREAS)
                && Pages() == old(Pages()) - Waste(old(regions), v, end, MAX_AREAS)
                && Waste(old(regions), v, end, MAX_AREAS) >= 0
                && (Waste(old(regions), v, end, MAX_AREAS) == 0 <==> NoLeak(old(regions), v, end))
    {
      hide SpaceOk, ListsOk, TagsOk, Total, UnmapStep, TrimSlot, Trimmable, PageOf, Covered, FindFrom, Overlaps,
        NoStray, GivenBack, Leaky, NoLeak, DataPages, SlotLists, SlotWaste;
      var v, end := virt / 4096, virt / 4096 + (len + 4095) / 4096;
      ghost var o0, m0, rs := ram.own, ram.mem, regions;
      UnmapStepRefl(id, o0, m0, nodes, v, end);
      if len == 0 || 4096 * end >= W64 { return; }
      AreaRanges(m0, o0, id, nodes, rs);
      for i := 0 to MAX_AREAS
        invariant Valid()
        invariant UnmapStep(id, o0, m0, ram.own, ram.mem, nodes, v, end)
        invariant forall k :: 0 <= k < MAX_AREAS ==> regions[k] == if k < i then TrimSlot(rs[k], v, end) else rs[k]
        invariant forall k :: 0 <= k < i ==> GivenBack(ram.own, id, k, rs[k], v, end)
        invariant NoStray(o0, id, rs) && NoLeak(rs, v, end) ==> Tight()
        invariant ram.heads == UnmapLists(old(ram.heads), rs, v, end, i)
        invariant Pages() == old(Pages()) - Waste(rs, v, end, i)
      {
        UnmapNext(i, v, end, rs, o0, m0);
      }
      WasteLeaks(m0, o0, id, nodes, rs, v, end);
      UnmapResult(m0, o0, ram.mem, ram.own, id, nodes, rs, regions, v, end);
      if NoStray(o0, id, rs) { UnmapTight(ram.own, id, m0, o0, nodes, rs, regions, v, end); }
    }

    method UnmapNext(i: nat, v: nat, end: nat, ghost rs: Slots, ghost o0: Owners, ghost m0: Mem)
      requires Valid() && i < MAX_AREAS && v < end && regions[i] == rs[i]
      requires regions[i].Some? ==>
                 Trimmable(regions[i].value, v, end) && regions[i].value.first <= regions[i].value.past
      requires UnmapStep(id, o0, m0, ram.own, ram.mem, nodes, v, end)
      requires forall k :: 0 <= k < i ==> GivenBack(ram.own, id, k, rs[k], v, end)
      requires NoStray(o0, id, rs) && NoLeak(rs, v, end) ==> Tight()
      modifies this`regions, ram`mem, ram`heads, ram`freePages, ram`own, ram`lost
      ensures Valid()
      ensures UnmapStep(id, o0, m0, ram.own, ram.mem, nodes, v, end)
      ensures regions == old(regions)[i := TrimSlot(rs[i], v, end)]
      ensures forall k :: 0 <= k <= i ==> GivenBack(ram.own, id, k, rs[k], v, end)
      ensures NoStray(o0, id, rs) && NoLeak(rs, v, end) ==> Tight()
      ensures rs[i].Some? ==> rs[i].value.first <= rs[i].value.past
      ensures Pages() == old(Pages()) - SlotWaste(rs[i], v, end)
      ensures ram.heads == SlotLists(old(ram.heads), rs[i], v, end)
    {
      hide SpaceOk, ListsOk, TagsOk, Total, UnmapStep, Trimmable, Reshaped, NoStray, GivenBack, ExtentsKept, Leaky,
        DataPages, ListsAfter, LazyLists, SlotPages;
      ghost var o1, m1 := ram.own, ram.mem;
      if regions[i].Some? && Overlaps(regions[i].value, v, end) {
        UnmapSlot(i, v, end);
        UnmapStepTrans(id, o0, m0, o1, m1, ram.own, ram.mem, nodes, v, end, v, end);
        StepKeepsGivenBack(id, o1, m1, ram.own, ram.mem, nodes, rs, i, v, end);
      } else {
        NothingToGive(ram.own, id, i, rs[i], v, end);
      }
    }

    /** Remap page `w` of area `i` with the new flags if it is backed and in range; this cannot fail. */
    method ProtectOne(i: nat, w: nat, v: nat, end: nat, f: PageFlags, ghost rs: Slots, ghost o0: Owners, ghost m0: Mem,
                      ghost n0: Nodes)
      requires Valid() && f.present && i < MAX_AREAS && regions[i].Some? && Covers(regions[i].value, w)
      requires Protecting(id, o0, m0, n0, rs, ram.own, ram.mem, nodes, regions, f, v, end, i, w)
      modifies this`nodes, ram`mem, ram`heads, ram`freePages, ram`own
      ensures Valid()
      ensures Protecting(id, o0, m0, n0, rs, ram.own, ram.mem, nodes, regions, f, v, end, i, w + 1)
      ensures ram.freePages + |nodes| == old(ram.freePages + |nodes|)
    {
      hide SpaceOk, ListsOk, TagsOk, Total, Protecting, TableOk, AreasOk, AgreeOutside, TableStep, Leaf, LeafEntry,
        SameLeavesBut, Disjoint, AreaOk, AreaHeld, FindFrom, UpperHalfSame;
      ghost var o1, m1, n1 := ram.own, ram.mem, nodes;
      SpaceAgrees(m1, o1, id, n1, regions);
      SpaceAreas(m1, o1, id, n1, regions);
      FindUnique(regions, i, w);
      var backing := Backing(regions[i].value, w);
      if v <= w < end && backing.Some? {
        BackedPage(m1, o1, id, n1, regions, w, i);
        UpperSame(id, m1, n1);
        var ok;
        ok, nodes := Map4k(ram, root, 4096 * w, backing.value, Translate(f), id, n1);
        StepUpperHalf(id, m1, o1, m1, n1, ram.own, ram.mem, nodes);
        ProtectPage(id, o0, m0, n0, rs, o1, m1, n1, regions, ram.own, ram.mem, nodes, f, v, end, i, w);
        ProtectingSpace(id, o0, m0, n0, rs, ram.own, ram.mem, nodes, regions, f, v, end, i, w + 1);
      } else {
        ProtectSkip(id, o0, m0, n0, rs, o1, m1, n1, regions, f, v, end, i, w);
      }
    }

    /** Give the area in slot `i` the new flags and remap its backed pages in range. */
    method ProtectSlot(i: nat, v: nat, end: nat, f: PageFlags, ghost rs: Slots, ghost o0: Owners, ghost m0: Mem,
                       ghost n0: Nodes)
      returns (changed: bool)
      requires Valid() && f.present && i < MAX_AREAS && regions[i] == rs[i]
      requires Protecting(id, o0, m0, n0, rs, ram.own, ram.mem, nodes, regions, f, v, end, i, 0)
      modifies this`regions, this`nodes, ram`mem, ram`heads, ram`freePages, ram`own
      ensures Valid()
      ensures changed <==> rs[i].Some? && Overlaps(rs[i].value, v, end)
      ensures regions == old(regions)[i := ReflagSlot(rs[i], v, end, f)]
      ensures Protecting(id, o0, m0, n0, rs, ram.own, ram.mem, nodes, regions, f, v, end, i + 1, 0)
      ensures Pages() == old(Pages())
    {
      hide SpaceOk, ListsOk, TagsOk, Total, Protecting, DataPages;
      changed := regions[i].Some? && Overlaps(regions[i].value, v, end);
      if !changed {
        ProtectNext(id, o0, m0, n0, rs, ram.own, ram.mem, nodes, regions, f, v, end, i, 0);
        return;
      }
      var r := regions[i].value;
      AreaBounds(ram.mem, ram.own, id, nodes, regions, i);
      ProtectArea(id, o0, m0, n0, rs, ram.own, ram.mem, nodes, regions, f, v, end, i);
      DataUpdate(regions, i, Some(r.(flags := f)));
      regions := regions[i := Some(r.(flags := f))];
      ProtectingSpace(id, o0, m0, n0, rs, ram.own, ram.mem, nodes, regions, f, v, end, i, r.first);
      ProtectPages(i, v, end, f, rs, o0, m0, n0);
      ProtectNext(id, o0, m0, n0, rs, ram.own, ram.mem, nodes, regions, f, v, end, i, r.past);
    }

    method ProtectPages(i: nat, v: nat, end: nat, f: PageFlags, ghost rs: Slots, ghost o0: Owners, ghost m0: Mem,
                        ghost n0: Nodes)
      requires Valid() && f.present && i < MAX_AREAS && regions[i].Some?
               && regions[i].value.first <= regions[i].value.past
      requires Protecting(id, o0, m0, n0, rs, ram.own, ram.mem, nodes, regions, f, v, end, i, regions[i].value.first)
      modifies this`nodes, ram`mem, ram`heads, ram`freePages, ram`own
      ensures Valid()
      ensures Protecting(id, o0, m0, n0, rs, ram.own, ram.mem, nodes, regions, f, v, end, i, regions[i].value.past)
      ensures ram.freePages + |nodes| == old(ram.freePages + |nodes|)
    {
      hide SpaceOk, ListsOk, TagsOk, Total, Protecting;
      var r := regions[i].value;
      for w := r.first to r.past
        invariant Valid()
        invariant Protecting(id, o0, m0, n0, rs, ram.own, ram.mem, nodes, regions, f, v, end, i, w)
        invariant ram.freePages + |nodes| == old(ram.freePages + |nodes|)
      {
        ProtectOne(i, w, v, end, f, rs, o0, m0, n0);
      }
    }

    /**
      Change the protection of the pages that [addr, addr + len) touches. Write together
      with execute is refused. Otherwise every backed page in range keeps its frame, and the
      processor lets user code write it if and only if `write` and execute it if and only
      if `exec`; no other page changes, and no area moves.
     */
    method Mprotect(addr: nat, len: nat, write: bool, exec: bool) returns (changed: bool)
      requires Valid() && len + 4095 < W64
      modifies this`regions, this`nodes, ram`mem, ram`heads, ram`freePages, ram`own
      ensures Valid()
      ensures Additive(id, old(ram.own), old(ram.mem), ram.own, ram.mem)
      ensures UpperHalfSame(root, old(ram.mem), ram.mem)
      ensures old(Tight()) ==> Tight()
      ensures Pages() == old(Pages())
      ensures var v, end, f := addr / 4096, addr / 4096 + (len + 4095) / 4096, ProtFlags(write, exec);
              if (write && exec) || 4096 * end >= W64
              then !changed && regions == old(regions) && nodes == old(nodes) && ram.mem == old(ram.mem)
              else
                && (changed <==>
                    exists k :: 0 <= k < MAX_AREAS && old(regions)[k].Some? && Overlaps(old(regions)[k].value, v, end))
                && (forall k :: 0 <= k < MAX_AREAS ==> regions[k] == ReflagSlot(old(regions)[k], v, end, f))
                && Protected(old(ram.mem), old(nodes), old(regions), ram.mem, nodes, Translate(f), v, end)
                && (forall w: nat ::
                      && PageOf(regions, w) == PageOf(old(regions), w)
                      && (Covered(regions, w) <==> Covered(old(regions), w)))
                && (forall w: nat :: w < USER_PAGES ==>
                      if v <= w < end && PageOf(regions, w).Some?
                      then Permits(HwWalk(ram.mem, root, w), Access(true, write, exec))
                      else HwWalk(ram.mem, root, w) == HwWalk(old(ram.mem), root, w))
    {
      hide SpaceOk, ListsOk, TagsOk, Total, Protecting, Additive, UpperHalfSame, Protected, PageOf, Covered, FindFrom,
        NoStray, DataPages, Permits, HwWalk;
      ghost var o0, m0, n0, rs := ram.own, ram.mem, nodes, regions;
      SpaceRefl(m0, o0, id, n0, rs);
      changed := false;
      if write && exec { return; }
      var v, end := addr / 4096, addr / 4096 + (len + 4095) / 4096;
      if 4096 * end >= W64 { return; }
      var f := ProtFlags(write, exec);
      ProtectStart(id, o0, m0, n0, rs, f, v, end);
      for i := 0 to MAX_AREAS
        invariant Valid()
        invariant forall k :: 0 <= k < MAX_AREAS ==> regions[k] == if k < i then ReflagSlot(rs[k], v, end, f) else rs[k]
        invariant changed <==> exists k :: 0 <= k < i && rs[k].Some? && Overlaps(rs[k].value, v, end)
        invariant Protecting(id, o0, m0, n0, rs, ram.own, ram.mem, nodes, regions, f, v, end, i, 0)
        invariant Pages() == old(Pages())
      {
        var hit := ProtectSlot(i, v, end, f, rs, o0, m0, n0);
        changed := changed || hit;
      }
      ProtectDone(id, o0, m0, n0, rs, ram.own, ram.mem, nodes, regions, f, v, end);
      ProtectTight(id, o0, m0, n0, rs, ram.own, ram.mem, nodes, regions, f, v, end);
      ProtectedWalks(m0, o0, n0, rs, ram.mem, ram.own, id, nodes, regions, f, Access(true, write, exec), v, end);
    }

    /** The break in force: the end of the heap, or its start before the first request. */
    function CurrentBreak(): nat
      reads this
    {
      if heapEnd != 0 then heapEnd else heapStart
    }

    /**
      Move the program break. The request is rounded up to pages; the answer is the new
      break on success and the old one otherwise. Growing reserves unbacked pages,
      shrinking unmaps exactly the pages given up and releases their frames.
     */
    method Brk(newEnd: nat) returns (brk: nat)
      requires Valid() && (newEnd + 4095) / 4096 <= USER_PAGES
               && heapStart / 4096 + HeapPages(heapStart, (newEnd + 4095) / 4096) <= USER_PAGES
      requires newEnd != 0 && heapStart != 0 && HeapSlot(regions, heapStart) < MAX_AREAS ==>
                 && regions[HeapSlot(regions, heapStart)].value.lazy
                 && 4096 * ((newEnd + 4095) / 4096) >= heapStart
      modifies this`regions, this`heapEnd, ram`mem, ram`heads, ram`freePages, ram`own, ram`lost
      ensures Valid()
      ensures regions == AfterBrk(old(regions), heapStart, newEnd)
      ensures var c := BrkOutcome(old(regions), heapStart, newEnd); var end := (newEnd + 4095) / 4096;
              && brk == (if !c.Unchanged? then 4096 * end else if old(heapEnd) != 0 then old(heapEnd) else heapStart)
              && heapEnd == (if c.Unchanged? || c.NoOp? then old(heapEnd) else 4096 * end)
              && (c.Shrunk? ==>
                    var past := old(regions)[HeapSlot(old(regions), heapStart)].value.past;
                    && UnmapStep(id, old(ram.own), old(ram.mem), ram.own, ram.mem, nodes, end, past)
                    && PagesReleased(ram.own, old(regions)[HeapSlot(old(regions), heapStart)].value, end, past)
                    && forall w: nat :: PageOf(regions, w) == if end <= w < past then None else PageOf(old(regions), w))
              && (!c.Shrunk? ==>
                    && ram.mem == old(ram.mem) && ram.own == old(ram.own)
                    && forall w: nat :: PageOf(regions, w) == PageOf(old(regions), w))
      ensures old(Tight()) ==> Tight()
      ensures Pages() == old(Pages())
    {
      hide SpaceOk, ListsOk, TagsOk, Total, UnmapStep, Vacant, OthersClear, PageOf, HeapSlot, FreeSlot, WithoutFrames,
        LazyAdded, NoStray, PagesReleased, SameHoldings, DataPages;
      brk := CurrentBreak();
      if newEnd == 0 || heapStart == 0 { return; }
      var end := (newEnd + 4095) / 4096;
      var i := FindHeap(regions, heapStart);
      if i == MAX_AREAS {
        brk := CreateHeap(end);
        return;
      }
      var past := regions[i].value.past;
      if end == past {
        return 4096 * end;
      }
      if end > past {
        var clear := AreOthersClear(regions, i, past, end);
        if !clear { return; }
        ghost var rs := regions;
        DataUpdate(regions, i, Some(regions[i].value.(past := end)));
        regions := regions[i := Some(regions[i].value.(past := end))];
        LazyGrow(id, ram.own, ram.mem, nodes, rs, regions, i, end);
        LazyReplaced(rs, regions, i, regions[i]);
        if NoStray(ram.own, id, rs) { StraySame(ram.own, id, rs, regions); }
      } else {
        ShrinkHeap(i, end);
      }
      heapEnd := 4096 * end;
      return 4096 * end;
    }

    method CreateHeap(end: nat) returns (brk: nat)
      requires Valid() && heapStart != 0 && heapStart / 4096 + HeapPages(heapStart, end) <= USER_PAGES
      modifies this`regions, this`heapEnd
      ensures Valid()
      ensures var n := HeapPages(heapStart, end);
              if 4096 * end <= heapStart || FreeSlot(old(regions)) == MAX_AREAS
                 || !Vacant(old(regions), heapStart / 4096, heapStart / 4096 + n)
              then regions == old(regions) && heapEnd == old(heapEnd) && brk == CurrentBreak()
              else
                && FreeSlot(old(regions)) < MAX_AREAS
                && regions == old(regions)[FreeSlot(old(regions)) := Some(LazyArea(heapStart / 4096, n, HEAP_FLAGS))]
                && heapEnd == 4096 * end == brk
      ensures forall w: nat :: PageOf(regions, w) == PageOf(old(regions), w)
      ensures old(Tight()) ==> Tight()
      ensures Pages() == old(Pages())
    {
      hide SpaceOk, ListsOk, TagsOk, Total, Vacant, PageOf, Covered, NoStray, DataPages;
      brk := CurrentBreak();
      if 4096 * end <= heapStart { return; }
      var ok := MapLazy(heapStart, 4096 * end - heapStart, HEAP_FLAGS);
      if ok {
        heapEnd := 4096 * end;
        brk := 4096 * end;
      }
    }

    /** Unmap and release the heap pages from page `end` on, then end the area there. */
    method ShrinkHeap(i: nat, end: nat)
      requires Valid() && i < MAX_AREAS && regions[i].Some? && regions[i].value.lazy
      requires regions[i].value.first <= end < regions[i].value.past
      modifies this`regions, ram`mem, ram`heads, ram`freePages, ram`own, ram`lost
      ensures Valid()
      ensures var r := old(regions)[i].value;
              && regions == old(regions)[i := Some(WithoutFrames(r, end, r.past).(past := end))]
              && UnmapStep(id, old(ram.own), old(ram.mem), ram.own, ram.mem, nodes, end, r.past)
              && PagesReleased(ram.own, r, end, r.past)
              && forall w: nat :: PageOf(regions, w) == if end <= w < r.past then None else PageOf(old(regions), w)
      ensures old(Tight()) ==> Tight()
      ensures Pages() == old(Pages())
    {
      hide SpaceOk, ListsOk, TagsOk, Total, UnmapStep, PageOf, Unbacked, NoStray, PagesReleased, SameHoldings,
        DataPages, LazyLists;
      var r := regions[i].value;
      ghost var rs, m0, o0 := regions, ram.mem, ram.own;
      EmptyLazy(i, end, r.past);
      WithoutAll(r, end, r.past, r.past);
      WithoutPages(m0, o0, id, nodes, rs, regions, i, end, r.past);
      ghost var rs1 := regions;
      DataUpdate(regions, i, Some(regions[i].value.(past := end)));
      regions := regions[i := Some(regions[i].value.(past := end))];
      LazyShrink(id, ram.own, ram.mem, nodes, rs1, regions, i, end);
      LazyReplaced(rs1, regions, i, regions[i]);
      if NoStray(ram.own, id, rs1) { StraySame(ram.own, id, rs1, regions); }
    }
  }
}
