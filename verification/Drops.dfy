/**
  Dropping an address space: every frame behind its areas, and its root table, go
  back to the allocator. (Tables below the root are not freed by the source.)
 */
module Drops {
  import opened Words
  import opened Buddy
  import opened Paging
  import opened Areas
  import opened Space
  import opened Steps
  import opened Faults
  import opened Unmaps
  import opened Strays
  import opened Costs

  ghost predicate BlockAccounted(own: Owners, was: Option<Area>, now: Option<Area>)
  {
    was.Some? && !was.value.lazy ==> now == was || BlockReleased(own, was.value)
  }

  /** Every frame of `rs` is either still behind its page in `cur` or released. */
  ghost predicate Accounted(own: Owners, rs: Slots, cur: Slots)
  {
    && (forall w: nat {:trigger PageOf(rs, w)} :: PageOf(rs, w).Some? ==>
          PageOf(cur, w) == PageOf(rs, w) || Released(own, PageOf(rs, w).value))
    && (forall k :: 0 <= k < MAX_AREAS ==> BlockAccounted(own, rs[k], cur[k]))
  }

  lemma ReleasedStable(own: Owners, own': Owners, a: nat, o: nat, d: Option<nat>, top: nat, p: nat)
    requires Returned(own, own', a, o, d, top) && Released(own, p)
    ensures Released(own', p)
  {
    hide Inside;
  }

  lemma BlocksStable(own: Owners, own': Owners, a: nat, o: nat, d: Option<nat>, top: nat, rs: Slots, cur: Slots,
                     cur': Slots, i: nat)
    requires Returned(own, own', a, o, d, top) && Accounted(own, rs, cur) && i < MAX_AREAS && cur[i].Some?
    requires forall k :: 0 <= k < MAX_AREAS && k != i ==> cur'[k] == cur[k]
    requires !cur[i].value.lazy ==> a == cur[i].value.phys && o == Order(NPages(cur[i].value))
    ensures forall k :: 0 <= k < MAX_AREAS ==> BlockAccounted(own', rs[k], cur'[k])
  {
    hide Inside, PageOf, Released, Order;
    forall k | 0 <= k < MAX_AREAS
      ensures BlockAccounted(own', rs[k], cur'[k])
    {
      assert BlockAccounted(own, rs[k], cur[k]);
    }
  }

  /** Areas survive giving up a page that is already dropped from the books. */
  lemma DropFrame(id: nat, own: Owners, cur: Slots, own': Owners, i: nat, v: nat, d: Option<nat>, top: nat)
    requires AreasOk(own, id, cur) && i < MAX_AREAS && cur[i].Some? && Droppable(cur[i].value, v)
    requires Returned(own, own', cur[i].value.lazyPages[v - cur[i].value.first], 0, d, top)
    ensures cur[i].value.lazyCount > 0 && AreasOk(own', id, cur[i := Some(Dropped(cur[i].value, v))])
    ensures Released(own', cur[i].value.lazyPages[v - cur[i].value.first])
  {
    var r := cur[i].value;
    var p := r.lazyPages[v - r.first];
    var t := Held(id, Page(v));
    assert AreaOk(r) && AreaHeld(own, id, i, r);
    DroppedOk(own, id, i, r, v);
    FrameIsBlock(own, id, p, v);
    assert forall x :: Inside(x, p, 0) <==> p <= x < p + 4096;
    ReturnKeeps(own, own', p, 0, d, top, t);
    hide AreaOk, AreaHeld, Inside, FrameHeld;
    AreaReplaced(own, id, cur, i, Dropped(r, v));
    DroppedPageOf(cur, i, v, v);
    hide Returned, Dropped, Droppable, PageOf;
    PageSpare(id, cur[i := Some(Dropped(r, v))], v);
    AreasWithout(id, own, own', cur[i := Some(Dropped(r, v))], t);
  }

  lemma DropAccounted(own: Owners, own': Owners, rs: Slots, cur: Slots, i: nat, v: nat, d: Option<nat>, top: nat,
                      p: nat)
    requires Accounted(own, rs, cur) && Disjoint(cur) && i < MAX_AREAS && cur[i].Some? && Droppable(cur[i].value, v)
             && cur[i].value.lazyCount > 0
    requires p == cur[i].value.lazyPages[v - cur[i].value.first]
    requires Returned(own, own', p, 0, d, top) && Released(own', p)
    ensures Accounted(own', rs, cur[i := Some(Dropped(cur[i].value, v))])
  {
    var cur' := cur[i := Some(Dropped(cur[i].value, v))];
    FindUnique(cur, i, v);
    assert PageOf(cur, v) == Some(p);
    hide PageOf, Dropped, Droppable, FindFrom, Disjoint, Released, BlockAccounted;
    BlocksStable(own, own', p, 0, d, top, rs, cur, cur', i);
    forall w: nat | PageOf(rs, w).Some?
      ensures PageOf(cur', w) == PageOf(rs, w) || Released(own', PageOf(rs, w).value)
    {
      DroppedPageOf(cur, i, v, w);
      if Released(own, PageOf(rs, w).value) { ReleasedStable(own, own', p, 0, d, top, PageOf(rs, w).value); }
    }
  }

  lemma DropReleasable(id: nat, own: Owners, cur: Slots, i: nat, v: nat)
    requires AreasOk(own, id, cur) && i < MAX_AREAS && cur[i].Some? && Droppable(cur[i].value, v)
    ensures var p := cur[i].value.lazyPages[v - cur[i].value.first];
            Aligned(p, 0) && p + Size(0) <= PHYS_LIMIT
              && forall x :: Inside(x, p, 0) ==> Ours(own(x), id) && !own(x).use.Table?
  {
    var r := cur[i].value;
    assert AreaHeld(own, id, i, r);
    assert FrameHeld(own, id, r.lazyPages[v - r.first], r.first + (v - r.first));
    FrameIsBlock(own, id, r.lazyPages[v - r.first], v);
  }

  /** Releasing the block of a whole eager area. */
  lemma DropBlock(id: nat, own: Owners, cur: Slots, own': Owners, i: nat, o: nat, d: Option<nat>, top: nat)
    requires AreasOk(own, id, cur) && i < MAX_AREAS && cur[i].Some? && !cur[i].value.lazy
             && o == Order(NPages(cur[i].value))
    requires Returned(own, own', cur[i].value.phys, o, d, top)
    ensures AreasOk(own', id, cur[i := None])
    ensures forall k: nat :: k < NPages(cur[i].value) ==> Released(own', cur[i].value.phys + 4096 * k)
  {
    var r := cur[i].value;
    var t := Held(id, Extent(i));
    assert AreaOk(r) && AreaHeld(own, id, i, r);
    assert forall x :: Inside(x, r.phys, o) ==> own(x) == t by { hide Order, Inside; }
    ReturnKeeps(own, own', r.phys, o, d, top, t);
    BlockFrames(own, id, i, r.phys, NPages(r), 0);
    assert forall x :: r.phys <= x < r.phys + 4096 * NPages(r) ==> Inside(x, r.phys, o) by { hide Order; }
    hide AreaOk, AreaHeld, Inside, Order, BlockHeld, Size;
    DisjointShrunk(cur, i, None);
    AreasReshaped(own, id, cur, i, None);
    assert Spare(id, cur[i := None], t) by { hide AreasOk, Returned; }
    AreasWithout(id, own, own', cur[i := None], t);
  }

  lemma WholeAccounted(own: Owners, own': Owners, rs: Slots, cur: Slots, i: nat, o: nat, d: Option<nat>, top: nat)
    requires Accounted(own, rs, cur) && Disjoint(cur) && i < MAX_AREAS && cur[i].Some? && !cur[i].value.lazy
             && o == Order(NPages(cur[i].value))
    requires Returned(own, own', cur[i].value.phys, o, d, top)
    requires forall k: nat :: k < NPages(cur[i].value) ==> Released(own', cur[i].value.phys + 4096 * k)
    ensures Accounted(own', rs, cur[i := None])
  {
    var r := cur[i].value;
    DisjointShrunk(cur, i, None);
    hide FindFrom, Disjoint, Released, BlockAccounted;
    BlocksStable(own, own', r.phys, o, d, top, rs, cur, cur[i := None], i);
    forall w: nat | PageOf(rs, w).Some?
      ensures PageOf(cur[i := None], w) == PageOf(rs, w) || Released(own', PageOf(rs, w).value)
    {
      SlotReplaced(cur, i, None, w);
      if Released(own, PageOf(rs, w).value) { ReleasedStable(own, own', r.phys, o, d, top, PageOf(rs, w).value); }
      if Covers(r, w) {
        FindUnique(cur, i, w);
        assert Released(own', r.phys + 4096 * (w - r.first));
      }
    }
  }

  lemma BlockReleasableNow(id: nat, own: Owners, cur: Slots, i: nat)
    requires AreasOk(own, id, cur) && i < MAX_AREAS && cur[i].Some? && !cur[i].value.lazy
    ensures var r := cur[i].value; var o := Order(NPages(r));
            && o < MAX_ORDER && Aligned(r.phys, o) && r.phys + Size(o) <= PHYS_LIMIT && r.phys != 0
            && r.first < r.past && NPages(r) == r.past - r.first
            && forall x :: Inside(x, r.phys, o) ==> Ours(own(x), id) && !own(x).use.Table?
  {
    var r := cur[i].value;
    assert AreaOk(r) && AreaHeld(own, id, i, r);
    hide Order, Aligned, Size, Inside;
  }

  // --------------------------------------------------------------------- the run

  /** Nothing is left in this slot. */
  predicate SlotEmptied(slot: Option<Area>)
  {
    slot.None? || (slot.value.lazy && forall j :: 0 <= j < |slot.value.lazyPages| ==> slot.value.lazyPages[j] == 0)
  }

  /** Slot `now` is what is left of the lazy area `was` after giving up its first `j` entries. */
  predicate Remaining(was: Area, now: Option<Area>, j: nat)
  {
    && now.Some? && now.value.lazy && now.value.first == was.first && now.value.past == was.past
    && |now.value.lazyPages| == |was.lazyPages|
    && (forall k :: 0 <= k < |was.lazyPages| ==> now.value.lazyPages[k] == if k < j then 0 else was.lazyPages[k])
  }

  /** A state of the drop: `cur` is what the space still holds of `rs`. */
  ghost predicate Dropping(own: Owners, id: nat, root: nat, rs: Slots, cur: Slots, o0: Owners)
  {
    && AreasOk(own, id, cur)
    && Accounted(own, rs, cur)
    && GivenUp(id, o0, own)
    && forall x :: root <= x < root + 4096 ==> own(x) == Held(id, Table(4, 0))
  }

  /** Ownership is only given up, and only by space `id`. */
  ghost predicate GivenUp(id: nat, own: Owners, own': Owners)
  {
    && (forall x :: own'(x) == own(x) || own'(x).Free? || own'(x) == Lost)
    && (forall x :: own'(x) != own(x) ==> own(x).Free? || Ours(own(x), id))
  }

  lemma ReturnGivesUp(id: nat, o0: Owners, own: Owners, own': Owners, a: nat, o: nat, d: Option<nat>, top: nat)
    requires GivenUp(id, o0, own) && Returned(own, own', a, o, d, top)
             && forall x :: Inside(x, a, o) ==> Ours(own(x), id)
    ensures GivenUp(id, o0, own')
  {
    hide Inside;
  }

  lemma RootKept(id: nat, root: nat, own: Owners, own': Owners, a: nat, o: nat, d: Option<nat>, top: nat)
    requires Returned(own, own', a, o, d, top) && forall x :: Inside(x, a, o) ==> Ours(own(x), id) && !own(x).use.Table?
    requires forall x :: root <= x < root + 4096 ==> own(x) == Held(id, Table(4, 0))
    ensures forall x :: root <= x < root + 4096 ==> own'(x) == Held(id, Table(4, 0))
  {
    hide Inside;
  }

  lemma DropOne(own: Owners, id: nat, root: nat, rs: Slots, cur: Slots, o0: Owners, own': Owners, i: nat, v: nat,
                d: Option<nat>, top: nat)
    requires Dropping(own, id, root, rs, cur, o0) && i < MAX_AREAS && cur[i].Some? && Droppable(cur[i].value, v)
    requires Returned(own, own', cur[i].value.lazyPages[v - cur[i].value.first], 0, d, top)
    ensures cur[i].value.lazyCount > 0 && Dropping(own', id, root, rs, cur[i := Some(Dropped(cur[i].value, v))], o0)
  {
    hide Accounted, AreaOk, AreaHeld, Disjoint, Returned, Inside, FrameHeld, Dropped, Size, Aligned, GivenUp;
    var p := cur[i].value.lazyPages[v - cur[i].value.first];
    DropReleasable(id, own, cur, i, v);
    DropFrame(id, own, cur, own', i, v, d, top);
    DropAccounted(own, own', rs, cur, i, v, d, top, p);
    ReturnGivesUp(id, o0, own, own', p, 0, d, top);
    RootKept(id, root, own, own', p, 0, d, top);
  }

  lemma DropWhole(own: Owners, id: nat, root: nat, rs: Slots, cur: Slots, o0: Owners, own': Owners, i: nat, o: nat,
                  d: Option<nat>, top: nat)
    requires Dropping(own, id, root, rs, cur, o0) && i < MAX_AREAS && cur[i].Some? && !cur[i].value.lazy
             && o == Order(NPages(cur[i].value))
    requires Returned(own, own', cur[i].value.phys, o, d, top)
    ensures Dropping(own', id, root, rs, cur[i := None], o0)
  {
    hide Accounted, AreaOk, AreaHeld, Disjoint, Returned, Inside, BlockHeld, Size, Aligned, GivenUp, Order, Released;
    var p := cur[i].value.phys;
    BlockReleasableNow(id, own, cur, i);
    DropBlock(id, own, cur, own', i, o, d, top);
    WholeAccounted(own, own', rs, cur, i, o, d, top);
    ReturnGivesUp(id, o0, own, own', p, o, d, top);
    RootKept(id, root, own, own', p, o, d, top);
  }

  lemma RemainingDroppable(own: Owners, id: nat, cur: Slots, i: nat, was: Area, j: nat)
    requires AreasOk(own, id, cur) && i < MAX_AREAS && Remaining(was, cur[i], j) && j < |was.lazyPages|
    ensures was.lazyPages[j] == cur[i].value.lazyPages[j]
    ensures was.lazyPages[j] != 0 ==> Droppable(cur[i].value, was.first + j)
    ensures was.lazyPages[j] == 0 ==> Remaining(was, cur[i], j + 1)
  {
    hide AreaHeld, Disjoint;
    assert AreaOk(cur[i].value);
  }

  /** Give up entry `j` of the lazy area in slot `i`. */
  method DropEntry(ram: Ram, i: nat, was: Area, j: nat, ghost id: nat, ghost root: nat, ghost rs: Slots,
                   ghost cur: Slots, ghost o0: Owners)
    returns (ghost cur': Slots)
    requires ram.Valid() && i < MAX_AREAS && j < |was.lazyPages|
    requires Dropping(ram.own, id, root, rs, cur, o0) && Remaining(was, cur[i], j)
    modifies ram`heads, ram`freePages, ram`own, ram`lost
    ensures ram.Valid()
    ensures Dropping(ram.own, id, root, rs, cur', o0) && Remaining(was, cur'[i], j + 1)
    ensures forall k :: 0 <= k < MAX_AREAS && k != i ==> cur'[k] == cur[k]
    ensures ram.freePages + DataPages(cur') == old(ram.freePages) + DataPages(cur)
  {
    hide ListsOk, TagsOk, Total, Accounted, AreaOk, AreaHeld, Disjoint, Returned, Inside, FrameHeld, Size, Aligned,
      GivenUp, DataPages;
    assert Pow2(0) == 1;
    RemainingDroppable(ram.own, id, cur, i, was, j);
    if was.lazyPages[j] == 0 { return cur; }
    ghost var own0, h0 := ram.own, ram.heads;
    DropReleasable(id, ram.own, cur, i, was.first + j);
    ghost var top := ram.Release(was.lazyPages[j], 0);
    DropOne(own0, id, root, rs, cur, o0, ram.own, i, was.first + j, h0[top], top);
    DataUpdate(cur, i, Some(Dropped(cur[i].value, was.first + j)));
    cur' := cur[i := Some(Dropped(cur[i].value, was.first + j))];
  }

  method DropLazy(ram: Ram, i: nat, was: Area, ghost id: nat, ghost root: nat, ghost rs: Slots, ghost cur: Slots,
                  ghost o0: Owners)
    returns (ghost cur': Slots)
    requires ram.Valid() && i < MAX_AREAS && cur[i] == Some(was) && was.lazy
    requires Dropping(ram.own, id, root, rs, cur, o0)
    modifies ram`heads, ram`freePages, ram`own, ram`lost
    ensures ram.Valid()
    ensures Dropping(ram.own, id, root, rs, cur', o0) && SlotEmptied(cur'[i])
    ensures forall k :: 0 <= k < MAX_AREAS && k != i ==> cur'[k] == cur[k]
    ensures ram.freePages + DataPages(cur') == old(ram.freePages) + DataPages(cur)
  {
    hide ListsOk, TagsOk, Total, Dropping, DataPages;
    cur' := cur;
    for j := 0 to |was.lazyPages|
      invariant ram.Valid()
      invariant Dropping(ram.own, id, root, rs, cur', o0) && Remaining(was, cur'[i], j)
      invariant forall k :: 0 <= k < MAX_AREAS && k != i ==> cur'[k] == cur[k]
      invariant ram.freePages + DataPages(cur') == old(ram.freePages) + DataPages(cur)
    {
      cur' := DropEntry(ram, i, was, j, id, root, rs, cur', o0);
    }
  }

  lemma BlockReleasableStill(own: Owners, id: nat, root: nat, rs: Slots, cur: Slots, o0: Owners, i: nat)
    requires Dropping(own, id, root, rs, cur, o0) && i < MAX_AREAS && cur[i].Some? && !cur[i].value.lazy
    ensures var r := cur[i].value; var o := Order(NPages(r));
            && o < MAX_ORDER && Aligned(r.phys, o) && r.phys + Size(o) <= PHYS_LIMIT && r.phys != 0 && r.first < r.past
            && forall x :: Inside(x, r.phys, o) ==> !own(x).Free?
  {
    hide Accounted, AreasOk, Order, Aligned, Size, Inside, GivenUp;
    BlockReleasableNow(id, own, cur, i);
  }

  method DropSlot(ram: Ram, slot: Option<Area>, i: nat, ghost id: nat, ghost root: nat, ghost rs: Slots,
                  ghost cur: Slots, ghost o0: Owners)
    returns (ghost cur': Slots)
    requires ram.Valid() && i < MAX_AREAS && cur[i] == slot
    requires Dropping(ram.own, id, root, rs, cur, o0)
    modifies ram`heads, ram`freePages, ram`own, ram`lost
    ensures ram.Valid()
    ensures Dropping(ram.own, id, root, rs, cur', o0) && SlotEmptied(cur'[i])
    ensures forall k :: 0 <= k < MAX_AREAS && k != i ==> cur'[k] == cur[k]
    ensures ram.freePages + DataPages(cur') == old(ram.freePages) + DataPages(cur)
  {
    hide ListsOk, TagsOk, Total, Dropping, Order, Aligned, Size, Inside, Returned, DataPages, Pow2;
    cur' := cur;
    if slot.Some? {
      var r := slot.value;
      if r.lazy {
        cur' := DropLazy(ram, i, r, id, root, rs, cur, o0);
      } else {
        BlockReleasableStill(ram.own, id, root, rs, cur, o0, i);
        var order := PagesToOrder(NPages(r));
        ghost var own0, h0 := ram.own, ram.heads;
        ghost var top := ram.Release(r.phys, order);
        DropWhole(own0, id, root, rs, cur, o0, ram.own, i, order, h0[top], top);
        DataUpdate(cur, i, None);
        cur' := cur[i := None];
      }
    }
  }

  /** Every frame behind a page of `rs`, and every block of its eager areas, is released. */
  ghost predicate FramesReleased(own: Owners, rs: Slots)
  {
    && (forall w: nat {:trigger PageOf(rs, w)} :: PageOf(rs, w).Some? ==> Released(own, PageOf(rs, w).value))
    && (forall k :: 0 <= k < MAX_AREAS && rs[k].Some? && !rs[k].value.lazy ==> BlockReleased(own, rs[k].value))
  }

  /** When every slot is emptied, every frame is released. */
  lemma AllReleased(own: Owners, rs: Slots, cur: Slots)
    requires Accounted(own, rs, cur) && forall k :: 0 <= k < MAX_AREAS ==> SlotEmptied(cur[k])
    ensures FramesReleased(own, rs)
  {
    hide Released, BlockReleased;
    forall w: nat | PageOf(rs, w).Some?
      ensures Released(own, PageOf(rs, w).value)
    {
      assert PageOf(cur, w).None?;
    }
    assert forall k :: 0 <= k < MAX_AREAS ==> SlotEmptied(cur[k]) && BlockAccounted(own, rs[k], cur[k]);
  }

  lemma DropStarted(own: Owners, m: Mem, id: nat, nodes: Nodes, rs: Slots)
    requires TableOk(m, own, id, nodes) && AreasOk(own, id, rs)
    ensures ROOT in nodes && Dropping(own, id, nodes[ROOT], rs, rs, own)
  {
    hide AreasOk, Linked, Released;
  }

  lemma RootReleasable(own: Owners, m: Mem, id: nat, nodes: Nodes)
    requires TableOk(m, own, id, nodes)
    ensures ROOT in nodes && Aligned(nodes[ROOT], 0) && nodes[ROOT] + Size(0) <= PHYS_LIMIT
  {
    hide Linked;
  }

  lemma RootReleased(own: Owners, id: nat, rs: Slots, cur: Slots, o0: Owners, own': Owners, root: nat, d: Option<nat>,
                     top: nat)
    requires Dropping(own, id, root, rs, cur, o0) && Returned(own, own', root, 0, d, top)
    requires FramesReleased(own, rs)
    ensures GivenUp(id, o0, own') && Released(own', root)
    ensures FramesReleased(own', rs)
  {
    hide Accounted, AreasOk, GivenUp, FramesReleased;
    assert forall x :: Inside(x, root, 0) <==> root <= x < root + 4096;
    ReturnGivesUp(id, o0, own, own', root, 0, d, top);
    hide Released, Returned;
    FramesStable(own, own', root, 0, d, top, rs);
    assert Released(own', root) by { RootNowFree(own, own', root, d, top); }
  }

  lemma FramesStable(own: Owners, own': Owners, a: nat, o: nat, d: Option<nat>, top: nat, rs: Slots)
    requires Returned(own, own', a, o, d, top) && FramesReleased(own, rs)
    ensures FramesReleased(own', rs)
  {
    hide Inside, PageOf, Order;
    forall w: nat | PageOf(rs, w).Some?
      ensures Released(own', PageOf(rs, w).value)
    {
      ReleasedStable(own, own', a, o, d, top, PageOf(rs, w).value);
    }
  }

  lemma RootNowFree(own: Owners, own': Owners, root: nat, d: Option<nat>, top: nat)
    requires Returned(own, own', root, 0, d, top)
    ensures Released(own', root)
  {
    assert forall x :: Inside(x, root, 0) <==> root <= x < root + 4096;
    hide Inside;
  }

  /**
    Drop an address space. Every frame that backed a page, and the root table, is back
    with the allocator; nothing another space or the kernel holds changes owner, and no
    memory is written.
   */
  method DropSpace(ram: Ram, rs: Slots, root: nat, ghost id: nat, ghost nodes: Nodes)
    requires ram.Valid() && TableOk(ram.mem, ram.own, id, nodes) && root == nodes[ROOT] && root != 0
    requires AreasOk(ram.own, id, rs)
    modifies ram`heads, ram`freePages, ram`own, ram`lost
    ensures ram.Valid()
    ensures GivenUp(id, old(ram.own), ram.own)
    ensures FramesReleased(ram.own, rs)
    ensures Released(ram.own, root)
    ensures ram.freePages == old(ram.freePages) + DataPages(rs) + 1
  {
    hide ListsOk, TagsOk, Total, Dropping, AreasOk, TableOk, SlotEmptied, GivenUp, FramesReleased, Released, Returned,
      Aligned, Size, DataPages;
    assert Pow2(0) == 1;
    ghost var o0 := ram.own;
    DropStarted(o0, ram.mem, id, nodes, rs);
    RootReleasable(o0, ram.mem, id, nodes);
    ghost var cur := rs;
    for i := 0 to MAX_AREAS
      invariant ram.Valid()
      invariant Dropping(ram.own, id, root, rs, cur, o0)
      invariant forall k :: i <= k < MAX_AREAS ==> cur[k] == rs[k]
      invariant forall k :: 0 <= k < i ==> SlotEmptied(cur[k])
      invariant ram.freePages + DataPages(cur) == old(ram.freePages) + DataPages(rs)
    {
      cur := DropSlot(ram, rs[i], i, id, root, rs, cur, o0);
    }
    NothingHeldNow(ram.own, id, root, rs, cur, o0);
    DropFinished(ram.own, id, root, rs, cur, o0);
    ghost var own1, h0 := ram.own, ram.heads;
    ghost var top := ram.Release(root, 0);
    RootReleased(own1, id, rs, cur, o0, ram.own, root, h0[top], top);
  }

  lemma NothingHeldNow(own: Owners, id: nat, root: nat, rs: Slots, cur: Slots, o0: Owners)
    requires Dropping(own, id, root, rs, cur, o0) && forall k :: 0 <= k < MAX_AREAS ==> SlotEmptied(cur[k])
    ensures DataPages(cur) == 0
  {
    forall k | 0 <= k < MAX_AREAS
      ensures SlotPages(cur[k]) == 0
    {
      if cur[k].Some? {
        assert AreaOk(cur[k].value);
        CountAllZero(cur[k].value.lazyPages);
      }
    }
    NoPagesIn(cur, MAX_AREAS);
  }

  lemma DropFinished(own: Owners, id: nat, root: nat, rs: Slots, cur: Slots, o0: Owners)
    requires Dropping(own, id, root, rs, cur, o0) && forall k :: 0 <= k < MAX_AREAS ==> SlotEmptied(cur[k])
    ensures FramesReleased(own, rs)
    ensures forall x :: Inside(x, root, 0) ==> !own(x).Free?
  {
    hide AreasOk, Accounted, GivenUp, SlotEmptied, FramesReleased;
    AllReleased(own, rs, cur);
    assert forall x :: Inside(x, root, 0) <==> root <= x < root + 4096;
  }

  /** After the drop, the space holds nothing but tables. */
  lemma NothingLeft(own: Owners, own': Owners, id: nat, rs: Slots)
    requires NoStray(own, id, rs) && GivenUp(id, own, own') && FramesReleased(own', rs)
    ensures forall x :: Ours(own'(x), id) ==> own'(x).use.Table?
  {
    hide Inside, Order, PageOf;
    forall x | Ours(own'(x), id)
      ensures own'(x).use.Table?
    {
      assert InPlace(own(x).use, rs, x);
    }
  }
}
