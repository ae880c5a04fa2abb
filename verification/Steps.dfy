/**
  How single changes to memory, owner tags, tables and areas carry the invariant
  of an address space from one state to the next.
 */
module Steps {
  import opened Words
  import opened Buddy
  import opened Paging
  import opened Areas
  import opened Space

  /** Only free memory and memory of space `id` changes hands or contents. */
  ghost predicate Isolated(id: nat, own: Owners, m: Mem, own': Owners, m': Mem)
  {
    && (forall x :: !own(x).Free? && !Ours(own(x), id) ==> own'(x) == own(x) && m'(x) == m(x))
    && (forall x :: own(x).Free? || Ours(own(x), id) ==> own'(x).Free? || own'(x) == Lost || Ours(own'(x), id))
  }

  /** Every byte of user data that space `id` keeps also keeps its contents. */
  ghost predicate DataKept(id: nat, own: Owners, m: Mem, own': Owners, m': Mem)
  {
    forall x :: Ours(own(x), id) && !IsTable(own(x), id) && own'(x) == own(x) ==> m'(x) == m(x)
  }

  lemma SpaceUndisturbed(id: nat, own: Owners, m: Mem, own': Owners, m': Mem, nodes: Nodes, rs: Slots)
    requires SpaceOk(m, own, id, nodes, rs) && Undisturbed(id, own, m, own', m')
    ensures SpaceOk(m', own', id, nodes, rs)
    ensures SameLeavesBut(m, nodes, m', nodes, -1)
    ensures ROOT in nodes && UpperHalfSame(nodes[ROOT], m, m')
  {
    hide TableOk, AreasOk, Leaf, PageOf;
    TableUndisturbed(id, own, m, own', m', nodes);
    AreasUndisturbed(id, own, own', rs);
  }

  /** Granting and clearing a free block does not concern a space. */
  lemma GrantUndisturbed(id: nat, own: Owners, m: Mem, own': Owners, a: nat, o: nat, t: Owner, n: nat)
    requires Granted(own, own', a, o, t) && n <= Size(o)
    ensures Undisturbed(id, own, m, own', Clear(m, a, n))
  {
    hide Size;
  }

  /** Table steps keep the areas; with no change of translation they keep the space. */
  lemma AreasStep(id: nat, own: Owners, m: Mem, nodes: Nodes, own': Owners, m': Mem, nodes': Nodes, rs: Slots)
    requires AreasOk(own, id, rs) && TableStep(id, own, m, nodes, own', m', nodes')
    ensures AreasOk(own', id, rs)
  {
    hide TableOk, AreasOk;
    AreasUndisturbed(id, own, own', rs);
  }

  lemma QuietSpace(id: nat, own: Owners, m: Mem, nodes: Nodes, own': Owners, m': Mem, nodes': Nodes, rs: Slots)
    requires SpaceOk(m, own, id, nodes, rs) && TableStep(id, own, m, nodes, own', m', nodes')
    requires SameLeavesBut(m, nodes, m', nodes', -1)
    ensures SpaceOk(m', own', id, nodes', rs)
  {
    AreasStep(id, own, m, nodes, own', m', nodes', rs);
    hide TableOk, AreasOk, Leaf, PageOf, Confined, UpperHalfSame;
  }

  /** The block of an eager area covers its pages with aligned frames below the limit. */
  lemma BlockFrames(own: Owners, id: nat, i: nat, phys: nat, n: nat, k: nat)
    requires BlockHeld(own, id, i, phys, Order(n)) && k < n
    ensures (phys + 4096 * k) % 4096 == 0 && phys + 4096 * k < PHYS_LIMIT
    ensures phys % 4096 == 0 && phys + 4096 * n <= PHYS_LIMIT && 4096 * n <= Size(Order(n))
  {
    AlignedPage(phys, Order(n));
    OrderIsLeast(n);
    hide Order, Aligned;
  }

  function EagerArea(first: nat, n: nat, phys: nat, flags: PageFlags): Area
  {
    Area(first, first + n, phys, flags, false, [], 0)
  }

  lemma MapCommitAgrees(id: nat, own: Owners, m: Mem, nodes: Nodes, rs: Slots, m': Mem, nodes': Nodes,
                        slot: nat, first: nat, n: nat, phys: nat, flags: PageFlags)
    requires Disjoint(rs) && AgreeOutside(m, nodes, rs, 0, 0)
    requires LeavesMapped(m, nodes, m', nodes', first, n, phys, Translate(flags))
    requires slot < MAX_AREAS && rs[slot].None? && Disjoint(rs[slot := Some(EagerArea(first, n, phys, flags))])
    requires BlockHeld(own, id, slot, phys, Order(n))
    ensures AgreeOutside(m', nodes', rs[slot := Some(EagerArea(first, n, phys, flags))], 0, 0)
  {
    var r := EagerArea(first, n, phys, flags);
    var rs' := rs[slot := Some(r)];
    hide Leaf, LeafEntry, BlockHeld, PageOf, Addr, Disjoint, Vacant, FindFrom, Order;
    forall w: nat | w < USER_PAGES
      ensures FrameOf(Leaf(m', nodes', w)) == PageOf(rs', w)
    {
      SlotReplaced(rs, slot, Some(r), w);
      assert FrameOf(Leaf(m, nodes, w)) == PageOf(rs, w);
      if first <= w < first + n {
        EagerLeaf(own, id, slot, phys, n, w - first, flags);
      }
    }
  }

  lemma EagerLeaf(own: Owners, id: nat, slot: nat, phys: nat, n: nat, k: nat, flags: PageFlags)
    requires BlockHeld(own, id, slot, phys, Order(n)) && k < n
    ensures var e := LeafEntry(phys + 4096 * k, Translate(flags));
            && Addr(e) == phys + 4096 * k && (User(e) <==> flags.user) && (Writable(e) <==> flags.writable)
            && (NoExec(e) <==> !flags.execute)
  {
    hide Order, LeafEntry, Addr, User, Writable, NoExec, Present, Huge;
    BlockFrames(own, id, slot, phys, n, k);
    LeafEntryFields(phys + 4096 * k, Translate(flags));
  }

  lemma AreaAdded(own: Owners, id: nat, rs: Slots, slot: nat, r: Area)
    requires AreasOk(own, id, rs) && slot < MAX_AREAS && rs[slot].None? && Vacant(rs, r.first, r.past)
    requires AreaOk(r) && AreaHeld(own, id, slot, r)
    ensures AreasOk(own, id, rs[slot := Some(r)])
  {
    DisjointAdded(rs, slot, r);
    hide AreaOk, AreaHeld;
  }

  /** A mapped, zeroed block recorded in a free slot gives a well-formed space again. */
  lemma MapCommit(id: nat, own: Owners, m: Mem, nodes: Nodes, rs: Slots, own': Owners, m': Mem, nodes': Nodes,
                  slot: nat, first: nat, n: nat, phys: nat, flags: PageFlags)
    requires SpaceOk(m, own, id, nodes, rs) && TableStep(id, own, m, nodes, own', m', nodes')
    requires LeavesMapped(m, nodes, m', nodes', first, n, phys, Translate(flags))
    requires slot < MAX_AREAS && rs[slot].None? && Vacant(rs, first, first + n)
    requires 0 < n <= 1024 && first + n <= USER_PAGES && flags.present && phys != 0
    requires BlockHeld(own, id, slot, phys, Order(n))
    ensures SpaceOk(m', own', id, nodes', rs[slot := Some(EagerArea(first, n, phys, flags))])
  {
    var r := EagerArea(first, n, phys, flags);
    DisjointAdded(rs, slot, r);
    MapCommitAgrees(id, own, m, nodes, rs, m', nodes', slot, first, n, phys, flags);
    AreasStep(id, own, m, nodes, own', m', nodes', rs);
    assert AreaHeld(own', id, slot, r) by {
      hide Order, Aligned, Size, TableOk;
      assert AreaHeld(own, id, slot, r);
      AreaUndisturbed(id, own, own', slot, r);
    }
    AreaAdded(own', id, rs, slot, r);
    hide AreasOk, AgreeOutside, TableOk, Confined, BlockHeld, LeavesMapped, AreaHeld;
  }

  // ---------------------------------------------------------- what may change

  /** Nothing held is taken away, and only the tables of space `id` are rewritten. */
  ghost predicate Additive(id: nat, own: Owners, m: Mem, own': Owners, m': Mem)
  {
    && (forall x :: !own(x).Free? ==> own'(x) == own(x))
    && (forall x :: own(x).Free? ==> own'(x).Free? || own'(x) == Lost || Ours(own'(x), id))
    && (forall x :: !own(x).Free? && !IsTable(own(x), id) ==> m'(x) == m(x))
  }

  lemma AdditiveIsolated(id: nat, own: Owners, m: Mem, own': Owners, m': Mem)
    requires Additive(id, own, m, own', m')
    ensures Isolated(id, own, m, own', m') && DataKept(id, own, m, own', m')
  {
  }

  lemma AdditiveTrans(id: nat, o0: Owners, m0: Mem, o1: Owners, m1: Mem, o2: Owners, m2: Mem)
    requires Additive(id, o0, m0, o1, m1) && Additive(id, o1, m1, o2, m2)
    ensures Additive(id, o0, m0, o2, m2)
  {
  }

  lemma GrantAdditive(id: nat, own: Owners, m: Mem, own': Owners, a: nat, o: nat, use: Use, n: nat)
    requires Granted(own, own', a, o, Held(id, use)) && n <= Size(o)
    ensures Additive(id, own, m, own', Clear(m, a, n))
  {
    hide Size;
  }

  lemma TableStepAdditive(id: nat, own: Owners, m: Mem, nodes: Nodes, own': Owners, m': Mem, nodes': Nodes)
    requires TableStep(id, own, m, nodes, own', m', nodes')
    ensures Additive(id, own, m, own', m')
  {
    hide TableOk;
  }

  /** Giving back a block that was free to begin with. */
  lemma ReturnAdditive(id: nat, own: Owners, m: Mem, own1: Owners, m': Mem, own': Owners, a: nat, o: nat,
                       d: Option<nat>, top: nat)
    requires Additive(id, own, m, own1, m') && Returned(own1, own', a, o, d, top)
    requires forall x :: Inside(x, a, o) ==> own(x).Free?
    ensures Additive(id, own, m, own', m')
  {
    hide Inside;
  }

  /** Releasing a block tagged for this space, outside its areas and tables, does not disturb it. */
  lemma ReturnKeeps(own: Owners, own': Owners, a: nat, o: nat, d: Option<nat>, top: nat, t: Owner)
    requires Returned(own, own', a, o, d, top) && forall x :: Inside(x, a, o) ==> own(x) == t
    ensures forall x :: !own(x).Free? && own(x) != t ==> own'(x) == own(x)
  {
    hide Inside;
  }

  // ---------------------------------------------------- giving up one tag

  /** Area `r` in slot `i` does not rely on bytes tagged `t`. */
  ghost predicate AreaSpares(id: nat, i: nat, r: Area, t: Owner)
  {
    if r.lazy then forall j :: 0 <= j < |r.lazyPages| && r.lazyPages[j] != 0 ==> t != Held(id, Page(r.first + j))
    else t != Held(id, Extent(i))
  }

  ghost predicate Spare(id: nat, rs: Slots, t: Owner)
  {
    && !IsTable(t, id)
    && forall i :: 0 <= i < MAX_AREAS && rs[i].Some? ==> AreaSpares(id, i, rs[i].value, t)
  }

  lemma AreaWithout(id: nat, own: Owners, own': Owners, i: nat, r: Area, t: Owner)
    requires AreaHeld(own, id, i, r) && AreaSpares(id, i, r, t)
    requires forall x :: Ours(own(x), id) && own(x) != t ==> own'(x) == own(x)
    ensures AreaHeld(own', id, i, r)
  {
    hide Order, Aligned, Size;
  }

  lemma AreasWithout(id: nat, own: Owners, own': Owners, rs: Slots, t: Owner)
    requires AreasOk(own, id, rs) && Spare(id, rs, t)
    requires forall x :: Ours(own(x), id) && own(x) != t ==> own'(x) == own(x)
    ensures AreasOk(own', id, rs)
  {
    forall i | 0 <= i < MAX_AREAS && rs[i].Some?
      ensures AreaHeld(own', id, i, rs[i].value)
    {
      AreaWithout(id, own, own', i, rs[i].value, t);
    }
    hide AreaHeld, AreaOk, AreaSpares;
  }

  /** Releasing a block whose tag the space does not rely on keeps the space well-formed. */
  lemma SpaceWithout(id: nat, own: Owners, m: Mem, own': Owners, nodes: Nodes, rs: Slots, t: Owner)
    requires SpaceOk(m, own, id, nodes, rs) && Spare(id, rs, t)
    requires forall x :: Ours(own(x), id) && own(x) != t ==> own'(x) == own(x)
    ensures SpaceOk(m, own', id, nodes, rs)
  {
    AreasWithout(id, own, own', rs, t);
    assert Placed(own', id, nodes) by { hide AreasOk, Linked; }
    hide AreasOk, Linked, Placed, AgreeOutside;
  }

  function LazyArea(first: nat, n: nat, flags: PageFlags): Area
  {
    Area(first, first + n, 0, flags, true, [], 0)
  }

  /** The first free slot now holds a lazy area of `n` pages; the page map is as before. */
  ghost predicate LazyAdded(rs: Slots, rs': Slots, first: nat, n: nat, flags: PageFlags)
  {
    && FreeSlot(rs) < MAX_AREAS
    && rs' == rs[FreeSlot(rs) := Some(LazyArea(first, n, flags))]
    && (forall v: nat :: PageOf(rs', v) == PageOf(rs, v))
    && (forall v: nat :: Covered(rs', v) <==> Covered(rs, v) || first <= v < first + n)
  }

  lemma CoveredIff(rs: Slots, v: nat)
    ensures Covered(rs, v) <==> exists i :: 0 <= i < MAX_AREAS && rs[i].Some? && Covers(rs[i].value, v)
  {
  }

  lemma LazyCommit(m: Mem, own: Owners, id: nat, nodes: Nodes, rs: Slots, slot: nat, first: nat, n: nat,
                   flags: PageFlags)
    requires SpaceOk(m, own, id, nodes, rs) && slot == FreeSlot(rs) < MAX_AREAS && rs[slot].None?
    requires Vacant(rs, first, first + n) && 0 < n && first + n <= USER_PAGES && flags.present
    ensures var rs' := rs[slot := Some(LazyArea(first, n, flags))];
            SpaceOk(m, own, id, nodes, rs') && LazyAdded(rs, rs', first, n, flags)
  {
    var r := LazyArea(first, n, flags);
    var rs' := rs[slot := Some(r)];
    assert AreaOk(r) && AreaHeld(own, id, slot, r);
    AreaAdded(own, id, rs, slot, r);
    hide TableOk, AreaHeld, AreaOk, Leaf, FindFrom, Disjoint;
    forall v: nat
      ensures PageOf(rs', v) == PageOf(rs, v)
      ensures Covered(rs', v) <==> Covered(rs, v) || first <= v < first + n
    {
      LazyCommitAt(rs, slot, first, n, flags, v);
    }
    hide PageOf, Covered;
  }

  lemma LazyCommitAt(rs: Slots, slot: nat, first: nat, n: nat, flags: PageFlags, v: nat)
    requires slot < MAX_AREAS && rs[slot].None? && Vacant(rs, first, first + n)
    requires Disjoint(rs) && Disjoint(rs[slot := Some(LazyArea(first, n, flags))])
    ensures var rs' := rs[slot := Some(LazyArea(first, n, flags))];
            && PageOf(rs', v) == PageOf(rs, v)
            && (Covered(rs', v) <==> Covered(rs, v) || first <= v < first + n)
  {
    var r := LazyArea(first, n, flags);
    var rs' := rs[slot := Some(r)];
    SlotReplaced(rs, slot, Some(r), v);
    CoveredIff(rs, v);
    CoveredIff(rs', v);
    if first <= v < first + n {
      VacantUncovered(rs, first, first + n, v);
      assert rs'[slot].Some? && Covers(rs'[slot].value, v);
    }
    hide FindFrom, Covered, PageOf, Disjoint;
    if i :| 0 <= i < MAX_AREAS && rs[i].Some? && Covers(rs[i].value, v) {
      assert rs'[i] == rs[i];
    }
  }

  // ------------------------------------------------------------ Map, in steps

  /** The first free slot now holds an eager area backed by zeroed, consecutive frames. */
  ghost predicate EagerAdded(m: Mem, nodes: Nodes, rs: Slots, m': Mem, nodes': Nodes, rs': Slots, first: nat, n: nat,
                             flags: PageFlags)
  {
    && FreeSlot(rs) < MAX_AREAS && rs'[FreeSlot(rs)].Some?
    && var phys := rs'[FreeSlot(rs)].value.phys;
       && rs' == rs[FreeSlot(rs) := Some(EagerArea(first, n, phys, flags))]
       && LeavesMapped(m, nodes, m', nodes', first, n, phys, Translate(flags))
       && (forall x :: phys <= x < phys + 4096 * n ==> m'(x) == 0)
  }

  lemma SpaceRefl(m: Mem, own: Owners, id: nat, nodes: Nodes, rs: Slots)
    requires SpaceOk(m, own, id, nodes, rs)
    ensures Additive(id, own, m, own, m) && SameLeavesBut(m, nodes, m, nodes, -1)
    ensures ROOT in nodes && UpperHalfSame(nodes[ROOT], m, m)
  {
    hide AreasOk, AgreeOutside, Linked, Leaf;
  }

  lemma OrderBound(n: nat)
    requires n <= 1024
    ensures Order(n) < MAX_ORDER && n <= Pow2(Order(n)) && 4096 * n <= Size(Order(n))
  {
    assert Pow2(5) == 32;
    Pow2Add(5, 5);
    OrderAtMost(n, 10);
    OrderIsLeast(n);
    hide Order;
  }

  lemma GrantedBlock(id: nat, own: Owners, own': Owners, slot: nat, n: nat, phys: nat)
    requires own(0) == Kernel && n <= 1024
    requires Aligned(phys, Order(n)) && phys + Size(Order(n)) <= PHYS_LIMIT
    requires Granted(own, own', phys, Order(n), Held(id, Extent(slot)))
    ensures phys != 0 && own'(0) == Kernel && BlockHeld(own', id, slot, phys, Order(n))
    ensures phys % 4096 == 0 && phys + 4096 * n <= PHYS_LIMIT && 4096 * n <= Size(Order(n))
    ensures forall x :: Inside(x, phys, Order(n)) ==> own(x).Free?
  {
    OrderBound(n);
    AlignedPage(phys, Order(n));
    hide Order, Aligned, Size;
  }

  lemma VacantLeaves(m: Mem, nodes: Nodes, rs: Slots, first: nat, past: nat)
    requires AgreeOutside(m, nodes, rs, 0, 0) && Vacant(rs, first, past) && past <= USER_PAGES
    ensures forall w: nat :: first <= w < past ==> Leaf(m, nodes, w) == None
  {
    hide Leaf, PageOf;
    forall w: nat | first <= w < past
      ensures Leaf(m, nodes, w) == None
    {
      VacantUncovered(rs, first, past, w);
    }
  }

  /** After allocating and clearing the block: the space is as it was, the pages are unmapped. */
  lemma GrantStep(id: nat, own: Owners, m: Mem, own': Owners, nodes: Nodes, rs: Slots, slot: nat, first: nat, n: nat,
                  phys: nat)
    requires SpaceOk(m, own, id, nodes, rs) && own(0) == Kernel && n <= 1024
    requires Aligned(phys, Order(n)) && phys + Size(Order(n)) <= PHYS_LIMIT
    requires Granted(own, own', phys, Order(n), Held(id, Extent(slot)))
    requires Vacant(rs, first, first + n) && first + n <= USER_PAGES
    ensures var m' := Clear(m, phys, 4096 * n);
            && SpaceOk(m', own', id, nodes, rs)
            && Additive(id, own, m, own', m')
            && SameLeavesBut(m, nodes, m', nodes, -1)
            && (forall w: nat :: first <= w < first + n ==> Leaf(m', nodes, w) == None)
            && ROOT in nodes && UpperHalfSame(nodes[ROOT], m, m')
    ensures phys != 0 && own'(0) == Kernel && BlockHeld(own', id, slot, phys, Order(n))
    ensures phys % 4096 == 0 && phys + 4096 * n <= PHYS_LIMIT
    ensures forall x :: Inside(x, phys, Order(n)) ==> own(x).Free?
  {
    var m' := Clear(m, phys, 4096 * n);
    GrantedBlock(id, own, own', slot, n, phys);
    hide Order, Aligned, Size, SpaceOk, Vacant, BlockHeld;
    GrantUndisturbed(id, own, m, own', phys, Order(n), Held(id, Extent(slot)), 4096 * n);
    GrantAdditive(id, own, m, own', phys, Order(n), Extent(slot), 4096 * n);
    hide Granted, Additive;
    SpaceUndisturbed(id, own, m, own', m', nodes, rs);
    assert AgreeOutside(m', nodes, rs, 0, 0) by { SpaceAgrees(m', own', id, nodes, rs); }
    VacantLeaves(m', nodes, rs, first, first + n);
    hide SameLeavesBut, AgreeOutside, Leaf;
  }

  lemma SpaceAgrees(m: Mem, own: Owners, id: nat, nodes: Nodes, rs: Slots)
    requires SpaceOk(m, own, id, nodes, rs)
    ensures AgreeOutside(m, nodes, rs, 0, 0) && TableOk(m, own, id, nodes) && AreasOk(own, id, rs)
  {
    hide AgreeOutside, TableOk, AreasOk;
  }

  /** What the caller of `MapBlock` is promised on success. */
  lemma MapDone(id: nat, o0: Owners, m0: Mem, o1: Owners, m1: Mem, nodes: Nodes, rs: Slots, o2: Owners, m2: Mem,
                n2: Nodes, slot: nat, first: nat, n: nat, phys: nat, flags: PageFlags)
    requires SpaceOk(m1, o1, id, nodes, rs) && TableStep(id, o1, m1, nodes, o2, m2, n2)
    requires Additive(id, o0, m0, o1, m1) && SameLeavesBut(m0, nodes, m1, nodes, -1)
    requires LeavesMapped(m1, nodes, m2, n2, first, n, phys, Translate(flags))
    requires slot == FreeSlot(rs) < MAX_AREAS && Vacant(rs, first, first + n)
    requires 0 < n <= 1024 && first + n <= USER_PAGES && flags.present && phys != 0
    requires BlockHeld(o1, id, slot, phys, Order(n))
    requires m1 == Clear(m0, phys, 4096 * n)
    ensures var rs' := rs[slot := Some(EagerArea(first, n, phys, flags))];
            SpaceOk(m2, o2, id, n2, rs') && EagerAdded(m0, nodes, rs, m2, n2, rs', first, n, flags)
    ensures Additive(id, o0, m0, o2, m2)
  {
    MapCommit(id, o1, m1, nodes, rs, o2, m2, n2, slot, first, n, phys, flags);
    TableStepAdditive(id, o1, m1, nodes, o2, m2, n2);
    AdditiveTrans(id, o0, m0, o1, m1, o2, m2);
    LeavesSince(m0, nodes, m1, m2, n2, first, n, phys, Translate(flags));
    forall x | phys <= x < phys + 4096 * n
      ensures m2(x) == 0
    {
      BlockFrames(o1, id, slot, phys, n, 0);
      assert Inside(x, phys, Order(n));
      assert o1(x) == Held(id, Extent(slot));
    }
    hide SpaceOk, LeavesMapped, TableStep, BlockHeld, Additive, SameLeavesBut, Vacant, Order;
  }

  lemma LeavesSince(m0: Mem, nodes: Nodes, m1: Mem, m2: Mem, n2: Nodes, first: nat, n: nat, phys: nat, f: PtFlags)
    requires SameLeavesBut(m0, nodes, m1, nodes, -1) && LeavesMapped(m1, nodes, m2, n2, first, n, phys, f)
    ensures LeavesMapped(m0, nodes, m2, n2, first, n, phys, f)
  {
    hide Leaf, LeafEntry;
  }

  /** Rolling back: the pages are unmapped again and the block is released. */
  lemma MapUndone(id: nat, o0: Owners, m0: Mem, o1: Owners, m1: Mem, nodes: Nodes, rs: Slots, o2: Owners, m2: Mem,
                  n2: Nodes, o3: Owners, slot: nat, phys: nat, o: nat, d: Option<nat>, top: nat)
    requires SpaceOk(m1, o1, id, nodes, rs) && TableStep(id, o1, m1, nodes, o2, m2, n2)
    requires Additive(id, o0, m0, o1, m1) && SameLeavesBut(m0, nodes, m1, nodes, -1)
    requires SameLeavesBut(m1, nodes, m2, n2, -1)
    requires slot < MAX_AREAS && rs[slot].None?
    requires BlockHeld(o1, id, slot, phys, o) && Returned(o2, o3, phys, o, d, top)
    requires forall x :: Inside(x, phys, o) ==> o0(x).Free?
    ensures SpaceOk(m2, o3, id, n2, rs) && Additive(id, o0, m0, o3, m2)
    ensures SameLeavesBut(m0, nodes, m2, n2, -1)
    ensures forall x :: o0(x) == Kernel ==> o3(x) == Kernel
  {
    QuietSpace(id, o1, m1, nodes, o2, m2, n2, rs);
    TableStepAdditive(id, o1, m1, nodes, o2, m2, n2);
    AdditiveTrans(id, o0, m0, o1, m1, o2, m2);
    ReturnAdditive(id, o0, m0, o2, m2, o3, phys, o, d, top);
    var t := Held(id, Extent(slot));
    assert forall x :: Inside(x, phys, o) ==> o2(x) == t by { hide Inside, TableOk, SpaceOk, Returned; }
    ReturnKeeps(o2, o3, phys, o, d, top, t);
    assert Spare(id, rs, t) by { hide SpaceOk, TableStep, Additive, Returned; }
    hide Additive, Returned, BlockHeld, TableStep, SpaceOk, Spare, Inside, Leaf;
    SpaceWithout(id, o2, m2, o3, n2, rs, t);
  }

  lemma StepUpperHalf(id: nat, m0: Mem, o1: Owners, m1: Mem, nodes: Nodes, o2: Owners, m2: Mem, n2: Nodes)
    requires ROOT in nodes && UpperHalfSame(nodes[ROOT], m0, m1) && TableStep(id, o1, m1, nodes, o2, m2, n2)
    ensures UpperHalfSame(nodes[ROOT], m0, m2) && ROOT in n2 && n2[ROOT] == nodes[ROOT]
    ensures TableOk(m2, o2, id, n2)
    ensures o1(0) == Kernel ==> o2(0) == Kernel
  {
    hide TableOk;
  }

  /** The block is still wholly ours, so it may be released. */
  lemma BlockReleasable(id: nat, o1: Owners, m1: Mem, nodes: Nodes, o2: Owners, m2: Mem, n2: Nodes, slot: nat,
                        phys: nat, o: nat)
    requires BlockHeld(o1, id, slot, phys, o) && TableStep(id, o1, m1, nodes, o2, m2, n2)
    ensures o < MAX_ORDER && Aligned(phys, o) && phys + Size(o) <= PHYS_LIMIT
    ensures forall x :: Inside(x, phys, o) ==> !o2(x).Free?
  {
    hide TableOk, Inside, Size, Aligned;
  }
}
