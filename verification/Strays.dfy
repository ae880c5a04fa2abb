/**
  Where the frames of an address space are: what unmapping gives back, and what a space
  could still hold without using it.
 */
module Strays {
  import opened Words
  import opened Buddy
  import opened Paging
  import opened Areas
  import opened Space
  import opened Steps
  import opened Faults
  import opened Unmaps
  import opened Protects

  // -------------------------------------------------------------- given back

  /** The page at `p` is no longer held: it is free, or was displaced from a free list. */
  ghost predicate Released(own: Owners, p: nat)
  {
    forall x :: p <= x < p + 4096 ==> own(x).Free? || own(x) == Lost
  }

  /** The whole block of the eager area `r`, also the part no page uses, is no longer held. */
  ghost predicate BlockReleased(own: Owners, r: Area)
  {
    forall x :: Inside(x, r.phys, Order(NPages(r))) ==> own(x).Free? || own(x) == Lost
  }

  /** Every frame behind a page of [lo, hi) in area `r` is no longer held. */
  ghost predicate PagesReleased(own: Owners, r: Area, lo: nat, hi: nat)
  {
    forall w: nat {:trigger Backing(r, w)} :: lo <= w < hi && Covers(r, w) && Backing(r, w).Some? ==>
      Released(own, Backing(r, w).value)
  }

  /**
    What unmapping [v, end) does to the memory of the area in slot `k`: the frames of lazy
    pages and the block of a whole eager area are released; a cut eager area gives up
    nothing, its old block stays held to the last byte.
   */
  ghost predicate GivenBack(own: Owners, id: nat, k: nat, slot: Option<Area>, v: nat, end: nat)
  {
    slot.Some? && Overlaps(slot.value, v, end) ==>
      var r := slot.value;
      if r.lazy then PagesReleased(own, r, v, end)
      else if v <= r.first && r.past <= end then BlockReleased(own, r)
      else BlockHeld(own, id, k, r.phys, Order(NPages(r)))
  }

  /** No block of another slot than `i` changes owner. */
  ghost predicate ExtentsKept(id: nat, own: Owners, own': Owners, i: nat)
  {
    forall x :: Ours(own(x), id) && own(x).use.Extent? && own(x).use.slot != i ==> own'(x) == own(x)
  }

  lemma ExtentsKeptTrans(id: nat, o0: Owners, o1: Owners, o2: Owners, i: nat)
    requires ExtentsKept(id, o0, o1, i) && ExtentsKept(id, o1, o2, i)
    ensures ExtentsKept(id, o0, o2, i)
  {
  }

  lemma ReleasedStays(id: nat, own: Owners, m: Mem, own': Owners, m': Mem, p: nat)
    requires Subtractive(id, own, m, own', m') && Released(own, p)
    ensures Released(own', p)
  {
  }

  lemma PagesReleasedStay(id: nat, own: Owners, m: Mem, own': Owners, m': Mem, r: Area, lo: nat, hi: nat)
    requires Subtractive(id, own, m, own', m') && PagesReleased(own, r, lo, hi)
    ensures PagesReleased(own', r, lo, hi)
  {
    hide Released, Subtractive, Backing;
    forall w: nat | lo <= w < hi && Covers(r, w) && Backing(r, w).Some?
      ensures Released(own', Backing(r, w).value)
    {
      ReleasedStays(id, own, m, own', m', Backing(r, w).value);
    }
  }

  lemma StepKeepsReleased(id: nat, own: Owners, m: Mem, own': Owners, m': Mem, nodes: Nodes, v: int, end: int, r: Area,
                          lo: nat, hi: nat)
    requires UnmapStep(id, own, m, own', m', nodes, v, end) && PagesReleased(own, r, lo, hi)
    ensures PagesReleased(own', r, lo, hi)
  {
    hide PagesReleased, Subtractive, SameOutside;
    PagesReleasedStay(id, own, m, own', m', r, lo, hi);
  }

  lemma StepKeepsGivenBack(id: nat, own: Owners, m: Mem, own': Owners, m': Mem, nodes: Nodes, rs: Slots, i: nat, v: nat,
                           end: nat)
    requires UnmapStep(id, own, m, own', m', nodes, v, end) && ExtentsKept(id, own, own', i) && i < MAX_AREAS
    requires forall k :: 0 <= k < i ==> GivenBack(own, id, k, rs[k], v, end)
    ensures forall k :: 0 <= k < i ==> GivenBack(own', id, k, rs[k], v, end)
  {
    hide GivenBack, Subtractive, SameOutside, ExtentsKept;
    forall k | 0 <= k < i
      ensures GivenBack(own', id, k, rs[k], v, end)
    {
      GivenBackStays(id, own, m, own', m', i, k, rs[k], v, end);
    }
  }

  lemma NothingToGive(own: Owners, id: nat, k: nat, slot: Option<Area>, v: nat, end: nat)
    requires !(slot.Some? && Overlaps(slot.value, v, end))
    ensures GivenBack(own, id, k, slot, v, end)
  {
  }

  /** What was done to slot `k` is not undone by a step that works on slot `i`. */
  lemma GivenBackStays(id: nat, own: Owners, m: Mem, own': Owners, m': Mem, i: nat, k: nat, slot: Option<Area>, v: nat,
                       end: nat)
    requires Subtractive(id, own, m, own', m') && ExtentsKept(id, own, own', i) && k != i
    requires GivenBack(own, id, k, slot, v, end)
    ensures GivenBack(own', id, k, slot, v, end)
  {
    hide PagesReleased, Order, Aligned, Size;
    if slot.Some? && slot.value.lazy && Overlaps(slot.value, v, end) {
      PagesReleasedStay(id, own, m, own', m', slot.value, v, end);
    }
  }

  lemma PagesReleasedNext(own: Owners, r: Area, lo: nat, w: nat)
    requires PagesReleased(own, r, lo, w)
    requires Covers(r, w) && Backing(r, w).Some? ==> Released(own, Backing(r, w).value)
    ensures PagesReleased(own, r, lo, w + 1)
  {
    hide Released, Backing;
  }

  /** The page `w` has no frame, or the one it had is free. */
  lemma LazyReleasedNext(own: Owners, r: Area, lo: nat, w: nat)
    requires r.lazy && r.first <= w && w - r.first < |r.lazyPages| && PagesReleased(own, r, lo, w)
    requires r.lazyPages[w - r.first] != 0 ==> Released(own, r.lazyPages[w - r.first])
    ensures PagesReleased(own, r, lo, w + 1)
  {
    hide Released, PagesReleased;
    PagesReleasedNext(own, r, lo, w);
  }

  /** Pages beyond the tracking vector, and pages outside the area, have no frame. */
  lemma PagesReleasedAll(own: Owners, r: Area, lo: nat, w: nat, hi: nat, v: nat, end: nat)
    requires r.lazy && PagesReleased(own, r, lo, w) && (w == hi || r.first + |r.lazyPages| <= w)
    requires lo == v || v <= lo <= r.first
    requires hi == end || r.past <= hi <= end
    ensures PagesReleased(own, r, v, end)
  {
    hide Released;
  }

  // ------------------------------------------------------------- nothing astray

  /** Every byte the space holds is in a table, in the frame of its page or in the block of its area. */
  ghost predicate NoStray(own: Owners, id: nat, rs: Slots)
  {
    forall x :: Ours(own(x), id) ==> InPlace(own(x).use, rs, x)
  }

  predicate InPlace(use: Use, rs: Slots, x: int)
  {
    match use
    case Table(_, _) => true
    case Page(v) => PageOf(rs, v).Some? && PageOf(rs, v).value <= x < PageOf(rs, v).value + 4096
    case Extent(k) =>
      k < MAX_AREAS && rs[k].Some? && !rs[k].value.lazy && Inside(x, rs[k].value.phys, Order(NPages(rs[k].value)))
  }

  /** A grant followed by table growth adds one block; the rest keeps its place. */
  lemma StrayStep(own: Owners, own1: Owners, own2: Owners, m1: Mem, m2: Mem, nodes: Nodes, nodes': Nodes, id: nat,
                  rs: Slots, rs': Slots, a: nat, o: nat, use: Use)
    requires NoStray(own, id, rs) && Granted(own, own1, a, o, Held(id, use))
             && TableStep(id, own1, m1, nodes, own2, m2, nodes')
    requires forall x :: Inside(x, a, o) ==> InPlace(use, rs', x)
    requires forall u, x :: InPlace(u, rs, x) ==> InPlace(u, rs', x)
    ensures NoStray(own2, id, rs')
  {
    hide Inside, PageOf, Order, TableOk, UpperHalfSame;
  }

  /** A grant and table growth, with the grant taken back: only tables were added. */
  lemma StrayUndone(own: Owners, own1: Owners, own2: Owners, own3: Owners, m1: Mem, m2: Mem, nodes: Nodes,
                    nodes': Nodes, id: nat, rs: Slots, a: nat, o: nat, use: Use, d: Option<nat>, top: nat)
    requires NoStray(own, id, rs) && Granted(own, own1, a, o, Held(id, use))
             && TableStep(id, own1, m1, nodes, own2, m2, nodes')
    requires Returned(own2, own3, a, o, d, top)
    ensures NoStray(own3, id, rs)
  {
    hide Inside, PageOf, Order, TableOk, UpperHalfSame, InPlace;
    assert forall x :: Ours(own3(x), id) ==> own3(x) == own2(x) && !Inside(x, a, o);
    assert forall x, l, p :: InPlace(Table(l, p), rs, x) by { TablesInPlace(rs); }
  }

  lemma TablesInPlace(rs: Slots)
    ensures forall x, l, p :: InPlace(Table(l, p), rs, x)
  {
  }

  /** Table growth leaves nothing astray. */
  lemma StrayTables(own: Owners, own': Owners, m: Mem, m': Mem, nodes: Nodes, nodes': Nodes, id: nat, rs: Slots)
    requires NoStray(own, id, rs) && TableStep(id, own, m, nodes, own', m', nodes')
    ensures NoStray(own', id, rs)
  {
    hide Inside, PageOf, Order, TableOk, UpperHalfSame;
  }

  lemma StrayPage(rs: Slots, i: nat, w: nat, p: nat)
    requires Disjoint(rs) && i < MAX_AREAS && rs[i].Some? && Demandable(rs[i].value, w) && p != 0 && PageOf(rs, w).None?
    ensures var rs' := rs[i := Some(FaultedIn(rs[i].value, w, p))];
            && (forall x :: Inside(x, p, 0) ==> InPlace(Page(w), rs', x))
            && (forall u, x :: InPlace(u, rs, x) ==> InPlace(u, rs', x))
  {
    hide Disjoint, PageOf, Order;
    var rs' := rs[i := Some(FaultedIn(rs[i].value, w, p))];
    FaultPageOf(rs, i, w, p, w);
    assert forall x :: Inside(x, p, 0) <==> p <= x < p + 4096;
    forall u, x | InPlace(u, rs, x)
      ensures InPlace(u, rs', x)
    {
      if u.Page? { FaultPageOf(rs, i, w, p, u.vpn); }
    }
  }

  lemma StrayBlock(rs: Slots, i: nat, q: Area)
    requires Disjoint(rs) && i < MAX_AREAS && rs[i].None? && !q.lazy && Disjoint(rs[i := Some(q)])
    ensures var rs' := rs[i := Some(q)];
            && (forall x :: Inside(x, q.phys, Order(NPages(q))) ==> InPlace(Extent(i), rs', x))
            && (forall u, x :: InPlace(u, rs, x) ==> InPlace(u, rs', x))
  {
    hide Disjoint, Inside, Order, PageOf;
    var rs' := rs[i := Some(q)];
    forall u, x | InPlace(u, rs, x)
      ensures InPlace(u, rs', x)
    {
      if u.Page? { StillFound(rs, i, q, u.vpn); }
    }
  }

  lemma StillFound(rs: Slots, i: nat, q: Area, v: nat)
    requires Disjoint(rs) && i < MAX_AREAS && rs[i].None? && Disjoint(rs[i := Some(q)]) && PageOf(rs, v).Some?
    ensures PageOf(rs[i := Some(q)], v) == PageOf(rs, v)
  {
    BackedIsFound(rs, v);
    var j := FindFrom(rs, v, 0);
    FindUnique(rs[i := Some(q)], j, v);
  }

  /** The same frames behind the same pages, and the same eager blocks. */
  ghost predicate SameHoldings(rs: Slots, rs': Slots)
  {
    && (forall w: nat {:trigger PageOf(rs', w)} :: PageOf(rs', w) == PageOf(rs, w))
    && (forall k :: 0 <= k < MAX_AREAS && rs[k].Some? && !rs[k].value.lazy ==>
          && rs'[k].Some? && !rs'[k].value.lazy
          && rs'[k].value.phys == rs[k].value.phys && NPages(rs'[k].value) == NPages(rs[k].value))
  }

  lemma StraySame(own: Owners, id: nat, rs: Slots, rs': Slots)
    requires NoStray(own, id, rs) && SameHoldings(rs, rs')
    ensures NoStray(own, id, rs')
  {
    hide Inside, Order, PageOf;
  }

  lemma LazyHoldings(rs: Slots, rs': Slots, first: nat, n: nat, flags: PageFlags)
    requires LazyAdded(rs, rs', first, n, flags)
    ensures SameHoldings(rs, rs')
  {
    hide PageOf, Covered;
  }

  /** Replacing a lazy area without changing the page map keeps everything in place. */
  lemma LazyReplaced(rs: Slots, rs': Slots, i: nat, q: Option<Area>)
    requires i < MAX_AREAS && rs' == rs[i := q] && (rs[i].Some? ==> rs[i].value.lazy)
    requires forall w: nat :: PageOf(rs', w) == PageOf(rs, w)
    ensures SameHoldings(rs, rs')
  {
    hide PageOf;
  }

  lemma FlagsHoldings(rs: Slots, rs': Slots)
    requires SameAreas(rs, rs')
    ensures SameHoldings(rs, rs')
  {
    hide PageOf, FindFrom;
    forall w: nat
      ensures PageOf(rs', w) == PageOf(rs, w)
    {
      SamePageOf(rs, rs', w);
    }
  }

  /** One faulted-in page less: its frame is released, and nothing else moves. */
  lemma StrayDropped(id: nat, own: Owners, own': Owners, rs: Slots, i: nat, v: nat, p: nat, d: Option<nat>, top: nat)
    requires Disjoint(rs) && i < MAX_AREAS && rs[i].Some? && Droppable(rs[i].value, v) && rs[i].value.lazyCount > 0
    requires p == rs[i].value.lazyPages[v - rs[i].value.first]
    requires FrameHeld(own, id, p, v) && Returned(own, own', p, 0, d, top)
    ensures Released(own', p) && ExtentsKept(id, own, own', i)
    ensures NoStray(own, id, rs) ==> NoStray(own', id, rs[i := Some(Dropped(rs[i].value, v))])
  {
    assert forall x :: Inside(x, p, 0) <==> p <= x < p + 4096;
    FindUnique(rs, i, v);
    assert PageOf(rs, v) == Some(p);
    hide Inside, PageOf, Order, Disjoint, FindFrom, Dropped, Droppable;
    if NoStray(own, id, rs) {
      forall x | Ours(own'(x), id)
        ensures InPlace(own'(x).use, rs[i := Some(Dropped(rs[i].value, v))], x)
      {
        assert own'(x) == own(x) && InPlace(own(x).use, rs, x);
        if own(x).use.Page? { DroppedPageOf(rs, i, v, own(x).use.vpn); }
        DroppedStaysLazy(rs[i].value, v);
      }
    }
  }

  lemma DroppedStaysLazy(r: Area, v: nat)
    requires Droppable(r, v) && r.lazyCount > 0
    ensures r.lazy && Dropped(r, v).lazy
  {
  }

  /** A mapped block recorded in its slot leaves nothing astray. */
  lemma BlockTight(id: nat, o0: Owners, o1: Owners, m1: Mem, nodes: Nodes, rs: Slots, o2: Owners, m2: Mem, n2: Nodes,
                   slot: nat, first: nat, n: nat, phys: nat, flags: PageFlags)
    requires SpaceOk(m1, o1, id, nodes, rs) && TableStep(id, o1, m1, nodes, o2, m2, n2)
    requires slot < MAX_AREAS && rs[slot].None? && Vacant(rs, first, first + n)
    requires Granted(o0, o1, phys, Order(n), Held(id, Extent(slot)))
    ensures NoStray(o0, id, rs) ==> NoStray(o2, id, rs[slot := Some(EagerArea(first, n, phys, flags))])
  {
    var q := EagerArea(first, n, phys, flags);
    SpaceAreas(m1, o1, id, nodes, rs);
    DisjointAdded(rs, slot, q);
    hide SpaceOk, TableStep, Granted, NoStray, InPlace, Inside, Order, Disjoint, AreaOk, AreaHeld, Vacant;
    StrayBlock(rs, slot, q);
    assert NPages(q) == n;
    if NoStray(o0, id, rs) {
      StrayStep(o0, o1, o2, m1, m2, nodes, n2, id, rs, rs[slot := Some(q)], phys, Order(n), Extent(slot));
    }
  }

  /** A mapped frame recorded for its page leaves nothing astray. */
  lemma FrameTight(id: nat, o0: Owners, o1: Owners, m1: Mem, nodes: Nodes, rs: Slots, o2: Owners, m2: Mem, n2: Nodes,
                   i: nat, v: nat, p: nat)
    requires SpaceOk(m1, o1, id, nodes, rs) && TableStep(id, o1, m1, nodes, o2, m2, n2)
    requires i == FindFrom(rs, v, 0) < MAX_AREAS && Demandable(rs[i].value, v) && p != 0
    requires Granted(o0, o1, p, 0, Held(id, Page(v)))
    ensures NoStray(o0, id, rs) ==> NoStray(o2, id, rs[i := Some(FaultedIn(rs[i].value, v, p))])
  {
    SpaceAreas(m1, o1, id, nodes, rs);
    hide SpaceOk, TableStep, Granted, NoStray, InPlace, Inside, Disjoint, AreaOk, AreaHeld, FaultedIn, FindFrom;
    assert PageOf(rs, v).None?;
    StrayPage(rs, i, v, p);
    if NoStray(o0, id, rs) {
      StrayStep(o0, o1, o2, m1, m2, nodes, n2, id, rs, rs[i := Some(FaultedIn(rs[i].value, v, p))], p, 0, Page(v));
    }
  }

  lemma ProtectTight(id: nat, o0: Owners, m0: Mem, n0: Nodes, rs: Slots, own: Owners, m: Mem, nodes: Nodes, rs': Slots,
                     f: PageFlags, v: nat, end: nat)
    requires Protecting(id, o0, m0, n0, rs, own, m, nodes, rs', f, v, end, MAX_AREAS, 0)
    ensures NoStray(o0, id, rs) ==> NoStray(own, id, rs')
  {
    hide SpaceOk, TableStep, NoStray, Reflagged, SameAreas, SameHoldings;
    FlagsHoldings(rs, rs');
    if NoStray(o0, id, rs) {
      StrayTables(o0, own, m0, m, n0, nodes, id, rs);
      StraySame(own, id, rs, rs');
    }
  }

  // ---------------------------------------------------------- eager areas, cut

  /**
    Cutting the pages [lo, hi) off eager area `r` leaves memory astray: the front of a
    block always, its back when the rest is a block of a smaller order.
   */
  predicate Leaks(r: Area, lo: nat, hi: nat)
    requires r.first <= lo <= hi <= r.past
  {
    && !(lo == r.first && hi == r.past)
    && (lo == r.first || Order(lo - r.first) != Order(r.past - r.first))
  }

  /** Unmapping [v, end) cuts the eager area `r` so that memory goes astray. */
  predicate Leaky(r: Area, v: nat, end: nat)
  {
    && !r.lazy && Overlaps(r, v, end) && r.first <= r.past
    && Max(v, r.first) <= Min(end, r.past) && Leaks(r, Max(v, r.first), Min(end, r.past))
  }

  predicate NoLeak(rs: Slots, v: nat, end: nat)
  {
    forall k :: 0 <= k < MAX_AREAS && rs[k].Some? ==> !Leaky(rs[k].value, v, end)
  }

  /** The page of a lazy area never lies in an eager one. */
  lemma NotInBlock(own: Owners, id: nat, rs: Slots, i: nat, v: nat, x: int)
    requires AreasOk(own, id, rs) && i < MAX_AREAS && rs[i].Some? && !rs[i].value.lazy && Covers(rs[i].value, v)
    requires PageOf(rs, v).Some? && PageOf(rs, v).value <= x < PageOf(rs, v).value + 4096
    ensures own(x) == Held(id, Extent(i))
  {
    var r := rs[i].value;
    assert AreaOk(r) && AreaHeld(own, id, i, r);
    FindUnique(rs, i, v);
    BlockFrames(own, id, i, r.phys, NPages(r), v - r.first);
    assert Inside(x, r.phys, Order(NPages(r)));
    hide Order;
  }

  /** A cut at the back that keeps the order leaves every byte in place. */
  lemma StrayCut(own: Owners, id: nat, rs: Slots, i: nat, lo: nat)
    requires AreasOk(own, id, rs) && NoStray(own, id, rs) && i < MAX_AREAS && rs[i].Some? && !rs[i].value.lazy
    requires rs[i].value.first < lo <= rs[i].value.past
    requires Order(lo - rs[i].value.first) == Order(rs[i].value.past - rs[i].value.first)
    ensures NoStray(own, id, rs[i := Reshaped(rs[i].value, lo, rs[i].value.past)])
  {
    var r := rs[i].value;
    var rs' := rs[i := Reshaped(r, lo, r.past)];
    assert Disjoint(rs) by { hide AreaOk, AreaHeld; }
    forall x | Ours(own(x), id)
      ensures InPlace(own(x).use, rs', x)
    {
      hide AreasOk, Inside, Order, Disjoint;
      assert InPlace(own(x).use, rs, x);
      if own(x).use.Page? {
        var v := own(x).use.vpn;
        ReshapedPageOf(rs, i, lo, r.past, v);
        if lo <= v < r.past { NotInBlock(own, id, rs, i, v, x); }
      }
      hide PageOf;
    }
  }

  /** Removing an eager area whole releases its whole block and leaves nothing behind. */
  lemma StrayWhole(own: Owners, own': Owners, id: nat, rs: Slots, i: nat, o: nat, d: Option<nat>, top: nat)
    requires AreasOk(own, id, rs) && i < MAX_AREAS && rs[i].Some? && !rs[i].value.lazy
             && o == Order(NPages(rs[i].value))
    requires Returned(own, own', rs[i].value.phys, o, d, top)
    ensures BlockReleased(own', rs[i].value) && ExtentsKept(id, own, own', i)
    ensures NoStray(own, id, rs) ==> NoStray(own', id, rs[i := None])
  {
    var r := rs[i].value;
    var rs' := rs[i := None];
    assert AreaHeld(own, id, i, r) && Disjoint(rs);
    DisjointShrunk(rs, i, None);
    hide Inside, Order, Disjoint, AreaOk;
    if NoStray(own, id, rs) {
      forall x | Ours(own'(x), id)
        ensures InPlace(own'(x).use, rs', x)
      {
        hide AreasOk;
        assert own'(x) == own(x) && InPlace(own(x).use, rs, x);
        if own(x).use.Page? {
          SlotReplaced(rs, i, None, own(x).use.vpn);
          if Covers(r, own(x).use.vpn) { NotInBlock(own, id, rs, i, own(x).use.vpn, x); }
        }
        hide PageOf;
      }
    }
  }

  lemma SmallerOrder(a: nat, b: nat)
    requires a <= b && Order(a) != Order(b)
    ensures Size(Order(a)) < Size(Order(b))
  {
    OrderMono(a, b);
    hide Order;
    Pow2Mono(Order(a) + 1, Order(b));
  }

  lemma UnmapTight(own: Owners, id: nat, m0: Mem, o0: Owners, nodes: Nodes, rs: Slots, rs': Slots, v: nat, end: nat)
    requires SpaceOk(m0, o0, id, nodes, rs) && v < end && Trimmed(rs, rs', v, end)
    requires forall k :: 0 <= k < MAX_AREAS && rs[k].Some? ==> Trimmable(rs[k].value, v, end)
    requires forall k :: 0 <= k < MAX_AREAS ==> GivenBack(own, id, k, rs[k], v, end)
    requires NoLeak(rs, v, end) ==> NoStray(own, id, rs')
    ensures NoStray(own, id, rs') <==> NoLeak(rs, v, end)
  {
    SpaceAreas(m0, o0, id, nodes, rs);
    hide SpaceOk, NoStray, AreaOk, AreaHeld, Disjoint, TrimSlot, Trimmable, Leaky;
    if k :| 0 <= k < MAX_AREAS && rs[k].Some? && Leaky(rs[k].value, v, end) {
      LeakIsCut(rs[k].value, v, end);
      LeakStays(own, id, rs', k, rs[k].value, v, end);
    }
  }

  lemma LeakIsCut(r: Area, v: nat, end: nat)
    requires Leaky(r, v, end)
    ensures !r.lazy && Overlaps(r, v, end) && !(v <= r.first && r.past <= end)
  {
    hide Order;
  }

  /** After a leaky cut some byte of the old block belongs to no page and to no block. */
  lemma LeakStays(own: Owners, id: nat, rs': Slots, k: nat, r: Area, v: nat, end: nat)
    requires k < MAX_AREAS && v < end && AreaOk(r) && Leaky(r, v, end) && Trimmable(r, v, end)
    requires rs'[k] == TrimSlot(Some(r), v, end) && BlockHeld(own, id, k, r.phys, Order(NPages(r)))
    ensures !NoStray(own, id, rs')
  {
    var lo, hi := Max(v, r.first), Min(end, r.past);
    OverlapBounds(r, v, end);
    var x := r.phys;
    if lo != r.first {
      SmallerOrder(lo - r.first, r.past - r.first);
      x := r.phys + Size(Order(lo - r.first));
    }
    hide Order, Pow2, CountNonZero;
    assert Inside(x, r.phys, Order(NPages(r)));
    assert own(x) == Held(id, Extent(k)) && !InPlace(Extent(k), rs', x);
  }
}
