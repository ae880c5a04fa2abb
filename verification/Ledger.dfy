/**
  The books of an address space: which free lists an unmap leaves behind, and how many
  pages it does not give back.
 */
module Ledger {
  import opened Words
  import opened Buddy
  import opened Paging
  import opened Areas
  import opened Space
  import opened Faults
  import opened Unmaps
  import opened Strays
  import opened Costs

  // ------------------------------------------------------------------ free lists

  /** The free lists after the frames of pages [lo, hi) of a lazy area came back, in order. */
  function LazyLists(h: Lists, r: Area, lo: nat, hi: nat): Lists
    requires r.first <= lo
    decreases hi
  {
    if hi <= lo then h else
      var h1 := LazyLists(h, r, lo, hi - 1);
      var j := hi - 1 - r.first;
      if j < |r.lazyPages| && r.lazyPages[j] != 0 then ListsAfter(h1, r.lazyPages[j], 0) else h1
  }

  lemma LazyListsNext(h: Lists, r: Area, lo: nat, w: nat)
    requires r.first <= lo <= w && w - r.first < |r.lazyPages|
    ensures var h1, p := LazyLists(h, r, lo, w), r.lazyPages[w - r.first];
            LazyLists(h, r, lo, w + 1) == if p != 0 then ListsAfter(h1, p, 0) else h1
  {
    hide ListsAfter;
  }

  lemma {:induction false} LazyListsEnd(h: Lists, r: Area, lo: nat, w: nat, hi: nat)
    requires r.first <= lo <= w <= hi && (w == hi || r.first + |r.lazyPages| <= w)
    ensures LazyLists(h, r, lo, hi) == LazyLists(h, r, lo, w)
    decreases hi
  {
    if w < hi { LazyListsEnd(h, r, lo, w, hi - 1); }
  }

  /** The block of an eager area that is unmapped whole comes back, and nothing of one that is cut. */
  function SlotLists(h: Lists, slot: Option<Area>, v: nat, end: nat): Lists
    requires slot.Some? ==> slot.value.first <= slot.value.past
  {
    if slot.None? || !Overlaps(slot.value, v, end) then h else
      var r := slot.value;
      var lo, hi := Max(v, r.first), Min(end, r.past);
      if r.lazy then LazyLists(h, r, lo, hi)
      else if lo == r.first && hi == r.past && Order(NPages(r)) < MAX_ORDER then ListsAfter(h, r.phys, Order(NPages(r)))
      else h
  }

  /** The free lists after unmapping [v, end) from the first `n` slots. */
  function UnmapLists(h: Lists, rs: Slots, v: nat, end: nat, n: nat): Lists
    requires n <= MAX_AREAS && forall k :: 0 <= k < MAX_AREAS && rs[k].Some? ==> rs[k].value.first <= rs[k].value.past
  {
    if n == 0 then h else SlotLists(UnmapLists(h, rs, v, end, n - 1), rs[n - 1], v, end)
  }

  // ----------------------------------------------------------------------- waste

  /** Pages that the area in a slot neither keeps nor gives back. */
  function SlotWaste(slot: Option<Area>, v: nat, end: nat): int
    requires v < end && (slot.Some? ==> slot.value.first <= slot.value.past)
  {
    if slot.None? || !Overlaps(slot.value, v, end) || slot.value.lazy || TrimSlot(slot, v, end).None? then 0
    else SlotPages(slot) - SlotPages(TrimSlot(slot, v, end))
  }

  function Waste(rs: Slots, v: nat, end: nat, n: nat): int
    requires v < end && n <= MAX_AREAS
    requires forall k :: 0 <= k < MAX_AREAS && rs[k].Some? ==> rs[k].value.first <= rs[k].value.past
  {
    if n == 0 then 0 else Waste(rs, v, end, n - 1) + SlotWaste(rs[n - 1], v, end)
  }

  /** Cutting an eager area wastes pages exactly when it leaks. */
  lemma WasteIsLeak(r: Area, v: nat, end: nat)
    requires v < end && AreaOk(r) && Trimmable(r, v, end)
    ensures r.first <= r.past
    ensures SlotWaste(Some(r), v, end) >= 0 && (SlotWaste(Some(r), v, end) == 0 <==> !Leaky(r, v, end))
  {
    if Overlaps(r, v, end) && !r.lazy {
      var lo, hi := Max(v, r.first), Min(end, r.past);
      if lo == r.first && hi < r.past {
        FrontSmaller(NPages(r), r.past - hi);
      } else if hi == r.past && lo > r.first {
        BackOrder(NPages(r), lo - r.first);
      }
    }
  }

  lemma FrontSmaller(n: nat, rest: nat)
    requires 0 < rest < n && (n - rest) % Pow2(Order(rest)) == 0
    ensures Pow2(Order(rest)) < Pow2(Order(n))
  {
    OrderIsLeast(rest);
    OrderIsLeast(n);
    hide Order;
    var p := Pow2(Order(rest));
    assert n - rest >= p;
    if Order(n) <= Order(rest) { Pow2Mono(Order(n), Order(rest)); }
    if Order(rest) < Order(n) { Pow2Strict(Order(rest), Order(n)); }
  }

  lemma Pow2Strict(a: nat, b: nat)
    requires a < b
    ensures Pow2(a) < Pow2(b)
  {
    Pow2Mono(a + 1, b);
  }

  lemma BackOrder(n: nat, rest: nat)
    requires 0 < rest < n
    ensures Pow2(Order(rest)) <= Pow2(Order(n)) && (Pow2(Order(rest)) == Pow2(Order(n)) <==> Order(rest) == Order(n))
  {
    OrderIsLeast(rest);
    OrderIsLeast(n);
    hide Order;
    if Order(rest) < Order(n) { Pow2Strict(Order(rest), Order(n)); }
  }

  /** An unmap wastes nothing exactly when no eager area leaks. */
  lemma {:induction false} WasteIsNoLeak(rs: Slots, v: nat, end: nat, n: nat)
    requires v < end && n <= MAX_AREAS
    requires forall k :: 0 <= k < MAX_AREAS && rs[k].Some? ==>
               AreaOk(rs[k].value) && Trimmable(rs[k].value, v, end) && rs[k].value.first <= rs[k].value.past
    ensures Waste(rs, v, end, n) >= 0
    ensures Waste(rs, v, end, n) == 0 <==> forall k :: 0 <= k < n && rs[k].Some? ==> !Leaky(rs[k].value, v, end)
  {
    hide SlotWaste, Leaky, AreaOk, Trimmable;
    if n > 0 {
      WasteIsNoLeak(rs, v, end, n - 1);
      if rs[n - 1].Some? { WasteIsLeak(rs[n - 1].value, v, end); } else { NoWaste(v, end); }
    }
  }

  lemma NoWaste(v: nat, end: nat)
    requires v < end
    ensures SlotWaste(None, v, end) == 0
  {
  }

  lemma WasteLeaks(m: Mem, own: Owners, id: nat, nodes: Nodes, rs: Slots, v: nat, end: nat)
    requires SpaceOk(m, own, id, nodes, rs) && v < end
    requires forall k :: 0 <= k < MAX_AREAS && rs[k].Some? ==>
               Trimmable(rs[k].value, v, end) && rs[k].value.first <= rs[k].value.past
    ensures Waste(rs, v, end, MAX_AREAS) >= 0 && (Waste(rs, v, end, MAX_AREAS) == 0 <==> NoLeak(rs, v, end))
  {
    SpaceAreas(m, own, id, nodes, rs);
    hide SpaceOk, Trimmable, AreaHeld, Disjoint, Leaky, SlotWaste, AreaOk;
    WasteIsNoLeak(rs, v, end, MAX_AREAS);
  }

  lemma DropCount(r: Area, w: nat)
    requires Droppable(r, w) && r.lazyCount > 0
    ensures SlotPages(Some(Dropped(r, w))) == SlotPages(Some(r)) - 1
  {
  }

  /** Reshaping an emptied range does not change how many pages a lazy area holds. */
  lemma ReshapedPages(m: Mem, own: Owners, id: nat, nodes: Nodes, rs: Slots, i: nat, lo: nat, hi: nat)
    requires SpaceOk(m, own, id, nodes, rs) && i < MAX_AREAS && rs[i].Some? && rs[i].value.lazy
    requires rs[i].value.first <= lo <= hi <= rs[i].value.past
    ensures var q := WithoutFrames(rs[i].value, lo, hi); SlotPages(Reshaped(q, lo, hi)) == SlotPages(Some(q))
  {
    SpaceAreas(m, own, id, nodes, rs);
    hide SpaceOk, AreaHeld, Disjoint;
    var r := rs[i].value;
    assert AreaOk(r);
    var q := WithoutFrames(r, lo, hi);
    if lo == r.first && hi == r.past { CountAllZero(q.lazyPages); }
  }

  lemma ReshapedNone(r: Area, lo: nat, hi: nat)
    requires r.first <= lo <= hi <= r.past
    ensures Reshaped(r, lo, hi).None? <==> lo == r.first && hi == r.past
  {
  }
}
