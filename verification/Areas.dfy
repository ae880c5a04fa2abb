/**
  Virtual memory areas (mm/src/vmm.rs) and the page map they describe.

  The kernel only ever stores page multiples in `start` and `end`, so an area is
  kept here as the page range [first, past).
 */
module Areas {
  import opened Words
  import opened Paging

  datatype PageFlags = PageFlags(present: bool, writable: bool, user: bool, execute: bool, noCache: bool)

  /** mm::PageFlags to x86-64 bits: a page is no-execute unless EXECUTE is asked for. */
  function Translate(f: PageFlags): PtFlags
  {
    PtFlags(f.present, f.writable, f.user, f.noCache, !f.execute)
  }

  /** The flags ask for exactly this access. */
  predicate Asks(f: PageFlags, x: Access)
  {
    f.user == x.user && f.writable == x.write && f.execute == x.exec
  }

  datatype Area = Area(
    first: nat, past: nat,            // page range
    phys: nat,                        // eager areas: base of the contiguous block
    flags: PageFlags,
    lazy: bool,
    lazyPages: seq<nat>,              // lazy areas: frame per page, 0 = not faulted in
    lazyCount: nat)

  const MAX_AREAS: nat := 8

  type Slots = s: seq<Option<Area>> | |s| == MAX_AREAS witness seq(MAX_AREAS, _ => None)

  predicate Covers(r: Area, v: int)
  {
    r.first <= v < r.past
  }

  /** Entries of `s` that are not zero. */
  function CountNonZero(s: seq<nat>): nat
  {
    if s == [] then 0 else CountNonZero(s[..|s| - 1]) + if s[|s| - 1] != 0 then 1 else 0
  }

  /** The frame behind page `v` of area `r`. */
  function Backing(r: Area, v: nat): Option<nat>
    requires Covers(r, v)
  {
    if r.lazy then
      var j := v - r.first;
      if j < |r.lazyPages| && r.lazyPages[j] != 0 then Some(r.lazyPages[j]) else None
    else Some(r.phys + 4096 * (v - r.first))
  }

  /** Index of the first area at or after `i` that covers page `v`, or MAX_AREAS. */
  function FindFrom(rs: Slots, v: nat, i: nat): (j: nat)
    requires i <= MAX_AREAS
    ensures i <= j <= MAX_AREAS
    ensures j < MAX_AREAS ==> rs[j].Some? && Covers(rs[j].value, v)
    ensures forall k :: i <= k < j && rs[k].Some? ==> !Covers(rs[k].value, v)
    decreases MAX_AREAS - i
  {
    if i == MAX_AREAS then MAX_AREAS
    else if rs[i].Some? && Covers(rs[i].value, v) then i
    else FindFrom(rs, v, i + 1)
  }

  /** The frame behind page `v`: what `virt_to_phys` computes, page by page. */
  function PageOf(rs: Slots, v: nat): Option<nat>
  {
    var i := FindFrom(rs, v, 0);
    if i < MAX_AREAS then Backing(rs[i].value, v) else None
  }

  function VirtToPhys(rs: Slots, va: nat): Option<nat>
  {
    match PageOf(rs, va / 4096)
    case None => None
    case Some(p) => Some(p + va % 4096)
  }

  /** Areas do not share pages (a heap shrunk to nothing is an empty area). */
  predicate Apart(r: Area, q: Area)
  {
    r.past <= q.first || q.past <= r.first || r.past <= r.first || q.past <= q.first
  }

  ghost predicate Disjoint(rs: Slots)
  {
    forall i, j :: 0 <= i < j < MAX_AREAS && rs[i].Some? && rs[j].Some? ==> Apart(rs[i].value, rs[j].value)
  }

  predicate Covered(rs: Slots, v: nat)
  {
    FindFrom(rs, v, 0) < MAX_AREAS
  }

  /** With disjoint areas, the area that covers a page decides its frame. */
  lemma FindUnique(rs: Slots, i: nat, v: nat)
    requires Disjoint(rs) && i < MAX_AREAS && rs[i].Some? && Covers(rs[i].value, v)
    ensures FindFrom(rs, v, 0) == i
  {
    var j := FindFrom(rs, v, 0);
    assert j <= i;
  }

  /** Replacing one area changes the page map inside the old and new area only. */
  lemma SlotReplaced(rs: Slots, i: nat, r: Option<Area>, v: nat)
    requires i < MAX_AREAS && Disjoint(rs) && Disjoint(rs[i := r])
    ensures PageOf(rs[i := r], v)
            == if r.Some? && Covers(r.value, v) then Backing(r.value, v)
               else if rs[i].Some? && Covers(rs[i].value, v) then None
               else PageOf(rs, v)
  {
    var rs' := rs[i := r];
    var j, j' := FindFrom(rs, v, 0), FindFrom(rs', v, 0);
    if r.Some? && Covers(r.value, v) {
      FindUnique(rs', i, v);
    } else {
      if j < MAX_AREAS && j != i {
        assert rs'[j] == rs[j];
        FindUnique(rs', j, v);
      }
      if j' < MAX_AREAS {
        assert j' != i && rs[j'] == rs'[j'];
        FindUnique(rs, j', v);
      }
    }
  }

  /** Shrinking an area, or removing it, keeps the areas disjoint. */
  lemma DisjointShrunk(rs: Slots, i: nat, r: Option<Area>)
    requires Disjoint(rs) && i < MAX_AREAS && rs[i].Some?
    requires r.Some? ==> rs[i].value.first <= r.value.first && r.value.past <= rs[i].value.past
    ensures Disjoint(rs[i := r])
  {
  }

  /** No area meets the page range [first, past). */
  predicate Vacant(rs: Slots, first: nat, past: nat)
  {
    forall i :: 0 <= i < MAX_AREAS && rs[i].Some? ==> rs[i].value.past <= first || past <= rs[i].value.first
  }

  lemma DisjointAdded(rs: Slots, i: nat, r: Area)
    requires Disjoint(rs) && i < MAX_AREAS && rs[i].None? && Vacant(rs, r.first, r.past)
    ensures Disjoint(rs[i := Some(r)])
  {
  }

  lemma VacantUncovered(rs: Slots, first: nat, past: nat, v: nat)
    requires Vacant(rs, first, past) && first <= v < past
    ensures PageOf(rs, v) == None && !Covered(rs, v)
  {
  }

  /** The first free slot at or after `i`, or MAX_AREAS. */
  function FreeFrom(rs: Slots, i: nat): (j: nat)
    requires i <= MAX_AREAS
    ensures i <= j <= MAX_AREAS
    ensures j < MAX_AREAS ==> rs[j].None?
    ensures forall k :: i <= k < j ==> rs[k].Some?
    decreases MAX_AREAS - i
  {
    if i == MAX_AREAS then MAX_AREAS else if rs[i].None? then i else FreeFrom(rs, i + 1)
  }

  function FreeSlot(rs: Slots): (j: nat)
    ensures j <= MAX_AREAS
  {
    FreeFrom(rs, 0)
  }

  method FirstFree(rs: Slots) returns (slot: nat)
    ensures slot == FreeSlot(rs) <= MAX_AREAS
    ensures slot < MAX_AREAS ==> rs[slot].None?
  {
    slot := 0;
    while slot < MAX_AREAS && rs[slot].Some?
      invariant slot <= MAX_AREAS && FreeFrom(rs, slot) == FreeSlot(rs)
    {
      slot := slot + 1;
    }
  }

  /** The area that contains page `v`, by slot number. */
  method Find(rs: Slots, v: nat) returns (i: nat)
    ensures i == FindFrom(rs, v, 0)
  {
    i := 0;
    while i < MAX_AREAS && !(rs[i].Some? && Covers(rs[i].value, v))
      invariant i <= MAX_AREAS && FindFrom(rs, v, i) == FindFrom(rs, v, 0)
    {
      i := i + 1;
    }
  }

  method IsVacant(rs: Slots, first: nat, past: nat) returns (vacant: bool)
    ensures vacant <==> Vacant(rs, first, past)
  {
    for i := 0 to MAX_AREAS
      invariant forall k :: 0 <= k < i && rs[k].Some? ==> rs[k].value.past <= first || past <= rs[k].value.first
    {
      if rs[i].Some? && first < rs[i].value.past && past > rs[i].value.first {
        return false;
      }
    }
    return true;
  }

  // ------------------------------------------------------- pages to orders

  /** The least order whose block holds `pages` pages. */
  ghost predicate LeastOrder(pages: nat, o: nat)
  {
    pages <= Pow2(o) && forall k :: 0 <= k < o ==> Pow2(k) < pages
  }

  function OrderFrom(pages: nat, o: nat): nat
    decreases pages - Pow2(o)
  {
    if Pow2(o) >= pages then o else OrderFrom(pages, o + 1)
  }

  function Order(pages: nat): nat
  {
    OrderFrom(pages, 0)
  }

  lemma {:induction false} OrderFromIsLeast(pages: nat, o: nat)
    requires forall k :: 0 <= k < o ==> Pow2(k) < pages
    ensures LeastOrder(pages, OrderFrom(pages, o))
    decreases pages - Pow2(o)
  {
    if Pow2(o) < pages { OrderFromIsLeast(pages, o + 1); }
  }

  lemma OrderIsLeast(pages: nat)
    ensures LeastOrder(pages, Order(pages))
  {
    OrderFromIsLeast(pages, 0);
  }

  lemma OrderAtMost(pages: nat, o: nat)
    requires pages <= Pow2(o)
    ensures Order(pages) <= o
  {
    OrderIsLeast(pages);
  }

  method PagesToOrder(pages: nat) returns (order: nat)
    ensures order == Order(pages) && LeastOrder(pages, order)
  {
    order := 0;
    var cap := 1;
    while cap < pages
      invariant cap == Pow2(order)
      invariant OrderFrom(pages, order) == Order(pages)
      decreases pages - cap
    {
      cap := cap * 2;
      order := order + 1;
    }
    OrderIsLeast(pages);
  }
}
