/**
  The invariant of an address space: its areas, its page table and the owner
  tags of physical memory agree.
 */
module Space {
  import opened Words
  import opened Buddy
  import opened Paging
  import opened Areas

  /** A well-formed area: inside the user half, with exact lazy bookkeeping. */
  ghost predicate AreaOk(r: Area)
  {
    && r.first <= r.past <= USER_PAGES
    && r.flags.present
    && r.lazyCount == CountNonZero(r.lazyPages)
    && (r.lazy ==> forall j :: r.past - r.first <= j < |r.lazyPages| ==> r.lazyPages[j] == 0)
    && (!r.lazy ==> r.first < r.past && r.lazyPages == [] && r.phys != 0 && r.past - r.first <= 1024)
  }

  function NPages(r: Area): nat
  {
    if r.first <= r.past then r.past - r.first else 0
  }

  /** The frame of a faulted-in page belongs to that page. */
  ghost predicate FrameHeld(own: Owners, id: nat, p: nat, v: nat)
  {
    p % 4096 == 0 && p < PHYS_LIMIT && forall x :: p <= x < p + 4096 ==> own(x) == Held(id, Page(v))
  }

  /** The whole block behind an eager area belongs to its slot and is aligned to its size. */
  ghost predicate BlockHeld(own: Owners, id: nat, i: nat, phys: nat, o: nat)
  {
    && o < MAX_ORDER && Aligned(phys, o) && phys + Size(o) <= PHYS_LIMIT
    && forall x :: Inside(x, phys, o) ==> own(x) == Held(id, Extent(i))
  }

  ghost predicate AreaHeld(own: Owners, id: nat, i: nat, r: Area)
  {
    if r.lazy then
      forall j :: 0 <= j < |r.lazyPages| && r.lazyPages[j] != 0 ==> FrameHeld(own, id, r.lazyPages[j], r.first + j)
    else BlockHeld(own, id, i, r.phys, Order(NPages(r)))
  }

  ghost predicate AreasOk(own: Owners, id: nat, rs: Slots)
  {
    && Disjoint(rs)
    && forall i :: 0 <= i < MAX_AREAS && rs[i].Some? ==> AreaOk(rs[i].value) && AreaHeld(own, id, i, rs[i].value)
  }

  /** The frame a leaf entry points to. */
  function FrameOf(e: Option<nat>): Option<nat>
  {
    if e.Some? then Some(Addr(e.value)) else None
  }

  /** Outside [lo, hi), page `v` has frame p in the table exactly when the areas say so. */
  ghost predicate AgreeOutside(m: Mem, nodes: Nodes, rs: Slots, lo: int, hi: int)
  {
    forall v: nat {:trigger Leaf(m, nodes, v)} :: v < USER_PAGES && !(lo <= v < hi) ==>
      FrameOf(Leaf(m, nodes, v)) == PageOf(rs, v)
  }

  ghost predicate SpaceOk(m: Mem, own: Owners, id: nat, nodes: Nodes, rs: Slots)
  {
    TableOk(m, own, id, nodes) && AreasOk(own, id, rs) && AgreeOutside(m, nodes, rs, 0, 0)
  }

  // -------------------------------------------- changes that do not concern us

  predicate Ours(o: Owner, id: nat)
  {
    o.Held? && o.space == id
  }

  /** No tag of space `id` is lost, and its tables are not overwritten. */
  ghost predicate Undisturbed(id: nat, own: Owners, m: Mem, own': Owners, m': Mem)
  {
    && (forall x :: Ours(own(x), id) ==> own'(x) == own(x))
    && (forall x :: IsTable(own(x), id) ==> m'(x) == m(x))
  }

  lemma EntriesUndisturbed(id: nat, own: Owners, m: Mem, own': Owners, m': Mem, nodes: Nodes)
    requires TableOk(m, own, id, nodes) && Undisturbed(id, own, m, own', m')
    ensures forall c {:trigger Entry(m', nodes, c)} :: Parent(c) in nodes ==>
              Entry(m', nodes, c) == Entry(m, nodes, c)
  {
    forall c | Parent(c) in nodes
      ensures Entry(m', nodes, c) == Entry(m, nodes, c)
    {
      SlotTag(own, id, nodes, c);
      Load64Same(m, m', Slot(nodes, c));
    }
  }

  lemma TableUndisturbed(id: nat, own: Owners, m: Mem, own': Owners, m': Mem, nodes: Nodes)
    requires TableOk(m, own, id, nodes) && Undisturbed(id, own, m, own', m')
    ensures TableOk(m', own', id, nodes)
    ensures SameLeavesBut(m, nodes, m', nodes, -1)
    ensures TableStepLike(m, nodes, m')
  {
    EntriesUndisturbed(id, own, m, own', m', nodes);
    hide Entry;
    forall c | ValidPos(c) && c.level <= 3 && Parent(c) in nodes
      ensures GoodEntry(m', nodes, c)
    {
      assert GoodEntry(m, nodes, c);
      if c.level <= 2 { assert Parent(Parent(c)) in nodes; }
    }
  }

  /** The kernel half of the root is as before. */
  ghost predicate TableStepLike(m: Mem, nodes: Nodes, m': Mem)
  {
    ROOT in nodes && UpperHalfSame(nodes[ROOT], m, m')
  }

  lemma AreasUndisturbed(id: nat, own: Owners, own': Owners, rs: Slots)
    requires AreasOk(own, id, rs)
    requires forall x :: Ours(own(x), id) ==> own'(x) == own(x)
    ensures AreasOk(own', id, rs)
  {
    forall i | 0 <= i < MAX_AREAS && rs[i].Some?
      ensures AreaHeld(own', id, i, rs[i].value)
    {
      AreaUndisturbed(id, own, own', i, rs[i].value);
    }
    hide AreaHeld, AreaOk;
  }

  lemma AreaUndisturbed(id: nat, own: Owners, own': Owners, i: nat, r: Area)
    requires AreaHeld(own, id, i, r)
    requires forall x :: Ours(own(x), id) ==> own'(x) == own(x)
    ensures AreaHeld(own', id, i, r)
  {
    hide Order, Aligned, Size;
  }

  // ------------------------------------------------------------ page ranges

  /** Pages [v0, v0 + n) map to consecutive frames from `phys`; other pages are as before. */
  ghost predicate LeavesMapped(m: Mem, nodes: Nodes, m': Mem, nodes': Nodes, v0: nat, n: nat, phys: nat, f: PtFlags)
  {
    forall w: nat {:trigger Leaf(m', nodes', w)} :: w < USER_PAGES ==>
      Leaf(m', nodes', w) == if v0 <= w < v0 + n then Some(LeafEntry(phys + 4096 * (w - v0), f)) else Leaf(m, nodes, w)
  }

  /** Pages [v0, v0 + n) are unmapped; other pages are as before. */
  ghost predicate LeavesCleared(m: Mem, nodes: Nodes, m': Mem, nodes': Nodes, v0: nat, n: nat)
  {
    forall w: nat {:trigger Leaf(m', nodes', w)} :: w < USER_PAGES ==>
      Leaf(m', nodes', w) == if v0 <= w < v0 + n then None else Leaf(m, nodes, w)
  }

  lemma MappedStep(m: Mem, nodes: Nodes, m1: Mem, n1: Nodes, m2: Mem, n2: Nodes, v0: nat, i: nat, phys: nat, f: PtFlags)
    requires LeavesMapped(m, nodes, m1, n1, v0, i, phys, f) && SameLeavesBut(m1, n1, m2, n2, v0 + i)
    requires Leaf(m2, n2, v0 + i) == Some(LeafEntry(phys + 4096 * i, f))
    ensures LeavesMapped(m, nodes, m2, n2, v0, i + 1, phys, f)
  {
    hide Leaf, LeafEntry;
  }

  lemma ClearedStep(m: Mem, nodes: Nodes, m1: Mem, m2: Mem, v0: nat, i: nat)
    requires LeavesCleared(m, nodes, m1, nodes, v0, i) && SameLeavesBut(m1, nodes, m2, nodes, v0 + i)
    requires Leaf(m2, nodes, v0 + i) == None
    ensures LeavesCleared(m, nodes, m2, nodes, v0, i + 1)
  {
    hide Leaf;
  }

  lemma EmptyRange(m: Mem, own: Owners, id: nat, nodes: Nodes, v0: nat)
    requires TableOk(m, own, id, nodes)
    ensures TableStep(id, own, m, nodes, own, m, nodes)
    ensures LeavesCleared(m, nodes, m, nodes, v0, 0)
    ensures forall phys, f :: LeavesMapped(m, nodes, m, nodes, v0, 0, phys, f)
  {
    TableStepSame(m, own, id, nodes);
    hide Leaf, LeafEntry, TableStep;
  }

  /** Unmap `n` pages starting at page `v0`. */
  method UnmapPages(ram: Ram, root: nat, v0: nat, n: nat, ghost id: nat, ghost nodes: Nodes)
    requires ram.Valid() && TableOk(ram.mem, ram.own, id, nodes) && root == nodes[ROOT]
    requires v0 + n <= USER_PAGES
    modifies ram`mem
    ensures ram.Valid()
    ensures TableStep(id, ram.own, old(ram.mem), nodes, ram.own, ram.mem, nodes)
    ensures LeavesCleared(old(ram.mem), nodes, ram.mem, nodes, v0, n)
  {
    ghost var m0 := ram.mem;
    hide ListsOk, TagsOk, Total, Placed, Linked, SameLeavesBut, Leaf, LeavesCleared, LeavesMapped, Confined,
      UpperHalfSame;
    EmptyRange(ram.mem, ram.own, id, nodes, v0);
    for i := 0 to n
      invariant ram.Valid()
      invariant TableStep(id, ram.own, m0, nodes, ram.own, ram.mem, nodes)
      invariant LeavesCleared(m0, nodes, ram.mem, nodes, v0, i)
    {
      UnmapNext(ram, root, v0, i, id, nodes, m0);
    }
  }

  method UnmapNext(ram: Ram, root: nat, v0: nat, i: nat, ghost id: nat, ghost nodes: Nodes, ghost m0: Mem)
    requires ram.Valid() && ROOT in nodes && root == nodes[ROOT] && v0 + i < USER_PAGES
    requires TableStep(id, ram.own, m0, nodes, ram.own, ram.mem, nodes)
    requires LeavesCleared(m0, nodes, ram.mem, nodes, v0, i)
    modifies ram`mem
    ensures ram.Valid()
    ensures TableStep(id, ram.own, m0, nodes, ram.own, ram.mem, nodes)
    ensures LeavesCleared(m0, nodes, ram.mem, nodes, v0, i + 1)
  {
    hide ListsOk, TagsOk, Total, Placed, Linked, SameLeavesBut, Leaf, LeavesCleared, Confined, UpperHalfSame;
    ghost var m1 := ram.mem;
    Unmap4k(ram, root, 4096 * (v0 + i), id, nodes);
    ClearedStep(m0, nodes, m1, ram.mem, v0, i);
    TableStepTrans(id, ram.own, m0, nodes, ram.own, m1, nodes, ram.own, ram.mem, nodes);
  }

  lemma RolledBack(m: Mem, nodes: Nodes, m1: Mem, n1: Nodes, m2: Mem, v0: nat, i: nat, n: nat, phys: nat, f: PtFlags)
    requires LeavesMapped(m, nodes, m1, n1, v0, i, phys, f) && LeavesCleared(m1, n1, m2, n1, v0, i) && i <= n
    requires forall w: nat :: v0 <= w < v0 + n ==> Leaf(m, nodes, w) == None
    ensures SameLeavesBut(m, nodes, m2, n1, -1)
  {
    hide Leaf, LeafEntry;
  }

  /** The tables below the root that `n` pages from page `v0` on need. */
  function RangeTables(v0: nat, n: nat): set<Pos>
  {
    if n == 0 then {} else RangeTables(v0, n - 1) + PathTables(v0 + n - 1)
  }

  lemma {:induction false} RangeMono(v0: nat, i: nat, n: nat)
    requires i <= n
    ensures RangeTables(v0, i) <= RangeTables(v0, n)
    decreases n
  {
    if i < n { RangeMono(v0, i, n - 1); }
  }

  /** Page `i` could not be mapped: a table of the whole range is missing. */
  lemma RangeCutShort(v0: nat, i: nat, n: nat, k0: set<Pos>, k1: set<Pos>, k: set<Pos>)
    requires i < n && k1 == k0 + RangeTables(v0, i)
    requires k <= k1 + PathTables(v0 + i) && !(PathTables(v0 + i) <= k)
    ensures k <= k0 + RangeTables(v0, n) && !(RangeTables(v0, n) <= k)
  {
    RangeMono(v0, i + 1, n);
    hide PathTables;
    var c :| c in PathTables(v0 + i) && c !in k;
    assert c in RangeTables(v0, i + 1);
  }

  /**
    Map `n` unmapped pages to consecutive frames. If a table cannot be allocated,
    the pages mapped so far are unmapped again and no translation has changed. It
    succeeds exactly when the reachable pages pay for the missing tables.
   */
  method MapPages(ram: Ram, root: nat, v0: nat, n: nat, phys: nat, f: PtFlags, ghost id: nat, ghost nodes: Nodes)
    returns (ok: bool, ghost nodes': Nodes)
    requires ram.Valid() && TableOk(ram.mem, ram.own, id, nodes) && root == nodes[ROOT]
    requires v0 + n <= USER_PAGES && f.present && phys % 4096 == 0 && phys + 4096 * n <= PHYS_LIMIT
    requires forall w: nat :: v0 <= w < v0 + n ==> Leaf(ram.mem, nodes, w) == None
    modifies ram`mem, ram`heads, ram`freePages, ram`own
    ensures ram.Valid()
    ensures TableStep(id, old(ram.own), old(ram.mem), nodes, ram.own, ram.mem, nodes')
    ensures ok ==> LeavesMapped(old(ram.mem), nodes, ram.mem, nodes', v0, n, phys, f)
    ensures !ok ==> SameLeavesBut(old(ram.mem), nodes, ram.mem, nodes', -1)
    ensures ok <==> Total(old(ram.heads)) >= Missing(nodes, RangeTables(v0, n))
    ensures TablesPaid(old(ram.heads), nodes, ram.heads, nodes')
    ensures ok ==> nodes'.Keys == nodes.Keys + RangeTables(v0, n)
  {
    ghost var m0, o0, h0 := ram.mem, ram.own, ram.heads;
    nodes' := nodes;
    hide ListsOk, TagsOk, Total, Placed, Linked, SameLeavesBut, Leaf, LeafEntry, LeavesMapped, LeavesCleared, Confined,
      UpperHalfSame, PathTables, Missing;
    EmptyRange(ram.mem, ram.own, id, nodes, v0);
    for i := 0 to n
      invariant ram.Valid()
      invariant TableStep(id, o0, m0, nodes, ram.own, ram.mem, nodes')
      invariant LeavesMapped(m0, nodes, ram.mem, nodes', v0, i, phys, f)
      invariant TablesPaid(h0, nodes, ram.heads, nodes') && nodes'.Keys == nodes.Keys + RangeTables(v0, i)
    {
      ok, nodes' := MapNext(ram, root, v0, i, n, phys, f, id, nodes, nodes', o0, m0, h0);
      if !ok { return; }
    }
    NeedMet(h0, nodes, ram.heads, nodes', RangeTables(v0, n));
    return true, nodes';
  }

  /** One iteration of `MapPages`: map page `i`, or roll back. */
  method MapNext(ram: Ram, root: nat, v0: nat, i: nat, n: nat, phys: nat, f: PtFlags, ghost id: nat, ghost nodes: Nodes,
                 ghost n1: Nodes, ghost o0: Owners, ghost m0: Mem, ghost h0: Lists)
    returns (ok: bool, ghost nodes': Nodes)
    requires ram.Valid() && ROOT in nodes && root == nodes[ROOT] && i < n
    requires v0 + n <= USER_PAGES && f.present && phys % 4096 == 0 && phys + 4096 * n <= PHYS_LIMIT
    requires forall w: nat :: v0 <= w < v0 + n ==> Leaf(m0, nodes, w) == None
    requires TableStep(id, o0, m0, nodes, ram.own, ram.mem, n1)
    requires LeavesMapped(m0, nodes, ram.mem, n1, v0, i, phys, f)
    requires TablesPaid(h0, nodes, ram.heads, n1) && n1.Keys == nodes.Keys + RangeTables(v0, i)
    modifies ram`mem, ram`heads, ram`freePages, ram`own
    ensures ram.Valid()
    ensures TableStep(id, o0, m0, nodes, ram.own, ram.mem, nodes')
    ensures ok ==> LeavesMapped(m0, nodes, ram.mem, nodes', v0, i + 1, phys, f)
    ensures !ok ==> SameLeavesBut(m0, nodes, ram.mem, nodes', -1)
    ensures TablesPaid(h0, nodes, ram.heads, nodes')
    ensures ok ==> nodes'.Keys == nodes.Keys + RangeTables(v0, i + 1)
    ensures !ok ==> Total(h0) < Missing(nodes, RangeTables(v0, n))
  {
    hide ListsOk, TagsOk, Total, Placed, Linked, SameLeavesBut, Leaf, LeafEntry, LeavesMapped, LeavesCleared, Confined,
      UpperHalfSame, TablesPaid, PathTables, Missing;
    ghost var m1, o1, h1 := ram.mem, ram.own, ram.heads;
    ok, nodes' := Map4k(ram, root, 4096 * (v0 + i), phys + 4096 * i, f, id, n1);
    PaidTrans(h0, nodes, h1, n1, ram.heads, nodes');
    TableStepTrans(id, o0, m0, nodes, o1, m1, n1, ram.own, ram.mem, nodes');
    if ok {
      MappedStep(m0, nodes, m1, n1, ram.mem, nodes', v0, i, phys, f);
    } else {
      ghost var m2 := ram.mem;
      RangeCutShort(v0, i, n, nodes.Keys, n1.Keys, nodes'.Keys);
      NeedUnmet(h0, nodes, ram.heads, nodes', RangeTables(v0, n));
      QuietMapped(m0, nodes, m1, n1, m2, nodes', v0, i, phys, f);
      UnmapPages(ram, root, v0, i, id, nodes');
      TableStepTrans(id, o0, m0, nodes, ram.own, m2, nodes', ram.own, ram.mem, nodes');
      RolledBack(m0, nodes, m2, nodes', ram.mem, v0, i, n, phys, f);
    }
  }

  lemma QuietMapped(m: Mem, nodes: Nodes, m1: Mem, n1: Nodes, m2: Mem, n2: Nodes, v0: nat, i: nat, phys: nat,
                    f: PtFlags)
    requires LeavesMapped(m, nodes, m1, n1, v0, i, phys, f) && SameLeavesBut(m1, n1, m2, n2, -1)
    ensures LeavesMapped(m, nodes, m2, n2, v0, i, phys, f)
  {
    hide Leaf, LeafEntry;
  }
}
