/**
  What the processor lets a process do with its pages, and what the process asked for.
 */
module Rights {
  import opened Words
  import opened Buddy
  import opened Paging
  import opened Areas
  import opened Space
  import opened Steps
  import opened Faults
  import opened Protects

  // ------------------------------------------------- from leaf entries to walks

  /** The processor grants a page exactly the access that the flags of its leaf entry ask for. */
  lemma WalkPermits(m: Mem, own: Owners, id: nat, nodes: Nodes, v: nat, p: nat, f: PageFlags, x: Access)
    requires TableOk(m, own, id, nodes) && v < USER_PAGES && p % 4096 == 0 && p < PHYS_LIMIT
    requires Leaf(m, nodes, v) == Some(LeafEntry(p, Translate(f))) && Asks(f, x)
    ensures Permits(HwWalk(m, nodes[ROOT], v), x) && HwWalk(m, nodes[ROOT], v).addr == p
  {
    WalkIsLeaf(m, own, id, nodes, v);
    LeafEntryFields(p, Translate(f));
    hide TableOk, Leaf, LeafEntry, HwWalk, Addr, Writable, User, NoExec, Huge;
  }

  /** Frames of an eager area are aligned and in range. */
  lemma EagerFrame(m: Mem, own: Owners, id: nat, nodes: Nodes, rs: Slots, i: nat, w: nat)
    requires SpaceOk(m, own, id, nodes, rs) && i < MAX_AREAS && rs[i].Some? && !rs[i].value.lazy
             && Covers(rs[i].value, w)
    ensures var p := rs[i].value.phys + 4096 * (w - rs[i].value.first); p % 4096 == 0 && p < PHYS_LIMIT
  {
    hide SpaceOk, AreaOk, Order, BlockHeld, Disjoint;
    SpaceAreas(m, own, id, nodes, rs);
    BlockFrames(own, id, i, rs[i].value.phys, NPages(rs[i].value), w - rs[i].value.first);
  }

  /** A freshly mapped page is open to exactly what its flags ask for. */
  lemma EagerWalk(m: Mem, nodes: Nodes, rs: Slots, m': Mem, own': Owners, id: nat, nodes': Nodes, rs': Slots,
                  first: nat, n: nat, flags: PageFlags, w: nat)
    requires SpaceOk(m', own', id, nodes', rs') && EagerAdded(m, nodes, rs, m', nodes', rs', first, n, flags)
    requires first <= w < first + n && w < USER_PAGES
    ensures Permits(HwWalk(m', nodes'[ROOT], w), Access(flags.user, flags.writable, flags.execute))
  {
    hide AreasOk, AgreeOutside, TableOk, Permits, HwWalk, Leaf, LeafEntry, FreeSlot;
    var phys := rs'[FreeSlot(rs)].value.phys;
    EagerFrame(m', own', id, nodes', rs', FreeSlot(rs), w);
    WalkPermits(m', own', id, nodes', w, phys + 4096 * (w - first), flags,
                Access(flags.user, flags.writable, flags.execute));
  }

  /** Every page of the range is open to exactly this access. */
  ghost predicate OpenTo(m: Mem, root: nat, first: nat, n: nat, x: Access)
  {
    forall w: nat :: first <= w < first + n ==> Permits(HwWalk(m, root, w), x)
  }

  lemma EagerWalks(m: Mem, nodes: Nodes, rs: Slots, m': Mem, own': Owners, id: nat, nodes': Nodes, rs': Slots,
                   first: nat, n: nat, flags: PageFlags)
    requires SpaceOk(m', own', id, nodes', rs') && EagerAdded(m, nodes, rs, m', nodes', rs', first, n, flags)
    requires first + n <= USER_PAGES
    ensures OpenTo(m', nodes'[ROOT], first, n, Access(flags.user, flags.writable, flags.execute))
  {
    forall w: nat | first <= w < first + n
      ensures Permits(HwWalk(m', nodes'[ROOT], w), Access(flags.user, flags.writable, flags.execute))
    {
      hide AreasOk, AgreeOutside, TableOk, Permits, HwWalk, EagerAdded;
      EagerWalk(m, nodes, rs, m', own', id, nodes', rs', first, n, flags, w);
    }
  }

  lemma FoundFrame(m: Mem, own: Owners, id: nat, nodes: Nodes, rs: Slots, v: nat)
    requires SpaceOk(m, own, id, nodes, rs) && PageOf(rs, v).Some?
    ensures PageOf(rs, v).value % 4096 == 0 && PageOf(rs, v).value < PHYS_LIMIT && v < USER_PAGES
  {
    BackedIsFound(rs, v);
    BackedPage(m, own, id, nodes, rs, v, FindFrom(rs, v, 0));
  }

  /** A page whose protection was changed is open to exactly what was asked for. */
  lemma ProtectedWalk(m: Mem, own: Owners, nodes: Nodes, rs: Slots, m': Mem, own': Owners, id: nat, nodes': Nodes,
                      f: PageFlags, x: Access, v: nat, end: nat, w: nat)
    requires SpaceOk(m, own, id, nodes, rs) && TableOk(m', own', id, nodes')
    requires Protected(m, nodes, rs, m', nodes', Translate(f), v, end) && Asks(f, x)
    requires v <= w < end && PageOf(rs, w).Some?
    ensures Permits(HwWalk(m', nodes'[ROOT], w), x)
  {
    hide SpaceOk, TableOk, Permits, HwWalk, Leaf, LeafEntry, PageOf, Asks;
    FoundFrame(m, own, id, nodes, rs, w);
    WalkPermits(m', own', id, nodes', w, PageOf(rs, w).value, f, x);
  }

  lemma ProtectedWalks(m: Mem, own: Owners, nodes: Nodes, rs: Slots, m': Mem, own': Owners, id: nat, nodes': Nodes,
                       rs': Slots, f: PageFlags, x: Access, v: nat, end: nat)
    requires SpaceOk(m, own, id, nodes, rs) && SpaceOk(m', own', id, nodes', rs') && nodes'[ROOT] == nodes[ROOT]
    requires Protected(m, nodes, rs, m', nodes', Translate(f), v, end) && Asks(f, x)
    ensures forall w: nat :: w < USER_PAGES ==>
              if v <= w < end && PageOf(rs, w).Some? then Permits(HwWalk(m', nodes[ROOT], w), x)
              else HwWalk(m', nodes[ROOT], w) == HwWalk(m, nodes[ROOT], w)
  {
    var root := nodes[ROOT];
    hide AreasOk, AgreeOutside, TableOk, Permits, HwWalk, Leaf, LeafEntry, PageOf, Asks;
    forall w: nat | w < USER_PAGES
      ensures if v <= w < end && PageOf(rs, w).Some? then Permits(HwWalk(m', root, w), x)
              else HwWalk(m', root, w) == HwWalk(m, root, w)
    {
      if v <= w < end && PageOf(rs, w).Some? {
        ProtectedWalk(m, own, nodes, rs, m', own', id, nodes', f, x, v, end, w);
      } else {
        SameWalk(m, own, nodes, m', own', id, nodes', w);
      }
    }
  }

  /** A page that was just faulted in is open to exactly what the flags of its area ask for. */
  lemma FaultWalk(m: Mem, nodes: Nodes, rs: Slots, m': Mem, own': Owners, id: nat, nodes': Nodes, rs': Slots, v: nat)
    requires SpaceOk(m', own', id, nodes', rs') && FaultHandled(m, nodes, rs, m', nodes', rs', v)
    ensures var f := rs[FindFrom(rs, v, 0)].value.flags;
            Permits(HwWalk(m', nodes'[ROOT], v), Access(f.user, f.writable, f.execute))
  {
    var i := FindFrom(rs, v, 0);
    var f, p := rs[i].value.flags, PageOf(rs', v).value;
    FoundFrame(m', own', id, nodes', rs', v);
    hide AreasOk, AgreeOutside, TableOk, Permits, HwWalk, Leaf, LeafEntry, FindFrom, FaultedIn, PageOf;
    WalkPermits(m', own', id, nodes', v, p, f, Access(f.user, f.writable, f.execute));
  }

  /** Where the leaves agree, so do the walks. */
  lemma SameWalk(m: Mem, own: Owners, nodes: Nodes, m': Mem, own': Owners, id: nat, nodes': Nodes, w: nat)
    requires TableOk(m, own, id, nodes) && TableOk(m', own', id, nodes') && w < USER_PAGES
    requires Leaf(m', nodes', w) == Leaf(m, nodes, w)
    ensures HwWalk(m', nodes'[ROOT], w) == HwWalk(m, nodes[ROOT], w)
  {
    hide TableOk, Leaf, HwWalk, Decode;
    WalkIsLeaf(m, own, id, nodes, w);
    WalkIsLeaf(m', own', id, nodes', w);
  }

  lemma LeafWalks(m: Mem, own: Owners, nodes: Nodes, m': Mem, own': Owners, id: nat, nodes': Nodes, lo: int, hi: int)
    requires TableOk(m, own, id, nodes) && TableOk(m', own', id, nodes') && nodes'[ROOT] == nodes[ROOT]
    requires forall w: nat {:trigger Leaf(m', nodes', w)} :: w < USER_PAGES && !(lo <= w < hi) ==>
               Leaf(m', nodes', w) == Leaf(m, nodes, w)
    ensures forall w: nat :: w < USER_PAGES && !(lo <= w < hi) ==>
              HwWalk(m', nodes[ROOT], w) == HwWalk(m, nodes[ROOT], w)
  {
    var root := nodes[ROOT];
    hide TableOk, HwWalk, Leaf;
    forall w: nat | w < USER_PAGES && !(lo <= w < hi)
      ensures HwWalk(m', root, w) == HwWalk(m, root, w)
    {
      SameWalk(m, own, nodes, m', own', id, nodes', w);
    }
  }

  /** The frame a translation leads to. */
  function WalkFrame(t: Translation): Option<nat>
  {
    if t.Mapped? then Some(t.addr) else None
  }

  /** In a well-formed space the processor finds frame p behind a page exactly when the areas say so. */
  lemma WalkAgrees(m: Mem, own: Owners, id: nat, nodes: Nodes, rs: Slots, w: nat)
    requires SpaceOk(m, own, id, nodes, rs) && w < USER_PAGES
    ensures ROOT in nodes && WalkFrame(HwWalk(m, nodes[ROOT], w)) == PageOf(rs, w)
  {
    SpaceAgrees(m, own, id, nodes, rs);
    WalkIsLeaf(m, own, id, nodes, w);
    assert FrameOf(Leaf(m, nodes, w)) == PageOf(rs, w);
    hide SpaceOk, Linked, AreasOk, Leaf, PageOf, HwWalk, Addr;
  }

  /** An unbacked page is not translated. */
  lemma UnbackedFaults(m: Mem, own: Owners, id: nat, nodes: Nodes, rs: Slots, w: nat)
    requires SpaceOk(m, own, id, nodes, rs) && w < USER_PAGES && PageOf(rs, w) == None
    ensures ROOT in nodes && !HwWalk(m, nodes[ROOT], w).Mapped?
  {
    WalkAgrees(m, own, id, nodes, rs, w);
  }

  /** Every page that is mapped keeps its translation. */
  ghost predicate WalksKept(m: Mem, root: nat, m': Mem)
  {
    forall w: nat :: w < USER_PAGES && HwWalk(m, root, w).Mapped? ==> HwWalk(m', root, w) == HwWalk(m, root, w)
  }

  /** Mapping an empty range does not concern the pages that are mapped. */
  lemma EagerKeepsWalks(m: Mem, own: Owners, id: nat, nodes: Nodes, rs: Slots, m': Mem, own': Owners, nodes': Nodes,
                        rs': Slots, first: nat, n: nat, flags: PageFlags)
    requires SpaceOk(m, own, id, nodes, rs) && SpaceOk(m', own', id, nodes', rs') && nodes'[ROOT] == nodes[ROOT]
    requires EagerAdded(m, nodes, rs, m', nodes', rs', first, n, flags) && Vacant(rs, first, first + n)
    ensures WalksKept(m, nodes[ROOT], m')
  {
    var root := nodes[ROOT];
    hide AreasOk, AgreeOutside, TableOk, HwWalk, Leaf, LeafEntry, Vacant, PageOf;
    LeafWalks(m, own, nodes, m', own', id, nodes', first, first + n);
    hide SpaceOk, EagerAdded;
    forall w: nat | w < USER_PAGES && first <= w < first + n
      ensures !HwWalk(m, root, w).Mapped?
    {
      VacantUncovered(rs, first, first + n, w);
      UnbackedFaults(m, own, id, nodes, rs, w);
    }
  }

  lemma WalksKeptRefl(m: Mem, root: nat)
    ensures WalksKept(m, root, m)
  {
  }

  lemma QuietKeepsWalks(m: Mem, own: Owners, id: nat, nodes: Nodes, rs: Slots, m': Mem, own': Owners, nodes': Nodes,
                        rs': Slots)
    requires SpaceOk(m, own, id, nodes, rs) && SpaceOk(m', own', id, nodes', rs') && nodes'[ROOT] == nodes[ROOT]
    requires SameLeavesBut(m, nodes, m', nodes', -1)
    ensures WalksKept(m, nodes[ROOT], m')
  {
    hide AreasOk, AgreeOutside, TableOk, SameLeavesBut, HwWalk;
    QuietWalks(m, own, nodes, m', own', id, nodes');
  }

  /** Writing data changes no translation. */
  lemma QuietWalks(m: Mem, own: Owners, nodes: Nodes, m': Mem, own': Owners, id: nat, nodes': Nodes)
    requires TableOk(m, own, id, nodes) && TableOk(m', own', id, nodes') && nodes'[ROOT] == nodes[ROOT]
    requires SameLeavesBut(m, nodes, m', nodes', -1)
    ensures forall w: nat :: w < USER_PAGES ==> HwWalk(m', nodes[ROOT], w) == HwWalk(m, nodes[ROOT], w)
  {
    hide TableOk, HwWalk, Leaf;
    LeafWalks(m, own, nodes, m', own', id, nodes', 0, 0);
  }

  // ---------------------------------------------------------------- wishes

  /** The access last asked for, page by page. */
  type Wishes = int -> Access

  /** The flags of the area that covers page `w`. */
  function FlagsAt(rs: Slots, w: nat): PageFlags
    requires Covered(rs, w)
  {
    rs[FindFrom(rs, w, 0)].value.flags
  }

  /** Every mapped page is open to exactly what was asked for it. */
  ghost predicate OpenAsAsked(m: Mem, root: nat, want: Wishes)
  {
    forall w: nat :: w < USER_PAGES && HwWalk(m, root, w).Mapped? ==> Permits(HwWalk(m, root, w), want(w))
  }

  /** Every reserved page that has no frame yet is to be opened to exactly what was asked for it. */
  ghost predicate KeptAsAsked(rs: Slots, want: Wishes)
  {
    forall w: nat :: w < USER_PAGES && Covered(rs, w) && PageOf(rs, w).None? ==> Asks(FlagsAt(rs, w), want(w))
  }

  ghost predicate Honoured(m: Mem, root: nat, rs: Slots, want: Wishes)
  {
    OpenAsAsked(m, root, want) && KeptAsAsked(rs, want)
  }

  /** A request that was carried out: pages [first, past) are to have this access. */
  datatype Grant = Grant(first: nat, past: nat, access: Access)

  predicate Names(g: Option<Grant>, w: int)
  {
    g.Some? && g.value.first <= w < g.value.past
  }

  function Wished(want: Wishes, g: Option<Grant>): Wishes
  {
    w => if Names(g, w) then g.value.access else want(w)
  }

  /** Replacing one area changes the flags of the pages inside the new area only. */
  lemma FlagsReplaced(rs: Slots, i: nat, r: Option<Area>, w: nat)
    requires i < MAX_AREAS && Disjoint(rs) && Disjoint(rs[i := r]) && Covered(rs[i := r], w)
    ensures if r.Some? && Covers(r.value, w) then FlagsAt(rs[i := r], w) == r.value.flags
            else Covered(rs, w) && FlagsAt(rs[i := r], w) == FlagsAt(rs, w) && FindFrom(rs, w, 0) != i
  {
    var rs' := rs[i := r];
    var j := FindFrom(rs', w, 0);
    if r.Some? && Covers(r.value, w) {
      FindUnique(rs', i, w);
    } else {
      assert j != i && rs[j] == rs'[j];
      FindUnique(rs, j, w);
    }
  }

  /** Pages outside a change keep their walk, pages inside it have the access asked for. */
  lemma OpenStep(m: Mem, m': Mem, root: nat, want: Wishes, g: Option<Grant>)
    requires OpenAsAsked(m, root, want)
    requires forall w: nat :: w < USER_PAGES && HwWalk(m', root, w).Mapped? ==>
               if Names(g, w) then Permits(HwWalk(m', root, w), g.value.access)
               else HwWalk(m', root, w) == HwWalk(m, root, w)
    ensures OpenAsAsked(m', root, Wished(want, g))
  {
    hide HwWalk, Permits;
  }
}
