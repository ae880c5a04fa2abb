/**
  Changing the protection of mapped pages, in steps.
 */
module Protects {
  import opened Words
  import opened Buddy
  import opened Paging
  import opened Areas
  import opened Space
  import opened Steps
  import opened Faults
  import opened Unmaps

  /** The two slots differ at most in the flags of their area. */
  predicate SameButFlags(a: Option<Area>, b: Option<Area>)
  {
    if a.Some? then b.Some? && b.value == a.value.(flags := b.value.flags) else b.None?
  }

  ghost predicate SameAreas(rs: Slots, rs': Slots)
  {
    forall k :: 0 <= k < MAX_AREAS ==> SameButFlags(rs[k], rs'[k])
  }

  lemma {:induction false} SameFind(rs: Slots, rs': Slots, w: nat, i: nat)
    requires SameAreas(rs, rs') && i <= MAX_AREAS
    ensures FindFrom(rs', w, i) == FindFrom(rs, w, i)
    decreases MAX_AREAS - i
  {
    if i < MAX_AREAS { SameFind(rs, rs', w, i + 1); }
  }

  lemma SamePageOf(rs: Slots, rs': Slots, w: nat)
    requires SameAreas(rs, rs')
    ensures PageOf(rs', w) == PageOf(rs, w) && FindFrom(rs', w, 0) == FindFrom(rs, w, 0)
  {
    SameFind(rs, rs', w, 0);
    hide FindFrom;
  }

  /** Slot contents after a protection change over the pages [v, end). */
  function ReflagSlot(ro: Option<Area>, v: nat, end: nat, f: PageFlags): Option<Area>
  {
    if ro.Some? && Overlaps(ro.value, v, end) then Some(ro.value.(flags := f)) else ro
  }

  lemma AreasReflagged(own: Owners, id: nat, rs: Slots, i: nat, f: PageFlags)
    requires AreasOk(own, id, rs) && i < MAX_AREAS && rs[i].Some? && f.present
    ensures AreasOk(own, id, rs[i := Some(rs[i].value.(flags := f))])
  {
    var r := rs[i].value;
    var r' := r.(flags := f);
    assert AreaOk(r') by { assert AreaOk(r); hide AreaHeld, CountNonZero; }
    assert AreaHeld(own, id, i, r') by { assert AreaHeld(own, id, i, r); hide AreaOk, FrameHeld, BlockHeld, Order; }
    hide AreaOk, AreaHeld;
    AreaReplaced(own, id, rs, i, r');
  }

  lemma SpaceReflagged(m: Mem, own: Owners, id: nat, nodes: Nodes, rs: Slots, i: nat, f: PageFlags)
    requires SpaceOk(m, own, id, nodes, rs) && i < MAX_AREAS && rs[i].Some? && f.present
    ensures SpaceOk(m, own, id, nodes, rs[i := Some(rs[i].value.(flags := f))])
  {
    var rs' := rs[i := Some(rs[i].value.(flags := f))];
    hide TableOk, AreasOk, Leaf, PageOf, FindFrom;
    AreasReflagged(own, id, rs, i, f);
    forall w: nat
      ensures PageOf(rs', w) == PageOf(rs, w)
    {
      SamePageOf(rs, rs', w);
    }
  }

  /** Page `w` has been reached by the remapping loops: area `i`, pages below `cur`. */
  predicate Reached(rs: Slots, v: nat, end: nat, i: nat, cur: nat, w: nat)
  {
    v <= w < end && (FindFrom(rs, w, 0) < i || (FindFrom(rs, w, 0) == i && w < cur))
  }

  /** Backed pages reached so far carry the new flags on their old frame; all others are as before. */
  ghost predicate Reflagged(m: Mem, nodes: Nodes, m': Mem, nodes': Nodes, rs: Slots, f: PtFlags, v: nat, end: nat,
                            i: nat, cur: nat)
  {
    forall w: nat {:trigger Leaf(m', nodes', w)} :: w < USER_PAGES ==>
      Leaf(m', nodes', w) ==
      if Reached(rs, v, end, i, cur, w) && PageOf(rs, w).Some? then Some(LeafEntry(PageOf(rs, w).value, f))
      else Leaf(m, nodes, w)
  }

  lemma ReflaggedStart(m: Mem, nodes: Nodes, rs: Slots, f: PtFlags, v: nat, end: nat)
    ensures Reflagged(m, nodes, m, nodes, rs, f, v, end, 0, 0)
  {
    hide Leaf, LeafEntry, FindFrom, PageOf;
  }

  /** Moving on to the next area. */
  lemma ReflaggedNextArea(m: Mem, nodes: Nodes, m': Mem, nodes': Nodes, rs: Slots, f: PtFlags, v: nat, end: nat, i: nat,
                          cur: nat)
    requires Reflagged(m, nodes, m', nodes', rs, f, v, end, i, cur) && i < MAX_AREAS
    requires rs[i].Some? && Overlaps(rs[i].value, v, end) ==> cur >= rs[i].value.past
    ensures Reflagged(m, nodes, m', nodes', rs, f, v, end, i + 1, 0)
  {
    hide Leaf, LeafEntry, PageOf, FindFrom;
    forall w: nat
      ensures Reached(rs, v, end, i + 1, 0, w) == Reached(rs, v, end, i, cur, w)
    {
    }
  }

  /** Page `cur` of area `i` needs no remapping. */
  lemma ReflaggedSkip(m: Mem, nodes: Nodes, m': Mem, nodes': Nodes, rs: Slots, f: PtFlags, v: nat, end: nat, i: nat,
                      cur: nat)
    requires Reflagged(m, nodes, m', nodes', rs, f, v, end, i, cur) && !(v <= cur < end && PageOf(rs, cur).Some?)
    ensures Reflagged(m, nodes, m', nodes', rs, f, v, end, i, cur + 1)
  {
    hide Leaf, LeafEntry, PageOf, FindFrom;
  }

  /** Page `cur` of area `i` was remapped to its own frame. */
  lemma ReflaggedStep(m: Mem, nodes: Nodes, m1: Mem, n1: Nodes, m2: Mem, n2: Nodes, rs: Slots, f: PtFlags, v: nat,
                      end: nat, i: nat, cur: nat)
    requires Reflagged(m, nodes, m1, n1, rs, f, v, end, i, cur)
    requires v <= cur < end && FindFrom(rs, cur, 0) == i && PageOf(rs, cur).Some?
    requires SameLeavesBut(m1, n1, m2, n2, cur) && Leaf(m2, n2, cur) == Some(LeafEntry(PageOf(rs, cur).value, f))
    ensures Reflagged(m, nodes, m2, n2, rs, f, v, end, i, cur + 1)
  {
    hide Leaf, LeafEntry, PageOf, FindFrom;
  }

  /** Remapping a page to the frame it already has keeps the space. */
  lemma RemapKeeps(id: nat, own: Owners, m: Mem, nodes: Nodes, rs: Slots, own': Owners, m': Mem, nodes': Nodes, w: nat,
                   p: nat, f: PtFlags)
    requires SpaceOk(m, own, id, nodes, rs) && TableStep(id, own, m, nodes, own', m', nodes')
    requires SameLeavesBut(m, nodes, m', nodes', w) && Leaf(m', nodes', w) == Some(LeafEntry(p, f))
    requires PageOf(rs, w) == Some(p) && p % 4096 == 0 && p < PHYS_LIMIT
    ensures SpaceOk(m', own', id, nodes', rs)
  {
    AreasStep(id, own, m, nodes, own', m', nodes', rs);
    LeafEntryFields(p, f);
    hide TableOk, AreasOk, Leaf, LeafEntry, PageOf, Confined, UpperHalfSame, Addr;
  }

  /** A backed page has its last-level table, and an aligned frame. */
  lemma BackedPage(m: Mem, own: Owners, id: nat, nodes: Nodes, rs: Slots, w: nat, i: nat)
    requires SpaceOk(m, own, id, nodes, rs) && i == FindFrom(rs, w, 0) < MAX_AREAS && PageOf(rs, w).Some?
    ensures w < USER_PAGES && Pos(1, w / 512) in nodes
    ensures PageOf(rs, w).value % 4096 == 0 && PageOf(rs, w).value < PHYS_LIMIT
  {
    var r := rs[i].value;
    SpaceAreas(m, own, id, nodes, rs);
    assert FrameOf(Leaf(m, nodes, w)) == PageOf(rs, w) by {
      hide TableOk, AreasOk;
      assert AgreeOutside(m, nodes, rs, 0, 0);
    }
    FrameOfArea(own, id, i, r, w);
    hide SpaceOk, AreaHeld, AreaOk, Disjoint, FindFrom;
  }

  lemma FrameOfArea(own: Owners, id: nat, i: nat, r: Area, w: nat)
    requires AreaOk(r) && AreaHeld(own, id, i, r) && Covers(r, w) && Backing(r, w).Some?
    ensures Backing(r, w).value % 4096 == 0 && Backing(r, w).value < PHYS_LIMIT && w < USER_PAGES
  {
    if r.lazy {
      assert FrameHeld(own, id, r.lazyPages[w - r.first], r.first + (w - r.first));
    } else {
      BlockFrames(own, id, i, r.phys, NPages(r), w - r.first);
    }
    hide BlockHeld, Order;
  }

  /** The flags that mprotect builds from the POSIX protection bits. */
  function ProtFlags(write: bool, exec: bool): PageFlags
  {
    PageFlags(true, write, true, exec, false)
  }

  /** The state of the remapping loops of mprotect. */
  ghost predicate Protecting(id: nat, o0: Owners, m0: Mem, n0: Nodes, rs: Slots, own: Owners, m: Mem, nodes: Nodes,
                             rs': Slots, f: PageFlags, v: nat, end: nat, i: nat, cur: nat)
  {
    && SpaceOk(m, own, id, nodes, rs')
    && TableStep(id, o0, m0, n0, own, m, nodes)
    && SameAreas(rs, rs')
    && Reflagged(m0, n0, m, nodes, rs, Translate(f), v, end, i, cur)
  }

  lemma ProtectStart(id: nat, own: Owners, m: Mem, nodes: Nodes, rs: Slots, f: PageFlags, v: nat, end: nat)
    requires SpaceOk(m, own, id, nodes, rs)
    ensures Protecting(id, own, m, nodes, rs, own, m, nodes, rs, f, v, end, 0, 0)
  {
    hide AreasOk, AgreeOutside, TableStep, Reflagged, TableOk;
    TableStepSame(m, own, id, nodes);
    ReflaggedStart(m, nodes, rs, Translate(f), v, end);
  }

  lemma ProtectArea(id: nat, o0: Owners, m0: Mem, n0: Nodes, rs: Slots, own: Owners, m: Mem, nodes: Nodes, rs': Slots,
                    f: PageFlags, v: nat, end: nat, i: nat)
    requires Protecting(id, o0, m0, n0, rs, own, m, nodes, rs', f, v, end, i, 0)
    requires i < MAX_AREAS && rs'[i].Some? && f.present
    ensures Protecting(id, o0, m0, n0, rs, own, m, nodes, rs'[i := Some(rs'[i].value.(flags := f))], f, v, end, i,
                       rs'[i].value.first)
  {
    hide SpaceOk, TableStep;
    SpaceReflagged(m, own, id, nodes, rs', i, f);
    ReflaggedFirst(m0, n0, m, nodes, rs, Translate(f), v, end, i);
    hide Reflagged;
  }

  /** Pages before the start of area `i` are not its pages. */
  lemma ReflaggedFirst(m: Mem, nodes: Nodes, m': Mem, nodes': Nodes, rs: Slots, f: PtFlags, v: nat, end: nat, i: nat)
    requires Reflagged(m, nodes, m', nodes', rs, f, v, end, i, 0) && i < MAX_AREAS && rs[i].Some?
    ensures Reflagged(m, nodes, m', nodes', rs, f, v, end, i, rs[i].value.first)
  {
    hide Leaf, LeafEntry, PageOf, FindFrom;
    forall w: nat
      ensures Reached(rs, v, end, i, rs[i].value.first, w) == Reached(rs, v, end, i, 0, w)
    {
    }
  }

  lemma ProtectPage(id: nat, o0: Owners, m0: Mem, n0: Nodes, rs: Slots, own: Owners, m: Mem, nodes: Nodes, rs': Slots,
                    own': Owners, m': Mem, nodes': Nodes, f: PageFlags, v: nat, end: nat, i: nat, w: nat)
    requires Protecting(id, o0, m0, n0, rs, own, m, nodes, rs', f, v, end, i, w)
    requires v <= w < end && FindFrom(rs', w, 0) == i && PageOf(rs', w).Some?
    requires PageOf(rs', w).value % 4096 == 0 && PageOf(rs', w).value < PHYS_LIMIT
    requires TableStep(id, own, m, nodes, own', m', nodes') && SameLeavesBut(m, nodes, m', nodes', w)
    requires Leaf(m', nodes', w) == Some(LeafEntry(PageOf(rs', w).value, Translate(f)))
    ensures Protecting(id, o0, m0, n0, rs, own', m', nodes', rs', f, v, end, i, w + 1)
  {
    hide SpaceOk, TableStep, Reflagged, Leaf, LeafEntry, PageOf, FindFrom, SameLeavesBut;
    SamePageOf(rs, rs', w);
    RemapKeeps(id, own, m, nodes, rs', own', m', nodes', w, PageOf(rs', w).value, Translate(f));
    TableStepTrans(id, o0, m0, n0, own, m, nodes, own', m', nodes');
    ReflaggedStep(m0, n0, m, nodes, m', nodes', rs, Translate(f), v, end, i, w);
  }

  lemma ProtectSkip(id: nat, o0: Owners, m0: Mem, n0: Nodes, rs: Slots, own: Owners, m: Mem, nodes: Nodes, rs': Slots,
                    f: PageFlags, v: nat, end: nat, i: nat, w: nat)
    requires Protecting(id, o0, m0, n0, rs, own, m, nodes, rs', f, v, end, i, w)
    requires !(v <= w < end && PageOf(rs', w).Some?)
    ensures Protecting(id, o0, m0, n0, rs, own, m, nodes, rs', f, v, end, i, w + 1)
  {
    hide SpaceOk, TableStep, Reflagged, PageOf, FindFrom;
    SamePageOf(rs, rs', w);
    ReflaggedSkip(m0, n0, m, nodes, rs, Translate(f), v, end, i, w);
  }

  lemma ProtectNext(id: nat, o0: Owners, m0: Mem, n0: Nodes, rs: Slots, own: Owners, m: Mem, nodes: Nodes, rs': Slots,
                    f: PageFlags, v: nat, end: nat, i: nat, cur: nat)
    requires Protecting(id, o0, m0, n0, rs, own, m, nodes, rs', f, v, end, i, cur) && i < MAX_AREAS
    requires rs'[i].Some? && Overlaps(rs'[i].value, v, end) ==> cur >= rs'[i].value.past
    ensures Protecting(id, o0, m0, n0, rs, own, m, nodes, rs', f, v, end, i + 1, 0)
  {
    hide SpaceOk, TableStep, Reflagged;
    ReflaggedNextArea(m0, n0, m, nodes, rs, Translate(f), v, end, i, cur);
  }

  /** After all areas: exactly the backed pages of [v, end) carry the new flags, on the same frames. */
  ghost predicate Protected(m: Mem, nodes: Nodes, rs: Slots, m': Mem, nodes': Nodes, f: PtFlags, v: nat, end: nat)
  {
    forall w: nat {:trigger Leaf(m', nodes', w)} :: w < USER_PAGES ==>
      Leaf(m', nodes', w) == if v <= w < end && PageOf(rs, w).Some? then Some(LeafEntry(PageOf(rs, w).value, f))
        else Leaf(m, nodes, w)
  }

  lemma ProtectDone(id: nat, o0: Owners, m0: Mem, n0: Nodes, rs: Slots, own: Owners, m: Mem, nodes: Nodes, rs': Slots,
                    f: PageFlags, v: nat, end: nat)
    requires Protecting(id, o0, m0, n0, rs, own, m, nodes, rs', f, v, end, MAX_AREAS, 0)
    ensures Protected(m0, n0, rs, m, nodes, Translate(f), v, end)
    ensures SpaceOk(m, own, id, nodes, rs') && ROOT in n0 && ROOT in nodes && nodes[ROOT] == n0[ROOT]
    ensures UpperHalfSame(n0[ROOT], m0, m) && Additive(id, o0, m0, own, m) && (o0(0) == Kernel ==> own(0) == Kernel)
    ensures forall w: nat :: PageOf(rs', w) == PageOf(rs, w) && (Covered(rs', w) <==> Covered(rs, w))
  {
    TableStepAdditive(id, o0, m0, n0, own, m, nodes);
    assert ROOT in n0 && ROOT in nodes && nodes[ROOT] == n0[ROOT] by { hide TableOk, SpaceOk; }
    hide SpaceOk, TableOk, Leaf, LeafEntry, PageOf, Confined;
    assert Protected(m0, n0, rs, m, nodes, Translate(f), v, end) by {
      forall w: nat | w < USER_PAGES
        ensures Leaf(m, nodes, w) == if v <= w < end
                && PageOf(rs, w).Some? then Some(LeafEntry(PageOf(rs, w).value, Translate(f))) else Leaf(m0, n0, w)
      {
        BackedIsFound(rs, w);
      }
    }
    hide Reflagged, Protected, FindFrom;
    forall w: nat
      ensures PageOf(rs', w) == PageOf(rs, w) && (Covered(rs', w) <==> Covered(rs, w))
    {
      SamePageOf(rs, rs', w);
    }
  }

  lemma BackedIsFound(rs: Slots, w: nat)
    ensures PageOf(rs, w).Some? ==> FindFrom(rs, w, 0) < MAX_AREAS
  {
  }

  lemma ProtectingSpace(id: nat, o0: Owners, m0: Mem, n0: Nodes, rs: Slots, own: Owners, m: Mem, nodes: Nodes,
                        rs': Slots, f: PageFlags, v: nat, end: nat, i: nat, cur: nat)
    requires Protecting(id, o0, m0, n0, rs, own, m, nodes, rs', f, v, end, i, cur)
    ensures SpaceOk(m, own, id, nodes, rs')
  {
    hide SpaceOk, TableStep, Reflagged;
  }

  lemma UpperSame(id: nat, m: Mem, nodes: Nodes)
    requires ROOT in nodes
    ensures UpperHalfSame(nodes[ROOT], m, m)
  {
  }
}
