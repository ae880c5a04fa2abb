/**
  Cloning an address space for fork (mm/src/cow.rs), and dropping one.
 */
module Fork {
  import opened Words
  import opened Buddy
  import opened Paging
  import opened Areas
  import opened Space
  import opened Steps
  import opened Faults
  import opened Unmaps
  import opened Protects
  import opened Rights
  import opened Strays
  import opened Costs
  import opened Drops
  import opened Vmm
  import opened Runs
  import opened UserMemory

  // ------------------------------------------------------------- copied pages

  /** Memory after copying `n` bytes from `src` to `dst`. */
  function CopyMem(m: Mem, dst: int, src: int, n: nat): (m': Mem)
    ensures forall x {:trigger m'(x)} :: m'(x) == if dst <= x < dst + n then m(x - dst + src) else m(x)
  {
    x => if dst <= x < dst + n then m(x - dst + src) else m(x)
  }

  function PageBytes(m: Mem, p: nat): seq<Byte>
  {
    Load(m, p, 4096)
  }

  /** The page at `q` of `m'` repeats the page at `p` of `m`. */
  ghost predicate Shifted(m: Mem, p: nat, m': Mem, q: nat)
  {
    forall x {:trigger m'(x)} :: q <= x < q + 4096 ==> m'(x) == m(x - q + p)
  }

  lemma ShiftedBytes(m: Mem, p: nat, m': Mem, q: nat)
    requires Shifted(m, p, m', q)
    ensures PageBytes(m', q) == PageBytes(m, p)
  {
    hide Load;
    forall i | 0 <= i < 4096
      ensures PageBytes(m', q)[i] == PageBytes(m, p)[i]
    {
      var x := q + i;
      assert m'(x) == m(x - q + p);
      assert x - q + p == p + i;
    }
  }

  /** The page at offset `off` of the copy. */
  lemma PageCopied(m: Mem, dst: nat, src: nat, n: nat, off: nat)
    requires off + 4096 <= n
    ensures PageBytes(CopyMem(m, dst, src, n), dst + off) == PageBytes(m, src + off)
  {
    hide PageBytes, CopyMem;
    var m', p, q := CopyMem(m, dst, src, n), src + off, dst + off;
    forall x | q <= x < q + 4096
      ensures m'(x) == m(x - q + p)
    {
      assert x - dst + src == x - q + p;
    }
    ShiftedBytes(m, p, m', q);
  }

  lemma CopiedPage(m: Mem, dst: nat, src: nat, n: nat, k: nat)
    requires 4096 * k + 4096 <= n && (dst + n <= src || src + n <= dst)
    ensures PageBytes(CopyMem(m, dst, src, n), dst + 4096 * k) == PageBytes(m, src + 4096 * k)
    ensures PageBytes(CopyMem(m, dst, src, n), src + 4096 * k) == PageBytes(m, src + 4096 * k)
  {
    hide PageBytes;
    PageCopied(m, dst, src, n, 4096 * k);
    PageBytesSame(m, CopyMem(m, dst, src, n), src + 4096 * k);
  }

  lemma PageBytesSame(m: Mem, m': Mem, p: nat)
    requires forall x :: p <= x < p + 4096 ==> m'(x) == m(x)
    ensures PageBytes(m', p) == PageBytes(m, p)
  {
  }

  // ------------------------------------------------------------- cloned areas

  /**
    Area `q` copies area `r` on the pages below `cur`: the same pages are backed, with
    equal bytes; pages from `cur` on have no frame yet in `q`.
   */
  ghost predicate AreaCloned(m: Mem, r: Area, q: Area, cur: nat)
  {
    && q.first == r.first && q.past == r.past && q.flags == r.flags && q.lazy == r.lazy
    && (forall w: nat {:trigger Backing(r, w)} :: Covers(r, w) && w < cur ==>
          && (Backing(q, w).Some? <==> Backing(r, w).Some?)
          && (Backing(r, w).Some? ==> PageBytes(m, Backing(q, w).value) == PageBytes(m, Backing(r, w).value)))
    && (forall w: nat {:trigger Backing(q, w)} :: Covers(q, w) && cur <= w ==> Backing(q, w) == None)
  }

  ghost predicate SlotCloned(m: Mem, ro: Option<Area>, qo: Option<Area>)
  {
    if ro.None? then qo.None? else qo.Some? && AreaCloned(m, ro.value, qo.value, ro.value.past)
  }

  lemma AreaTag(own: Owners, id: nat, i: nat, r: Area, w: nat, x: int)
    requires AreaOk(r) && AreaHeld(own, id, i, r) && Covers(r, w) && Backing(r, w).Some?
    requires Backing(r, w).value <= x < Backing(r, w).value + 4096
    ensures own(x) == Held(id, if r.lazy then Page(w) else Extent(i))
  {
    if r.lazy {
      assert FrameHeld(own, id, r.lazyPages[w - r.first], r.first + (w - r.first));
    } else {
      BlockFrames(own, id, i, r.phys, NPages(r), w - r.first);
      assert Inside(x, r.phys, Order(NPages(r)));
    }
    hide Order;
  }

  /** Adding memory to the child leaves the bytes of pages already cloned alone. */
  lemma ClonedStable(id: nat, own: Owners, m: Mem, own': Owners, m': Mem, idP: nat, i: nat, r: Area, q: Area, cur: nat)
    requires AreaCloned(m, r, q, cur) && Additive(id, own, m, own', m')
    requires AreaOk(r) && AreaHeld(own, idP, i, r) && AreaOk(q) && AreaHeld(own, id, i, q)
    ensures AreaCloned(m', r, q, cur)
  {
    hide AreaOk, AreaHeld, PageBytes;
    forall w: nat | Covers(r, w) && w < cur && Backing(r, w).Some?
      ensures PageBytes(m', Backing(q, w).value) == PageBytes(m', Backing(r, w).value)
    {
      BackingSame(id, own, m, own', m', idP, i, r, w);
      BackingSame(id, own, m, own', m', id, i, q, w);
    }
  }

  lemma BackingSame(id: nat, own: Owners, m: Mem, own': Owners, m': Mem, id': nat, i: nat, r: Area, w: nat)
    requires Additive(id, own, m, own', m') && AreaOk(r) && AreaHeld(own, id', i, r) && Covers(r, w)
             && Backing(r, w).Some?
    ensures PageBytes(m', Backing(r, w).value) == PageBytes(m, Backing(r, w).value)
  {
    hide AreaOk, AreaHeld, Backing;
    var p := Backing(r, w).value;
    forall x | p <= x < p + 4096
      ensures m'(x) == m(x)
    {
      AreaTag(own, id', i, r, w, x);
    }
    PageBytesSame(m, m', p);
  }

  /** What growing the child space leaves alone in any other space. */
  lemma OtherSpaceKept(id: nat, own: Owners, m: Mem, own': Owners, m': Mem, idP: nat, nodesP: Nodes, rsP: Slots)
    requires SpaceOk(m, own, idP, nodesP, rsP) && Additive(id, own, m, own', m') && id != idP
    ensures SpaceOk(m', own', idP, nodesP, rsP)
  {
    hide SpaceOk;
    assert Undisturbed(idP, own, m, own', m');
    SpaceUndisturbed(idP, own, m, own', m', nodesP, rsP);
  }

  // ----------------------------------------------------- the child under construction

  /** The entry leads to the frame the areas record for page `v`, with the access of the area. */
  predicate HomeEntry(e: nat, rs: Slots, v: nat)
  {
    && Covered(rs, v) && PageOf(rs, v) == Some(Addr(e))
    && var f := FlagsAt(rs, v);
       (User(e) <==> f.user) && (Writable(e) <==> f.writable) && (NoExec(e) <==> !f.execute)
  }

  /** A page that is mapped at all leads to the frame the areas record for it, with the access of its area. */
  ghost predicate LeadsHome(m: Mem, nodes: Nodes, rs: Slots)
  {
    forall v: nat {:trigger Leaf(m, nodes, v)} :: v < USER_PAGES && Leaf(m, nodes, v).Some? ==>
      HomeEntry(Leaf(m, nodes, v).value, rs, v)
  }

  /** An area replaced by one with the same pages and flags. */
  lemma SameFlags(rs: Slots, i: nat, r: Area, v: nat)
    requires i < MAX_AREAS && rs[i].Some? && Covered(rs, v)
    requires r.first == rs[i].value.first && r.past == rs[i].value.past && r.flags == rs[i].value.flags
    ensures Covered(rs[i := Some(r)], v) && FlagsAt(rs[i := Some(r)], v) == FlagsAt(rs, v)
  {
    var rs' := rs[i := Some(r)];
    var j, j' := FindFrom(rs, v, 0), FindFrom(rs', v, 0);
    assert rs'[j].Some? && Covers(rs'[j].value, v) && j' <= j;
    assert rs[j'].Some? && Covers(rs[j'].value, v) && j <= j';
    hide FindFrom;
  }

  /** Pages that were covered keep their flags when an area is added. */
  lemma OldFlags(rs: Slots, i: nat, q: Area, v: nat)
    requires i < MAX_AREAS && rs[i].None? && Disjoint(rs[i := Some(q)]) && Covered(rs, v)
    ensures Covered(rs[i := Some(q)], v) && FlagsAt(rs[i := Some(q)], v) == FlagsAt(rs, v)
  {
    var j := FindFrom(rs, v, 0);
    assert rs[i := Some(q)][j] == rs[j];
    FindUnique(rs[i := Some(q)], j, v);
  }

  /**
    The child so far: tables and areas are well-formed, mapped pages lead to their own
    frames and are writable and executable only if areas are. As long as every page
    could be mapped, tables and areas agree.
   */
  ghost predicate ChildOk(m: Mem, own: Owners, id: nat, nodes: Nodes, rs: Slots, mapped: bool)
  {
    && TableOk(m, own, id, nodes)
    && AreasOk(own, id, rs)
    && LeadsHome(m, nodes, rs)
    && (SafeAreas(rs) ==> SafeLeaves(m, nodes, 0, 0))
    && (mapped ==> AgreeOutside(m, nodes, rs, 0, 0))
  }

  ghost predicate ParentOk(m: Mem, own: Owners, idP: nat, nodesP: Nodes, rsP: Slots)
  {
    SpaceOk(m, own, idP, nodesP, rsP) && own(0) == Kernel
  }

  lemma SlotsClonedStable(id: nat, own: Owners, m: Mem, own': Owners, m': Mem, idP: nat, nodesP: Nodes, rsP: Slots,
                          rs: Slots, i: nat)
    requires SpaceOk(m, own, idP, nodesP, rsP) && AreasOk(own, id, rs) && Additive(id, own, m, own', m')
    requires forall k :: 0 <= k < MAX_AREAS && k < i ==> SlotCloned(m, rsP[k], rs[k])
    ensures forall k :: 0 <= k < MAX_AREAS && k < i ==> SlotCloned(m', rsP[k], rs[k])
  {
    SpaceAreas(m, own, idP, nodesP, rsP);
    hide SpaceOk, AreaOk, AreaHeld, AreaCloned, Disjoint, Additive;
    forall k | 0 <= k < MAX_AREAS && k < i
      ensures SlotCloned(m', rsP[k], rs[k])
    {
      if rsP[k].Some? {
        ClonedStable(id, own, m, own', m', idP, k, rsP[k].value, rs[k].value, rsP[k].value.past);
      }
    }
  }

  lemma GrantOnly(id: nat, own: Owners, m: Mem, own': Owners, m': Mem, a: nat, o: nat, use: Use)
    requires Granted(own, own', a, o, Held(id, use)) && forall x :: !Inside(x, a, o) ==> m'(x) == m(x)
    ensures Additive(id, own, m, own', m') && Undisturbed(id, own, m, own', m')
  {
    hide Inside;
  }

  /** Memory granted to the child, and filled, does not concern what it already has. */
  lemma ChildUndisturbed(id: nat, own: Owners, m: Mem, own': Owners, m': Mem, nodes: Nodes, rs: Slots, mapped: bool)
    requires ChildOk(m, own, id, nodes, rs, mapped) && Undisturbed(id, own, m, own', m')
    ensures ChildOk(m', own', id, nodes, rs, mapped)
    ensures SameLeavesBut(m, nodes, m', nodes, -1)
  {
    hide TableOk, AreasOk, Leaf, PageOf;
    TableUndisturbed(id, own, m, own', m', nodes);
    AreasUndisturbed(id, own, own', rs);
  }

  /** Recording and mapping a frame for one more page of the child. */
  lemma ChildPage(id: nat, own: Owners, m: Mem, nodes: Nodes, rs: Slots, own': Owners, m': Mem, nodes': Nodes,
                  mapped: bool, ok: bool, i: nat, w: nat, p: nat)
    requires ChildOk(m, own, id, nodes, rs, mapped) && TableStep(id, own, m, nodes, own', m', nodes')
    requires i < MAX_AREAS && rs[i].Some? && Demandable(rs[i].value, w) && p != 0 && FrameHeld(own, id, p, w)
    requires SameLeavesBut(m, nodes, m', nodes', if ok then w else -1)
    requires ok ==> Leaf(m', nodes', w) == Some(LeafEntry(p, Translate(rs[i].value.flags)))
    ensures ChildOk(m', own', id, nodes', rs[i := Some(FaultedIn(rs[i].value, w, p))], mapped && ok)
  {
    var r := rs[i].value;
    AreasStep(id, own, m, nodes, own', m', nodes', rs);
    assert FrameHeld(own', id, p, w) by { hide TableOk; }
    if mapped && ok { FaultAgrees(m, nodes, rs, m', nodes', i, w, p, Translate(r.flags)); }
    PageHome(m, nodes, rs, m', nodes', i, w, p, ok);
    PageSafe(own, id, m, nodes, rs, m', nodes', i, w, p, ok);
    hide Leaf, LeafEntry, FrameHeld, Demandable, AgreeOutside, TableOk, Confined, Disjoint, LeadsHome, SafeAreas,
      SafeLeaves;
    FaultedInOk(own', id, i, r, w, p);
    hide AreaOk, AreaHeld, FaultedIn;
    AreaReplacedSame(own', id, rs, i, w, p);
  }

  /** The page just recorded leads to its frame, if it is mapped. */
  lemma PageHome(m: Mem, nodes: Nodes, rs: Slots, m': Mem, nodes': Nodes, i: nat, w: nat, p: nat, ok: bool)
    requires Disjoint(rs) && LeadsHome(m, nodes, rs) && SameLeavesBut(m, nodes, m', nodes', if ok then w else -1)
    requires i < MAX_AREAS && rs[i].Some? && Demandable(rs[i].value, w) && p != 0 && p % 4096 == 0 && p < PHYS_LIMIT
    requires ok ==> Leaf(m', nodes', w) == Some(LeafEntry(p, Translate(rs[i].value.flags)))
    ensures LeadsHome(m', nodes', rs[i := Some(FaultedIn(rs[i].value, w, p))])
  {
    LeafEntryFields(p, Translate(rs[i].value.flags));
    var q := FaultedIn(rs[i].value, w, p);
    var rs' := rs[i := Some(q)];
    FindUnique(rs, i, w);
    assert PageOf(rs, w) == None && Covered(rs, w) && FlagsAt(rs, w) == rs[i].value.flags;
    hide Leaf, LeafEntry, PageOf, Addr, User, Writable, NoExec, Present, Huge, Disjoint, Demandable, Recorded, FindFrom,
      Covered, FlagsAt;
    forall v: nat | v < USER_PAGES && Leaf(m', nodes', v).Some?
      ensures HomeEntry(Leaf(m', nodes', v).value, rs', v)
    {
      FaultPageOf(rs, i, w, p, v);
      assert (v != w || !ok) ==> Leaf(m', nodes', v) == Leaf(m, nodes, v);
      SameFlags(rs, i, q, v);
    }
  }

  /** The page just mapped is as safe as its area. */
  lemma PageSafe(own: Owners, id: nat, m: Mem, nodes: Nodes, rs: Slots, m': Mem, nodes': Nodes, i: nat, w: nat, p: nat,
                 ok: bool)
    requires SafeAreas(rs) ==> SafeLeaves(m, nodes, 0, 0)
    requires i < MAX_AREAS && rs[i].Some? && Demandable(rs[i].value, w) && FrameHeld(own, id, p, w)
    requires SameLeavesBut(m, nodes, m', nodes', if ok then w else -1)
    requires ok ==> Leaf(m', nodes', w) == Some(LeafEntry(p, Translate(rs[i].value.flags)))
    ensures SafeAreas(rs[i := Some(FaultedIn(rs[i].value, w, p))]) ==> SafeLeaves(m', nodes', 0, 0)
  {
    hide Leaf, LeafEntry, SafeEntry;
    var rs' := rs[i := Some(FaultedIn(rs[i].value, w, p))];
    if SafeAreas(rs') {
      assert forall k :: 0 <= k < MAX_AREAS && k != i ==> rs'[k] == rs[k];
      assert SafeFlags(rs'[i].value.flags) && SafeAreas(rs);
      SafeLeaf(p, rs[i].value.flags);
    }
  }

  /** Each page of [v0, v0 + n) either leads to its frame from `phys` on or is as before; other pages are. */
  ghost predicate PartlyMapped(m: Mem, nodes: Nodes, m': Mem, nodes': Nodes, v0: nat, n: nat, phys: nat, f: PtFlags)
  {
    forall w: nat {:trigger Leaf(m', nodes', w)} :: w < USER_PAGES ==>
      || Leaf(m', nodes', w) == Leaf(m, nodes, w)
      || (v0 <= w < v0 + n && Leaf(m', nodes', w) == Some(LeafEntry(phys + 4096 * (w - v0), f)))
  }

  /** Pages of the block just recorded lead to their frames, if they are mapped. */
  lemma BlockHome(own: Owners, id: nat, m: Mem, nodes: Nodes, rs: Slots, m': Mem, nodes': Nodes, i: nat, first: nat,
                  n: nat, phys: nat, flags: PageFlags)
    requires Disjoint(rs) && LeadsHome(m, nodes, rs)
    requires i < MAX_AREAS && rs[i].None? && Disjoint(rs[i := Some(EagerArea(first, n, phys, flags))])
    requires BlockHeld(own, id, i, phys, Order(n))
             && PartlyMapped(m, nodes, m', nodes', first, n, phys, Translate(flags))
    ensures LeadsHome(m', nodes', rs[i := Some(EagerArea(first, n, phys, flags))])
  {
    var q := EagerArea(first, n, phys, flags);
    var rs' := rs[i := Some(q)];
    hide Leaf, LeafEntry, BlockHeld, HomeEntry, Disjoint, Order;
    forall w: nat | w < USER_PAGES && Leaf(m', nodes', w).Some?
      ensures HomeEntry(Leaf(m', nodes', w).value, rs', w)
    {
      if Leaf(m', nodes', w) == Leaf(m, nodes, w) {
        StillHome(rs, i, q, Leaf(m, nodes, w).value, w);
      } else {
        NewHome(own, id, rs', i, phys, n, w);
      }
    }
  }

  lemma StillHome(rs: Slots, i: nat, q: Area, e: nat, w: nat)
    requires Disjoint(rs) && i < MAX_AREAS && rs[i].None? && Disjoint(rs[i := Some(q)]) && HomeEntry(e, rs, w)
    ensures HomeEntry(e, rs[i := Some(q)], w)
  {
    hide PageOf, Covered, FlagsAt, Disjoint, FindFrom, Addr, User, Writable, NoExec;
    StillFound(rs, i, q, w);
    OldFlags(rs, i, q, w);
  }

  lemma NewHome(own: Owners, id: nat, rs: Slots, i: nat, phys: nat, n: nat, w: nat)
    requires Disjoint(rs) && i < MAX_AREAS && rs[i].Some? && BlockHeld(own, id, i, phys, Order(n))
    requires rs[i].value == EagerArea(rs[i].value.first, n, phys, rs[i].value.flags) && Covers(rs[i].value, w)
    ensures HomeEntry(LeafEntry(phys + 4096 * (w - rs[i].value.first), Translate(rs[i].value.flags)), rs, w)
  {
    hide Addr, User, Writable, NoExec, LeafEntry, Order, BlockHeld;
    FindUnique(rs, i, w);
    EagerLeaf(own, id, i, phys, n, w - rs[i].value.first, rs[i].value.flags);
    hide FindFrom;
  }

  /** The pages just mapped are as safe as their area. */
  lemma BlockSafe(own: Owners, id: nat, m: Mem, nodes: Nodes, rs: Slots, m': Mem, nodes': Nodes, i: nat, first: nat,
                  n: nat, phys: nat, flags: PageFlags)
    requires SafeAreas(rs) ==> SafeLeaves(m, nodes, 0, 0)
    requires i < MAX_AREAS && rs[i].None? && 0 < n <= 1024 && BlockHeld(own, id, i, phys, Order(n))
    requires PartlyMapped(m, nodes, m', nodes', first, n, phys, Translate(flags))
    ensures SafeAreas(rs[i := Some(EagerArea(first, n, phys, flags))]) ==> SafeLeaves(m', nodes', 0, 0)
  {
    hide Leaf, LeafEntry, SafeEntry, BlockHeld, Order;
    var rs' := rs[i := Some(EagerArea(first, n, phys, flags))];
    if SafeAreas(rs') {
      assert forall k :: 0 <= k < MAX_AREAS && k != i ==> rs'[k] == rs[k];
      assert SafeFlags(rs'[i].value.flags) && SafeAreas(rs);
      forall v: nat | v < USER_PAGES && Leaf(m', nodes', v).Some?
        ensures SafeEntry(Leaf(m', nodes', v).value)
      {
        if first <= v < first + n {
          BlockFrames(own, id, i, phys, n, v - first);
          SafeLeaf(phys + 4096 * (v - first), flags);
        }
      }
    }
  }

  /** One more page copied: the child's area matches the parent's one page further. */
  lemma ClonedPage(m: Mem, r: Area, q: Area, w: nat, p: nat)
    requires AreaCloned(m, r, q, w) && r.lazy && Covers(r, w) && Backing(r, w).Some? && p != 0
    requires PageBytes(m, p) == PageBytes(m, Backing(r, w).value)
    ensures Demandable(q, w) && AreaCloned(m, r, FaultedIn(q, w, p), w + 1)
  {
    hide PageBytes;
    var q' := FaultedIn(q, w, p);
    forall v: nat | Covers(q, v)
      ensures Backing(q', v) == if v == w then Some(p) else Backing(q, v)
    {
      FaultedInBacking(q, w, p, v);
    }
    hide FaultedIn;
  }

  lemma ClonedSkip(m: Mem, r: Area, q: Area, w: nat)
    requires AreaCloned(m, r, q, w) && (Covers(r, w) ==> Backing(r, w).None?)
    ensures AreaCloned(m, r, q, w + 1)
  {
    hide PageBytes, Backing;
    if Covers(q, w) { assert Backing(q, w).None?; }
  }

  /** The frame for the copy, filled from the parent's frame `src`. */
  lemma FilledFrame(id: nat, own: Owners, m: Mem, own': Owners, w: nat, p: nat, src: nat)
    requires own(0) == Kernel && Aligned(p, 0) && p + Size(0) <= PHYS_LIMIT
    requires Granted(own, own', p, 0, Held(id, Page(w)))
    requires forall x :: src <= x < src + 4096 ==> !own(x).Free?
    ensures var m' := CopyMem(m, p, src, 4096);
            && PageBytes(m', p) == PageBytes(m, src) && PageBytes(m', src) == PageBytes(m, src)
            && Additive(id, own, m, own', m') && Undisturbed(id, own, m, own', m')
    ensures p != 0 && own'(0) == Kernel && FrameHeld(own', id, p, w) && p % 4096 == 0 && p < PHYS_LIMIT
  {
    var m' := CopyMem(m, p, src, 4096);
    GrantedFrame(id, own, own', w, p);
    hide Aligned, FrameHeld, Granted, PageBytes, Size, Additive, Undisturbed;
    assert p + 4096 <= src || src + 4096 <= p by {
      var x := Max(p, src);
      assert p <= x < p + 4096 ==> own(x).Free?;
      assert src <= x < src + 4096 ==> !own(x).Free?;
    }
    CopiedPage(m, p, src, 4096, 0);
    GrantOnly(id, own, m, own', m', p, 0, Page(w));
  }

  /** A state of the cloning loops: slot `i` is in progress, its pages below `cur` are done. */
  ghost predicate Cloning(m: Mem, own: Owners, id: nat, nodes: Nodes, rs: Slots, mapped: bool,
                          idP: nat, nodesP: Nodes, rsP: Slots, i: nat, o0: Owners, m0: Mem)
  {
    && id != idP && ROOT in nodes
    && ChildOk(m, own, id, nodes, rs, mapped)
    && ParentOk(m, own, idP, nodesP, rsP)
    && (forall k :: 0 <= k < MAX_AREAS && k < i ==> SlotCloned(m, rsP[k], rs[k]))
    && (forall k :: i < k < MAX_AREAS ==> rs[k].None?)
    && Additive(id, o0, m0, own, m)
  }

  ghost predicate InArea(m: Mem, rsP: Slots, rs: Slots, i: nat, cur: nat)
  {
    && i < MAX_AREAS && rsP[i].Some? && rs[i].Some? && rsP[i].value.lazy
    && AreaCloned(m, rsP[i].value, rs[i].value, cur)
  }

  /** Memory granted and filled: every part of the cloning state survives. */
  lemma CloningFilled(m: Mem, own: Owners, id: nat, nodes: Nodes, rs: Slots, mapped: bool, idP: nat, nodesP: Nodes,
                      rsP: Slots, i: nat, o0: Owners, m0: Mem, own': Owners, m': Mem)
    requires Cloning(m, own, id, nodes, rs, mapped, idP, nodesP, rsP, i, o0, m0)
    requires Additive(id, own, m, own', m') && Undisturbed(id, own, m, own', m') && own'(0) == Kernel
    ensures Cloning(m', own', id, nodes, rs, mapped, idP, nodesP, rsP, i, o0, m0)
  {
    hide SpaceOk, SlotCloned, Additive, TableOk, AreasOk, AgreeOutside;
    SlotsClonedStable(id, own, m, own', m', idP, nodesP, rsP, rs, i);
    OtherSpaceKept(id, own, m, own', m', idP, nodesP, rsP);
    AdditiveTrans(id, o0, m0, own, m, own', m');
    hide Undisturbed;
    ChildUndisturbed(id, own, m, own', m', nodes, rs, mapped);
  }

  lemma InAreaStable(m: Mem, own: Owners, id: nat, nodes: Nodes, rs: Slots, mapped: bool, idP: nat, nodesP: Nodes,
                     rsP: Slots, i: nat, o0: Owners, m0: Mem, own': Owners, m': Mem, cur: nat)
    requires Cloning(m, own, id, nodes, rs, mapped, idP, nodesP, rsP, i, o0, m0)
    requires Additive(id, own, m, own', m') && InArea(m, rsP, rs, i, cur)
    ensures InArea(m', rsP, rs, i, cur)
  {
    SpaceAreas(m, own, idP, nodesP, rsP);
    hide SpaceOk, SlotCloned, Additive, TableOk, AgreeOutside, AreaOk, AreaHeld, AreaCloned, Disjoint;
    ClonedStable(id, own, m, own', m', idP, i, rsP[i].value, rs[i].value, cur);
  }

  /** The child's page was mapped (or not) and recorded. */
  lemma CloningMapped(m: Mem, own: Owners, id: nat, nodes: Nodes, rs: Slots, mapped: bool, idP: nat, nodesP: Nodes,
                      rsP: Slots, i: nat, o0: Owners, m0: Mem, own': Owners, m': Mem, nodes': Nodes, ok: bool, w: nat,
                        p: nat)
    requires Cloning(m, own, id, nodes, rs, mapped, idP, nodesP, rsP, i, o0, m0) && InArea(m, rsP, rs, i, w)
    requires Covers(rsP[i].value, w) && Backing(rsP[i].value, w).Some? && p != 0 && FrameHeld(own, id, p, w)
    requires PageBytes(m, p) == PageBytes(m, Backing(rsP[i].value, w).value)
    requires TableStep(id, own, m, nodes, own', m', nodes') && SameLeavesBut(m, nodes, m', nodes', if ok then w else -1)
    requires ok ==> Leaf(m', nodes', w) == Some(LeafEntry(p, Translate(rs[i].value.flags)))
    ensures Demandable(rs[i].value, w)
    ensures var rs' := rs[i := Some(FaultedIn(rs[i].value, w, p))];
            && Cloning(m', own', id, nodes', rs', mapped && ok, idP, nodesP, rsP, i, o0, m0)
            && InArea(m', rsP, rs', i, w + 1)
  {
    hide SpaceOk, SlotCloned, Additive, TableOk, AreasOk, AgreeOutside, AreaCloned, Leaf, LeafEntry, FrameHeld,
      TableStep, PageBytes, FaultedIn, Demandable, SameLeavesBut, Backing;
    var r, q := rsP[i].value, rs[i].value;
    ClonedPage(m, r, q, w, p);
    TableStepAdditive(id, own, m, nodes, own', m', nodes');
    StepRoot(id, own, m, nodes, own', m', nodes');
    ChildPage(id, own, m, nodes, rs, own', m', nodes', mapped, ok, i, w, p);
    SlotsClonedStable(id, own, m, own', m', idP, nodesP, rsP, rs, i);
    OtherSpaceKept(id, own, m, own', m', idP, nodesP, rsP);
    AdditiveTrans(id, o0, m0, own, m, own', m');
    InAreaMapped(m, own, id, nodes, rs, mapped, idP, nodesP, rsP, i, own', m', w, p);
  }

  lemma StepRoot(id: nat, own: Owners, m: Mem, nodes: Nodes, own': Owners, m': Mem, nodes': Nodes)
    requires TableStep(id, own, m, nodes, own', m', nodes')
    ensures ROOT in nodes' && ROOT in nodes && nodes'[ROOT] == nodes[ROOT]
    ensures own(0) == Kernel ==> own'(0) == Kernel
    ensures UpperHalfSame(nodes[ROOT], m, m')
  {
    hide TableOk;
  }

  lemma InAreaMapped(m: Mem, own: Owners, id: nat, nodes: Nodes, rs: Slots, mapped: bool, idP: nat, nodesP: Nodes,
                     rsP: Slots, i: nat, own': Owners, m': Mem, w: nat, p: nat)
    requires ChildOk(m, own, id, nodes, rs, mapped) && ParentOk(m, own, idP, nodesP, rsP)
    requires i < MAX_AREAS && rs[i].Some? && rsP[i].Some? && rsP[i].value.lazy && Demandable(rs[i].value, w)
    requires AreaCloned(m, rsP[i].value, FaultedIn(rs[i].value, w, p), w + 1)
    requires p != 0 && FrameHeld(own, id, p, w) && Additive(id, own, m, own', m')
    ensures InArea(m', rsP, rs[i := Some(FaultedIn(rs[i].value, w, p))], i, w + 1)
  {
    SpaceAreas(m, own, idP, nodesP, rsP);
    FaultedInOk(own, id, i, rs[i].value, w, p);
    hide SpaceOk, Additive, TableOk, AgreeOutside, AreaOk, AreaHeld, AreaCloned, Disjoint, FaultedIn, FrameHeld;
    ClonedStable(id, own, m, own', m', idP, i, rsP[i].value, FaultedIn(rs[i].value, w, p), w + 1);
  }

  // ----------------------------------------------------------- what cloning costs

  /** The lists have paid for the child so far; `mapped` says whether its tables could all be had. */
  ghost predicate CloneCost(h0: Lists, n0: Nodes, h: Lists, nodes: Nodes, rs: Slots, mapped: bool)
  {
    Paid(h0, n0, h, nodes, rs) && Stocked(h, n0, nodes, TablesOf(rs), mapped)
  }

  /** Tables needed in two steps, from two sets of tables. */
  lemma Restocked(h: Lists, n0: Nodes, n1: Nodes, had: set<Pos>, n2: Nodes, need: set<Pos>, all: bool)
    requires n1.Keys == n0.Keys + had && Stocked(h, n1, n2, need, all)
    ensures Stocked(h, n0, n2, had + need, all)
  {
    hide Total;
  }

  /** `more` pages of data and the tables `need` were added to the child. */
  lemma CostStep(h0: Lists, n0: Nodes, h: Lists, nodes: Nodes, rs: Slots, mapped: bool, h1: Lists, h2: Lists,
                 nodes': Nodes, rs': Slots, all: bool, more: nat, need: set<Pos>)
    requires CloneCost(h0, n0, h, nodes, rs, mapped) && more > 0 && Total(h) == Total(h1) + more
    requires TablesPaid(h1, nodes, h2, nodes') && Stocked(h2, nodes, nodes', need, all)
    requires TablesOf(rs') == TablesOf(rs) + need && DataPages(rs') == DataPages(rs) + more
    ensures CloneCost(h0, n0, h2, nodes', rs', mapped && all)
  {
    hide Total, TablesOf, DataPages;
    assert mapped && nodes.Keys == n0.Keys + TablesOf(rs);
    hide Stocked;
    Restocked(h2, n0, nodes, TablesOf(rs), nodes', need, all);
  }

  lemma PageCost(rs: Slots, i: nat, w: nat, p: nat)
    requires Disjoint(rs) && i < MAX_AREAS && rs[i].Some? && Demandable(rs[i].value, w) && p != 0 && w < USER_PAGES
    ensures var rs' := rs[i := Some(FaultedIn(rs[i].value, w, p))];
            TablesOf(rs') == TablesOf(rs) + PathTables(w) && DataPages(rs') == DataPages(rs) + 1
  {
    var rs' := rs[i := Some(FaultedIn(rs[i].value, w, p))];
    DataUpdate(rs, i, rs'[i]);
    hide PageOf, TablesOf, DataPages, Disjoint, PathTables, RangeTables;
    RangeOfOne(w);
    forall v: nat | v < USER_PAGES
      ensures PageOf(rs', v).Some? <==> PageOf(rs, v).Some? || w <= v < w + 1
    {
      FaultPageOf(rs, i, w, p, v);
    }
    hide FaultedIn, Demandable;
    TablesAdded(rs, rs', w, 1);
  }

  lemma BlockCost(rs: Slots, i: nat, first: nat, n: nat, phys: nat, flags: PageFlags)
    requires i < MAX_AREAS && rs[i].None? && Disjoint(rs) && Disjoint(rs[i := Some(EagerArea(first, n, phys, flags))])
    requires first + n <= USER_PAGES
    ensures var rs' := rs[i := Some(EagerArea(first, n, phys, flags))];
            TablesOf(rs') == TablesOf(rs) + RangeTables(first, n) && DataPages(rs') == DataPages(rs) + Pow2(Order(n))
  {
    var q := EagerArea(first, n, phys, flags);
    var rs' := rs[i := Some(q)];
    DataUpdate(rs, i, Some(q));
    assert NPages(q) == n;
    hide PageOf, TablesOf, DataPages, Disjoint, RangeTables, Order, Pow2, FindFrom;
    forall v: nat | v < USER_PAGES
      ensures PageOf(rs', v).Some? <==> PageOf(rs, v).Some? || first <= v < first + n
    {
      SlotReplaced(rs, i, Some(q), v);
    }
    TablesAdded(rs, rs', first, n);
  }

  lemma ReserveCost(rs: Slots, i: nat, q: Area)
    requires i < MAX_AREAS && rs[i].None? && Disjoint(rs) && Disjoint(rs[i := Some(q)])
    requires q.lazy && q.lazyPages == [] && q.lazyCount == 0
    ensures TablesOf(rs[i := Some(q)]) == TablesOf(rs) && DataPages(rs[i := Some(q)]) == DataPages(rs)
  {
    var rs' := rs[i := Some(q)];
    DataUpdate(rs, i, Some(q));
    hide PageOf, TablesOf, DataPages, Disjoint;
    forall v: nat | v < USER_PAGES
      ensures PageOf(rs', v) == PageOf(rs, v)
    {
      NoFrames(rs, i, q, v);
    }
    TablesMono(rs, rs');
    TablesMono(rs', rs);
  }

  /** An area cloned up to page `cur` holds no more pages than its original. */
  lemma ClonedCount(m: Mem, r: Area, q: Area, cur: nat)
    requires AreaOk(r) && AreaOk(q) && AreaCloned(m, r, q, cur)
    ensures SlotPages(Some(q)) <= SlotPages(Some(r))
    ensures cur == r.past ==> SlotPages(Some(q)) == SlotPages(Some(r))
    ensures r.lazy && Covers(r, cur) && Backing(r, cur).Some? ==> SlotPages(Some(q)) < SlotPages(Some(r))
  {
    if r.lazy {
      var s, t := q.lazyPages, r.lazyPages;
      forall j | NonZeroAt(s, j)
        ensures NonZeroAt(t, j) && q.first + j < cur
      {
        assert Covers(q, q.first + j) && Backing(q, q.first + j).Some?;
        assert Backing(r, q.first + j).Some?;
      }
      CountMono(s, t);
      if cur == r.past {
        forall j | NonZeroAt(t, j)
          ensures NonZeroAt(s, j)
        {
          assert Covers(r, r.first + j) && Backing(r, r.first + j).Some?;
          assert Backing(q, r.first + j).Some?;
        }
        CountMono(t, s);
      }
      if Covers(r, cur) && Backing(r, cur).Some? {
        var k := cur - r.first;
        assert Backing(q, cur) == None;
        CountRecorded(s, k, 1);
        forall j | NonZeroAt(Recorded(s, k, 1), j)
          ensures NonZeroAt(t, j)
        {
          if j != k { assert NonZeroAt(s, j); }
        }
        CountMono(Recorded(s, k, 1), t);
      }
    }
    hide PageBytes, CountNonZero, Order;
  }

  /** Slot `i` of the child, cloned up to page `cur` if it is there at all. */
  ghost predicate SlotBegun(m: Mem, slotP: Option<Area>, slot: Option<Area>, cur: nat)
  {
    slot.Some? ==> slotP.Some? && AreaCloned(m, slotP.value, slot.value, cur)
  }

  /** The child so far backs only pages that the parent backs. */
  lemma BackedByParent(m: Mem, own: Owners, id: nat, nodes: Nodes, rs: Slots, mapped: bool, idP: nat, nodesP: Nodes,
                       rsP: Slots, i: nat, o0: Owners, m0: Mem, cur: nat, w: nat)
    requires Cloning(m, own, id, nodes, rs, mapped, idP, nodesP, rsP, i, o0, m0)
    requires i < MAX_AREAS ==> SlotBegun(m, rsP[i], rs[i], cur)
    requires PageOf(rs, w).Some?
    ensures PageOf(rsP, w).Some?
  {
    SpaceAreas(m, own, idP, nodesP, rsP);
    hide SpaceOk, Additive, ChildOk, AreaOk, AreaHeld, Disjoint, PageBytes, Backing;
    BackedIsFound(rs, w);
    var j := FindFrom(rs, w, 0);
    assert j <= i;
    assert Covers(rsP[j].value, w) && Backing(rsP[j].value, w).Some?;
    FindUnique(rsP, j, w);
  }

  lemma TablesSoFar(m: Mem, own: Owners, id: nat, nodes: Nodes, rs: Slots, mapped: bool, idP: nat, nodesP: Nodes,
                    rsP: Slots, i: nat, o0: Owners, m0: Mem, cur: nat)
    requires Cloning(m, own, id, nodes, rs, mapped, idP, nodesP, rsP, i, o0, m0)
    requires i < MAX_AREAS ==> SlotBegun(m, rsP[i], rs[i], cur)
    ensures TablesOf(rs) <= TablesOf(rsP)
  {
    hide Cloning, SlotBegun, PageOf, TablesOf;
    forall w: nat | w < USER_PAGES && PageOf(rs, w).Some?
      ensures PageOf(rsP, w).Some?
    {
      BackedByParent(m, own, id, nodes, rs, mapped, idP, nodesP, rsP, i, o0, m0, cur, w);
    }
    TablesMono(rs, rsP);
  }

  lemma DataOfSlot(m: Mem, own: Owners, id: nat, nodes: Nodes, rs: Slots, mapped: bool, idP: nat, nodesP: Nodes,
                   rsP: Slots, i: nat, o0: Owners, m0: Mem, k: nat)
    requires Cloning(m, own, id, nodes, rs, mapped, idP, nodesP, rsP, i, o0, m0) && k < MAX_AREAS && k != i
    ensures SlotPages(rs[k]) <= SlotPages(rsP[k])
    ensures k < i ==> SlotPages(rs[k]) == SlotPages(rsP[k])
  {
    SpaceAreas(m, own, idP, nodesP, rsP);
    hide SpaceOk, Additive, TableOk, AgreeOutside, LeadsHome, SafeAreas, SafeLeaves, AreaOk, AreaHeld, Disjoint,
      AreaCloned, SlotPages;
    if k < i {
      assert SlotCloned(m, rsP[k], rs[k]);
      if rs[k].Some? { ClonedCount(m, rsP[k].value, rs[k].value, rsP[k].value.past); }
    } else {
      NothingHeld(rsP[k]);
    }
  }

  lemma NothingHeld(slot: Option<Area>)
    ensures SlotPages(None) <= SlotPages(slot)
  {
    hide Order;
  }

  /** What is still to come in slot `i` is part of what the parent holds. */
  lemma DataSoFar(m: Mem, own: Owners, id: nat, nodes: Nodes, rs: Slots, mapped: bool, idP: nat, nodesP: Nodes,
                  rsP: Slots, i: nat, o0: Owners, m0: Mem, more: nat)
    requires Cloning(m, own, id, nodes, rs, mapped, idP, nodesP, rsP, i, o0, m0) && i < MAX_AREAS
    requires SlotPages(rs[i]) + more <= SlotPages(rsP[i])
    ensures DataPages(rs) + more <= DataPages(rsP)
  {
    hide Cloning, SlotPages;
    var rs' := rs[i := rsP[i]];
    DataUpdate(rs, i, rsP[i]);
    forall k | 0 <= k < MAX_AREAS
      ensures SlotPages(rs'[k]) <= SlotPages(rsP[k])
    {
      if k != i { DataOfSlot(m, own, id, nodes, rs, mapped, idP, nodesP, rsP, i, o0, m0, k); }
    }
    PagesInMono(rs', rsP, MAX_AREAS);
  }

  /** Data that cannot be had for slot `i`: the lists were too short for the whole clone. */
  lemma CloneCutShort(m: Mem, own: Owners, id: nat, nodes: Nodes, rs: Slots, mapped: bool, idP: nat, nodesP: Nodes,
                      rsP: Slots, i: nat, o0: Owners, m0: Mem, cur: nat, h0: Lists, n0: Nodes, h: Lists, more: nat)
    requires Cloning(m, own, id, nodes, rs, mapped, idP, nodesP, rsP, i, o0, m0) && i < MAX_AREAS
    requires SlotBegun(m, rsP[i], rs[i], cur) && SlotPages(rs[i]) + more <= SlotPages(rsP[i])
    requires CloneCost(h0, n0, h, nodes, rs, mapped) && Total(h) < more
    ensures Total(h0) < Need(n0, rsP)
  {
    hide Cloning, SlotBegun, SlotPages, Total, TablesOf, DataPages, Paid, Stocked, Need;
    TablesSoFar(m, own, id, nodes, rs, mapped, idP, nodesP, rsP, i, o0, m0, cur);
    DataSoFar(m, own, id, nodes, rs, mapped, idP, nodesP, rsP, i, o0, m0, more);
    CutShort(h0, n0, h, nodes, rs, rsP, mapped, more);
  }

  /** Slot `i` has fewer pages than the parent's as long as page `cur` is not cloned. */
  lemma PageToCome(m: Mem, own: Owners, id: nat, nodes: Nodes, rs: Slots, mapped: bool, idP: nat, nodesP: Nodes,
                   rsP: Slots, i: nat, o0: Owners, m0: Mem, cur: nat)
    requires Cloning(m, own, id, nodes, rs, mapped, idP, nodesP, rsP, i, o0, m0) && InArea(m, rsP, rs, i, cur)
    requires Covers(rsP[i].value, cur) && Backing(rsP[i].value, cur).Some?
    ensures SlotBegun(m, rsP[i], rs[i], cur) && SlotPages(rs[i]) + 1 <= SlotPages(rsP[i])
  {
    SpaceAreas(m, own, idP, nodesP, rsP);
    hide SpaceOk, Additive, TableOk, AgreeOutside, LeadsHome, SafeAreas, SafeLeaves, AreaOk, AreaHeld, Disjoint,
      AreaCloned, SlotPages;
    ClonedCount(m, rsP[i].value, rs[i].value, cur);
  }

  /** A complete clone needs exactly what the parent needs. */
  lemma NeedCloned(m: Mem, own: Owners, id: nat, nodes: Nodes, rs: Slots, mapped: bool, idP: nat, nodesP: Nodes,
                   rsP: Slots, o0: Owners, m0: Mem, n0: Nodes)
    requires Cloning(m, own, id, nodes, rs, mapped, idP, nodesP, rsP, MAX_AREAS, o0, m0)
    ensures Need(n0, rs) == Need(n0, rsP)
  {
    hide Cloning, SlotPages, PageOf, TablesOf, Missing, Cloned, SpaceOk, AreasOk, TableOk, Additive, WriteXorExecute,
      LeadsHome;
    CloningDone(m, own, id, nodes, rs, mapped, idP, nodesP, rsP, MAX_AREAS, o0, m0);
    forall k | 0 <= k < MAX_AREAS
      ensures SlotPages(rs[k]) == SlotPages(rsP[k])
    {
      DataOfSlot(m, own, id, nodes, rs, mapped, idP, nodesP, rsP, MAX_AREAS, o0, m0, k);
    }
    PagesInMono(rs, rsP, MAX_AREAS);
    PagesInMono(rsP, rs, MAX_AREAS);
    forall w: nat
      ensures PageOf(rs, w).Some? <==> PageOf(rsP, w).Some?
    {
      ClonedPages(m, rsP, rs, w);
    }
    TablesMono(rs, rsP);
    TablesMono(rsP, rs);
    assert TablesOf(rs) == TablesOf(rsP);
  }

  // ---------------------------------------------------------------- lazy areas

  /** Areas of the child have the ranges of the parent's, so they are disjoint too. */
  lemma ChildDisjoint(m: Mem, rsP: Slots, rs: Slots, i: nat, q: Area)
    requires Disjoint(rsP) && i < MAX_AREAS && rsP[i].Some? && q.first == rsP[i].value.first
             && q.past == rsP[i].value.past
    requires forall k :: 0 <= k < MAX_AREAS && k < i ==> SlotCloned(m, rsP[k], rs[k])
    requires forall k :: i < k < MAX_AREAS ==> rs[k].None?
    requires Disjoint(rs)
    ensures Disjoint(rs[i := Some(q)])
  {
    hide PageBytes, Backing;
  }

  /** The child's lazy area starts out with no frames. */
  lemma LazyStarted(m: Mem, own: Owners, id: nat, nodes: Nodes, rs: Slots, mapped: bool, idP: nat, nodesP: Nodes,
                    rsP: Slots, i: nat, o0: Owners, m0: Mem)
    requires Cloning(m, own, id, nodes, rs, mapped, idP, nodesP, rsP, i, o0, m0)
    requires i < MAX_AREAS && rsP[i].Some? && rsP[i].value.lazy && rs[i].None?
    ensures var r := rsP[i].value; var rs' := rs[i := Some(Area(r.first, r.past, 0, r.flags, true, [], 0))];
            && Cloning(m, own, id, nodes, rs', mapped, idP, nodesP, rsP, i, o0, m0)
            && InArea(m, rsP, rs', i, r.first)
  {
    hide SlotCloned, Additive, TableOk, AreaCloned, Disjoint, SafeAreas, SafeLeaves, AgreeOutside, LeadsHome;
    var r := rsP[i].value;
    var q := Area(r.first, r.past, 0, r.flags, true, [], 0);
    SpaceAreas(m, own, idP, nodesP, rsP);
    assert AreaOk(q) && AreaHeld(own, id, i, q) by { assert AreaOk(r); hide SpaceOk; }
    assert Disjoint(rs) by { AreasDisjoint(own, id, rs); }
    hide SpaceOk, AreaOk, AreaHeld;
    assert AreaCloned(m, r, q, r.first) by { NothingCloned(m, r, q); }
    ChildDisjoint(m, rsP, rs, i, q);
    AreasReshaped(own, id, rs, i, Some(q));
    ReservedAgrees(m, nodes, rs, i, q);
  }

  lemma NothingCloned(m: Mem, r: Area, q: Area)
    requires q.first == r.first && q.past == r.past && q.flags == r.flags && q.lazy && r.lazy && q.lazyPages == []
    ensures AreaCloned(m, r, q, r.first)
  {
    hide PageBytes;
  }

  /** Reserving a lazy area translates no page and makes none writable or executable. */
  lemma ReservedAgrees(m: Mem, nodes: Nodes, rs: Slots, i: nat, q: Area)
    requires i < MAX_AREAS && rs[i].None? && Disjoint(rs) && Disjoint(rs[i := Some(q)]) && q.lazy && q.lazyPages == []
    ensures AgreeOutside(m, nodes, rs, 0, 0) ==> AgreeOutside(m, nodes, rs[i := Some(q)], 0, 0)
    ensures LeadsHome(m, nodes, rs) ==> LeadsHome(m, nodes, rs[i := Some(q)])
    ensures SafeAreas(rs[i := Some(q)]) ==> SafeAreas(rs)
  {
    hide Disjoint, Leaf, PageOf, Covered, FlagsAt;
    var rs' := rs[i := Some(q)];
    forall w: nat
      ensures PageOf(rs', w) == PageOf(rs, w)
      ensures Covered(rs, w) ==> Covered(rs', w) && FlagsAt(rs', w) == FlagsAt(rs, w)
    {
      NoFrames(rs, i, q, w);
      if Covered(rs, w) { OldFlags(rs, i, q, w); }
    }
    assert forall k :: 0 <= k < MAX_AREAS && k != i ==> rs'[k] == rs[k];
  }

  lemma NoFrames(rs: Slots, i: nat, q: Area, w: nat)
    requires i < MAX_AREAS && rs[i].None? && Disjoint(rs) && Disjoint(rs[i := Some(q)]) && q.lazy && q.lazyPages == []
    ensures PageOf(rs[i := Some(q)], w) == PageOf(rs, w)
  {
    SlotReplaced(rs, i, Some(q), w);
    var j := FindFrom(rs, w, 0);
    if Covers(q, w) && j < MAX_AREAS {
      assert j != i && rs[i := Some(q)][j] == rs[j];
      FindUnique(rs[i := Some(q)], j, w);
      FindUnique(rs[i := Some(q)], i, w);
      assert false;
    }
  }

  lemma LazyFinished(m: Mem, own: Owners, id: nat, nodes: Nodes, rs: Slots, mapped: bool, idP: nat, nodesP: Nodes,
                     rsP: Slots, i: nat, o0: Owners, m0: Mem)
    requires i < MAX_AREAS && rsP[i].Some?
    requires Cloning(m, own, id, nodes, rs, mapped, idP, nodesP, rsP, i, o0, m0)
             && InArea(m, rsP, rs, i, rsP[i].value.past)
    ensures Cloning(m, own, id, nodes, rs, mapped, idP, nodesP, rsP, i + 1, o0, m0) && i + 1 <= MAX_AREAS
    ensures i + 1 < MAX_AREAS ==> rs[i + 1].None?
  {
    hide SpaceOk, AreaCloned, Additive, TableOk, AreasOk, AgreeOutside;
  }

  /** Copy one faulted-in page of the parent's lazy area `i`. Fails only when no frame is left. */
  method ClonePage(ram: Ram, root: nat, rs: Slots, i: nat, w: nat, ghost id: nat, ghost nodes: Nodes,
                   ghost mapped: bool, ghost idP: nat, ghost nodesP: Nodes, rsP: Slots, ghost o0: Owners, ghost m0: Mem,
                     ghost h0: Lists, ghost n0: Nodes)
    returns (ok: bool, rs': Slots, ghost nodes': Nodes, ghost mapped': bool)
    requires ram.Valid() && Cloning(ram.mem, ram.own, id, nodes, rs, mapped, idP, nodesP, rsP, i, o0, m0)
    requires ROOT in nodes && root == nodes[ROOT]
    requires InArea(ram.mem, rsP, rs, i, w) && Covers(rsP[i].value, w) && Backing(rsP[i].value, w).Some?
    requires NoStray(ram.own, id, rs) && CloneCost(h0, n0, ram.heads, nodes, rs, mapped)
    modifies ram`mem, ram`heads, ram`freePages, ram`own
    ensures NoStray(ram.own, id, rs') && CloneCost(h0, n0, ram.heads, nodes', rs', mapped')
    ensures !ok ==> Total(h0) < Need(n0, rsP)
    ensures ram.Valid() && ROOT in nodes' && nodes'[ROOT] == root && (mapped' ==> mapped)
    ensures Cloning(ram.mem, ram.own, id, nodes', rs', mapped', idP, nodesP, rsP, i, o0, m0)
    ensures ok ==> InArea(ram.mem, rsP, rs', i, w + 1)
    ensures !ok ==> forall o :: 0 <= o < MAX_ORDER ==> ram.heads[o].None?
  {
    hide ListsOk, TagsOk, Total, SpaceOk, SlotCloned, Additive, TableOk, AreasOk, AgreeOutside, AreaCloned, Leaf,
      LeafEntry, FrameHeld, TableStep, PageBytes, FaultedIn, SameLeavesBut, Granted, Aligned, Size, Undisturbed,
        CopyMem, ChildOk, Cloning, Backing, NoStray, InPlace, Disjoint, PageOf, Inside, CloneCost, TablesOf, DataPages,
          PathTables, Missing, TablesPaid, Need, SlotPages, SlotBegun;
    assert Pow2(0) == 1;
    ghost var h1 := ram.heads;
    var src := Backing(rsP[i].value, w).value;
    ghost var o1, m1 := ram.own, ram.mem;
    ParentPage(m1, o1, id, nodes, rs, mapped, idP, nodesP, rsP, i, o0, m0, w);
    var frame := ram.Alloc(0, Held(id, Page(w)));
    if frame.None? {
      PageToCome(m1, o1, id, nodes, rs, mapped, idP, nodesP, rsP, i, o0, m0, w);
      CloneCutShort(m1, o1, id, nodes, rs, mapped, idP, nodesP, rsP, i, o0, m0, w, h0, n0, h1, 1);
      return false, rs, nodes, mapped;
    }
    var p := frame.value;
    FilledFrame(id, o1, m1, ram.own, w, p, src);
    ram.mem := CopyMem(ram.mem, p, src, 4096);
    ghost var o2, m2 := ram.own, ram.mem;
    CloningFilled(m1, o1, id, nodes, rs, mapped, idP, nodesP, rsP, i, o0, m0, o2, m2);
    InAreaStable(m1, o1, id, nodes, rs, mapped, idP, nodesP, rsP, i, o0, m0, o2, m2, w);
    CloningTable(m2, o2, id, nodes, rs, mapped, idP, nodesP, rsP, i, o0, m0, w);
    ghost var h2 := ram.heads;
    var done;
    done, nodes' := Map4k(ram, root, 4096 * w, p, Translate(rs[i].value.flags), id, nodes);
    CloningMapped(m2, o2, id, nodes, rs, mapped, idP, nodesP, rsP, i, o0, m0, ram.own, ram.mem, nodes', done, w, p);
    StepRoot(id, o2, m2, nodes, ram.own, ram.mem, nodes');
    ChildPageFree(m1, o1, id, nodes, rs, mapped, idP, nodesP, rsP, i, o0, m0, w);
    StrayPage(rs, i, w, p);
    StrayStep(o1, o2, ram.own, m2, ram.mem, nodes, nodes', id, rs, rs[i := Some(FaultedIn(rs[i].value, w, p))], p, 0,
              Page(w));
    ok, rs', mapped' := true, rs[i := Some(FaultedIn(rs[i].value, w, p))], mapped && done;
    PageCost(rs, i, w, p);
    PageStocked(id, o2, m2, nodes, ram.own, ram.mem, nodes', ram.heads, w, done);
    CostStep(h0, n0, h1, nodes, rs, mapped, h2, ram.heads, nodes', rs', done, 1, PathTables(w));
  }

  lemma PageStocked(id: nat, own: Owners, m: Mem, nodes: Nodes, own': Owners, m': Mem, nodes': Nodes, h: Lists, w: nat,
                    done: bool)
    requires TableStep(id, own, m, nodes, own', m', nodes')
    requires if done then nodes'.Keys == nodes.Keys + PathTables(w)
             else Total(h) == 0 && nodes'.Keys <= nodes.Keys + PathTables(w) && !(PathTables(w) <= nodes'.Keys)
    ensures Stocked(h, nodes, nodes', PathTables(w), done)
  {
    hide Total, PathTables, TableOk, Confined, UpperHalfSame;
  }

  /** The child's area `i` has no frame yet for page `w`, the next one to clone. */
  lemma ChildPageFree(m: Mem, own: Owners, id: nat, nodes: Nodes, rs: Slots, mapped: bool, idP: nat, nodesP: Nodes,
                      rsP: Slots, i: nat, o0: Owners, m0: Mem, w: nat)
    requires Cloning(m, own, id, nodes, rs, mapped, idP, nodesP, rsP, i, o0, m0)
    requires InArea(m, rsP, rs, i, w) && Covers(rsP[i].value, w)
    ensures Disjoint(rs) && Demandable(rs[i].value, w) && PageOf(rs, w).None?
  {
    hide ParentOk, SlotCloned, Additive, TableOk, AgreeOutside, AreaOk, AreaHeld, SafeAreas, SafeLeaves;
    AreasDisjoint(own, id, rs);
    assert Backing(rs[i].value, w) == None;
    FindUnique(rs, i, w);
  }

  lemma ParentPage(m: Mem, own: Owners, id: nat, nodes: Nodes, rs: Slots, mapped: bool, idP: nat, nodesP: Nodes,
                   rsP: Slots, i: nat, o0: Owners, m0: Mem, w: nat)
    requires Cloning(m, own, id, nodes, rs, mapped, idP, nodesP, rsP, i, o0, m0)
    requires i < MAX_AREAS && rsP[i].Some? && Covers(rsP[i].value, w) && Backing(rsP[i].value, w).Some?
    ensures own(0) == Kernel
    ensures var src := Backing(rsP[i].value, w).value; forall x :: src <= x < src + 4096 ==> !own(x).Free?
  {
    SpaceAreas(m, own, idP, nodesP, rsP);
    hide SpaceOk, SlotCloned, Additive, ChildOk, AreaOk, AreaHeld, Disjoint, Backing;
    var src := Backing(rsP[i].value, w).value;
    forall x | src <= x < src + 4096
      ensures !own(x).Free?
    {
      AreaTag(own, idP, i, rsP[i].value, w, x);
    }
  }

  lemma CloningTable(m: Mem, own: Owners, id: nat, nodes: Nodes, rs: Slots, mapped: bool, idP: nat, nodesP: Nodes,
                     rsP: Slots, i: nat, o0: Owners, m0: Mem, w: nat)
    requires Cloning(m, own, id, nodes, rs, mapped, idP, nodesP, rsP, i, o0, m0)
    requires InArea(m, rsP, rs, i, w) && Covers(rsP[i].value, w)
    ensures TableOk(m, own, id, nodes) && w < USER_PAGES && rs[i].value.flags.present
  {
    hide SpaceOk, SlotCloned, Additive, TableOk, AgreeOutside, AreaHeld, Disjoint;
  }

  /** Copy every faulted-in page of the parent's lazy area `i`. */
  method CloneLazy(ram: Ram, root: nat, rs: Slots, i: nat, ghost id: nat, ghost nodes: Nodes, ghost mapped: bool,
                   ghost idP: nat, ghost nodesP: Nodes, rsP: Slots, ghost o0: Owners, ghost m0: Mem, ghost h0: Lists,
                     ghost n0: Nodes)
    returns (ok: bool, rs': Slots, ghost nodes': Nodes, ghost mapped': bool)
    requires ram.Valid() && Cloning(ram.mem, ram.own, id, nodes, rs, mapped, idP, nodesP, rsP, i, o0, m0)
    requires ROOT in nodes && root == nodes[ROOT]
    requires i < MAX_AREAS && rsP[i].Some? && rsP[i].value.lazy && rs[i].None?
    requires NoStray(ram.own, id, rs) && CloneCost(h0, n0, ram.heads, nodes, rs, mapped)
    modifies ram`mem, ram`heads, ram`freePages, ram`own
    ensures NoStray(ram.own, id, rs') && CloneCost(h0, n0, ram.heads, nodes', rs', mapped')
    ensures !ok ==> Total(h0) < Need(n0, rsP)
    ensures ram.Valid() && ROOT in nodes' && nodes'[ROOT] == root && (mapped' ==> mapped)
    ensures Cloning(ram.mem, ram.own, id, nodes', rs', mapped', idP, nodesP, rsP, if ok then i + 1 else i, o0, m0)
    ensures ok && i + 1 < MAX_AREAS ==> rs'[i + 1].None?
    ensures !ok ==> forall o :: 0 <= o < MAX_ORDER ==> ram.heads[o].None?
  {
    hide ListsOk, TagsOk, Total, Cloning, InArea, Backing, NoStray, Disjoint, Paid, Stocked, TablesOf, DataPages, Need;
    var r := rsP[i].value;
    LazyStarted(ram.mem, ram.own, id, nodes, rs, mapped, idP, nodesP, rsP, i, o0, m0);
    LazyRange(ram.mem, ram.own, id, nodes, rs, mapped, idP, nodesP, rsP, i, o0, m0);
    rs' := rs[i := Some(Area(r.first, r.past, 0, r.flags, true, [], 0))];
    LazyDisjoint(ram.mem, ram.own, id, nodes, rs, rs', mapped, idP, nodesP, rsP, i, o0, m0);
    StrayLazy(ram.own, id, rs, i, Area(r.first, r.past, 0, r.flags, true, [], 0));
    ReservePaid(h0, n0, ram.heads, nodes, rs, mapped, i, Area(r.first, r.past, 0, r.flags, true, [], 0));
    nodes', mapped' := nodes, mapped;
    for w := r.first to r.past
      invariant ram.Valid() && ROOT in nodes' && nodes'[ROOT] == root && (mapped' ==> mapped)
      invariant Cloning(ram.mem, ram.own, id, nodes', rs', mapped', idP, nodesP, rsP, i, o0, m0)
      invariant InArea(ram.mem, rsP, rs', i, w) && NoStray(ram.own, id, rs')
      invariant CloneCost(h0, n0, ram.heads, nodes', rs', mapped')
    {
      if Backing(r, w).Some? {
        ok, rs', nodes', mapped' := ClonePage(ram, root, rs', i, w, id, nodes', mapped', idP, nodesP, rsP, o0, m0, h0,
                                              n0);
        if !ok { return; }
      } else {
        InAreaSkip(ram.mem, rsP, rs', i, w);
      }
    }
    LazyFinished(ram.mem, ram.own, id, nodes', rs', mapped', idP, nodesP, rsP, i, o0, m0);
    ok := true;
  }

  lemma ReservePaid(h0: Lists, n0: Nodes, h: Lists, nodes: Nodes, rs: Slots, mapped: bool, i: nat, q: Area)
    requires CloneCost(h0, n0, h, nodes, rs, mapped)
    requires i < MAX_AREAS && rs[i].None? && Disjoint(rs) && Disjoint(rs[i := Some(q)])
    requires q.lazy && q.lazyPages == [] && q.lazyCount == 0
    ensures CloneCost(h0, n0, h, nodes, rs[i := Some(q)], mapped)
  {
    hide TablesOf, DataPages, Disjoint, Total;
    ReserveCost(rs, i, q);
  }

  lemma LazyDisjoint(m: Mem, own: Owners, id: nat, nodes: Nodes, rs: Slots, rs': Slots, mapped: bool, idP: nat,
                     nodesP: Nodes, rsP: Slots, i: nat, o0: Owners, m0: Mem)
    requires Cloning(m, own, id, nodes, rs, mapped, idP, nodesP, rsP, i, o0, m0)
    requires Cloning(m, own, id, nodes, rs', mapped, idP, nodesP, rsP, i, o0, m0)
    ensures Disjoint(rs) && Disjoint(rs')
  {
    hide ParentOk, SlotCloned, Additive, TableOk, AgreeOutside, AreasOk, SafeAreas, SafeLeaves;
    AreasDisjoint(own, id, rs);
    AreasDisjoint(own, id, rs');
  }

  lemma InAreaSkip(m: Mem, rsP: Slots, rs: Slots, i: nat, w: nat)
    requires InArea(m, rsP, rs, i, w) && i < MAX_AREAS && rsP[i].Some? && Covers(rsP[i].value, w)
             && Backing(rsP[i].value, w).None?
    ensures InArea(m, rsP, rs, i, w + 1)
  {
    hide AreaCloned, Backing;
    ClonedSkip(m, rsP[i].value, rs[i].value, w);
  }

  lemma LazyRange(m: Mem, own: Owners, id: nat, nodes: Nodes, rs: Slots, mapped: bool, idP: nat, nodesP: Nodes,
                  rsP: Slots, i: nat, o0: Owners, m0: Mem)
    requires Cloning(m, own, id, nodes, rs, mapped, idP, nodesP, rsP, i, o0, m0) && i < MAX_AREAS && rsP[i].Some?
    ensures rsP[i].value.first <= rsP[i].value.past <= USER_PAGES
    ensures !rsP[i].value.lazy ==> rsP[i].value.first < rsP[i].value.past
  {
    hide SpaceOk, SlotCloned, Additive, ChildOk;
    AreaBounds(m, own, idP, nodesP, rsP, i);
  }

  // ------------------------------------------------------------ no stray frames

  lemma StrayLazy(own: Owners, id: nat, rs: Slots, i: nat, q: Area)
    requires NoStray(own, id, rs) && i < MAX_AREAS && rs[i].None? && Disjoint(rs) && Disjoint(rs[i := Some(q)])
             && q.lazy && q.lazyPages == []
    ensures NoStray(own, id, rs[i := Some(q)])
  {
    hide Disjoint, Inside, Order, PageOf;
    var rs' := rs[i := Some(q)];
    forall x | Ours(own(x), id)
      ensures InPlace(own(x).use, rs', x)
    {
      assert InPlace(own(x).use, rs, x);
      if own(x).use.Page? { NoFrames(rs, i, q, own(x).use.vpn); }
    }
  }

  // --------------------------------------------------------------- eager areas

  /** Map `n` pages to consecutive frames, ignoring failures as the source does. */
  method MapAll(ram: Ram, root: nat, v0: nat, n: nat, phys: nat, f: PtFlags, ghost id: nat, ghost nodes: Nodes)
    returns (ghost all: bool, ghost nodes': Nodes)
    requires ram.Valid() && TableOk(ram.mem, ram.own, id, nodes) && root == nodes[ROOT]
    requires v0 + n <= USER_PAGES && f.present && phys % 4096 == 0 && phys + 4096 * n <= PHYS_LIMIT
    modifies ram`mem, ram`heads, ram`freePages, ram`own
    ensures ram.Valid()
    ensures TableStep(id, old(ram.own), old(ram.mem), nodes, ram.own, ram.mem, nodes')
    ensures PartlyMapped(old(ram.mem), nodes, ram.mem, nodes', v0, n, phys, f)
    ensures all ==> LeavesMapped(old(ram.mem), nodes, ram.mem, nodes', v0, n, phys, f)
    ensures TablesPaid(old(ram.heads), nodes, ram.heads, nodes')
    ensures Stocked(ram.heads, nodes, nodes', RangeTables(v0, n), all)
  {
    hide ListsOk, TagsOk, Total, Placed, Linked, Leaf, LeafEntry, LeavesMapped, LeavesCleared, Confined, UpperHalfSame,
      PathTables;
    ghost var m0, o0, h0 := ram.mem, ram.own, ram.heads;
    EmptyRange(m0, o0, id, nodes, v0);
    all, nodes' := true, nodes;
    for i := 0 to n
      invariant ram.Valid()
      invariant TableStep(id, o0, m0, nodes, ram.own, ram.mem, nodes')
      invariant PartlyMapped(m0, nodes, ram.mem, nodes', v0, i, phys, f)
      invariant all ==> LeavesMapped(m0, nodes, ram.mem, nodes', v0, i, phys, f)
      invariant TablesPaid(h0, nodes, ram.heads, nodes') && Stocked(ram.heads, nodes, nodes', RangeTables(v0, i), all)
    {
      all, nodes' := MapOne(ram, root, v0, i, n, phys, f, id, nodes, nodes', all, o0, m0, h0);
    }
  }

  method MapOne(ram: Ram, root: nat, v0: nat, i: nat, n: nat, phys: nat, f: PtFlags, ghost id: nat, ghost nodes: Nodes,
                ghost n1: Nodes, ghost all: bool, ghost o0: Owners, ghost m0: Mem, ghost h0: Lists)
    returns (ghost all': bool, ghost nodes': Nodes)
    requires ram.Valid() && ROOT in nodes && root == nodes[ROOT] && i < n
    requires v0 + n <= USER_PAGES && f.present && phys % 4096 == 0 && phys + 4096 * n <= PHYS_LIMIT
    requires TableStep(id, o0, m0, nodes, ram.own, ram.mem, n1)
    requires PartlyMapped(m0, nodes, ram.mem, n1, v0, i, phys, f)
    requires all ==> LeavesMapped(m0, nodes, ram.mem, n1, v0, i, phys, f)
    requires TablesPaid(h0, nodes, ram.heads, n1) && Stocked(ram.heads, nodes, n1, RangeTables(v0, i), all)
    modifies ram`mem, ram`heads, ram`freePages, ram`own
    ensures ram.Valid()
    ensures TableStep(id, o0, m0, nodes, ram.own, ram.mem, nodes')
    ensures PartlyMapped(m0, nodes, ram.mem, nodes', v0, i + 1, phys, f)
    ensures all' ==> LeavesMapped(m0, nodes, ram.mem, nodes', v0, i + 1, phys, f)
    ensures TablesPaid(h0, nodes, ram.heads, nodes') && Stocked(ram.heads, nodes, nodes', RangeTables(v0, i + 1), all')
  {
    hide ListsOk, TagsOk, Total, Placed, Linked, SameLeavesBut, Leaf, LeafEntry, LeavesMapped, Confined, UpperHalfSame,
      PartlyMapped, TablesPaid, PathTables, Stocked, Missing;
    ghost var m1, o1, h1 := ram.mem, ram.own, ram.heads;
    var ok;
    ok, nodes' := Map4k(ram, root, 4096 * (v0 + i), phys + 4096 * i, f, id, n1);
    PaidTrans(h0, nodes, h1, n1, ram.heads, nodes');
    StockedStep(h1, nodes, n1, RangeTables(v0, i), all, ram.heads, nodes', PathTables(v0 + i), ok);
    TableStepTrans(id, o0, m0, nodes, o1, m1, n1, ram.own, ram.mem, nodes');
    PartlyStep(m0, nodes, m1, n1, ram.mem, nodes', v0, i, phys, f, ok);
    all' := all && ok;
    if all' { MappedStep(m0, nodes, m1, n1, ram.mem, nodes', v0, i, phys, f); }
  }

  lemma PartlyStep(m: Mem, nodes: Nodes, m1: Mem, n1: Nodes, m2: Mem, n2: Nodes, v0: nat, i: nat, phys: nat, f: PtFlags,
                   ok: bool)
    requires PartlyMapped(m, nodes, m1, n1, v0, i, phys, f) && SameLeavesBut(m1, n1, m2, n2, if ok then v0 + i else -1)
    requires ok ==> Leaf(m2, n2, v0 + i) == Some(LeafEntry(phys + 4096 * i, f))
    ensures PartlyMapped(m, nodes, m2, n2, v0, i + 1, phys, f)
  {
    hide Leaf, LeafEntry;
  }

  /** The block for the copy, filled from the parent's block at `src`. */
  lemma FilledBlock(id: nat, own: Owners, m: Mem, own': Owners, slot: nat, n: nat, phys: nat, src: nat)
    requires own(0) == Kernel && 0 < n <= 1024 && Aligned(phys, Order(n)) && phys + Size(Order(n)) <= PHYS_LIMIT
    requires Granted(own, own', phys, Order(n), Held(id, Extent(slot)))
    requires forall x :: src <= x < src + 4096 * n ==> !own(x).Free?
    ensures var m' := CopyMem(m, phys, src, 4096 * n);
            && (forall k :: 0 <= k < n ==> CopiedAt(m, m', phys, src, k))
            && Additive(id, own, m, own', m') && Undisturbed(id, own, m, own', m')
    ensures phys != 0 && own'(0) == Kernel && BlockHeld(own', id, slot, phys, Order(n)) && phys % 4096 == 0
            && phys + 4096 * n <= PHYS_LIMIT
  {
    var m' := CopyMem(m, phys, src, 4096 * n);
    GrantedBlock(id, own, own', slot, n, phys);
    hide Aligned, BlockHeld, Granted, PageBytes, Size, Order;
    assert phys + 4096 * n <= src || src + 4096 * n <= phys by {
      var x := Max(phys, src);
      assert Inside(x, phys, Order(n)) ==> own(x).Free?;
      assert src <= x < src + 4096 * n ==> !own(x).Free?;
    }
    forall k | 0 <= k < n
      ensures CopiedAt(m, m', phys, src, k)
    {
      CopiedPage(m, phys, src, 4096 * n, k);
    }
    GrantOnly(id, own, m, own', m', phys, Order(n), Extent(slot));
  }

  /** Page `k` of the new block has the bytes of page `k` of the old one. */
  predicate CopiedAt(m: Mem, m': Mem, phys: nat, src: nat, k: nat)
  {
    PageBytes(m', phys + 4096 * k) == PageBytes(m, src + 4096 * k) == PageBytes(m', src + 4096 * k)
  }

  /** The child's eager area is a copy once its block is. */
  lemma EagerCloned(m: Mem, m1: Mem, r: Area, phys: nat)
    requires !r.lazy && r.first < r.past && forall k :: 0 <= k < NPages(r) ==> CopiedAt(m, m1, phys, r.phys, k)
    ensures AreaCloned(m1, r, EagerArea(r.first, NPages(r), phys, r.flags), r.past)
  {
    hide PageBytes;
    var q := EagerArea(r.first, NPages(r), phys, r.flags);
    forall w: nat | Covers(r, w)
      ensures Backing(q, w).Some? && Backing(r, w).Some?
              && PageBytes(m1, Backing(q, w).value) == PageBytes(m1, Backing(r, w).value)
    {
      assert CopiedAt(m, m1, phys, r.phys, w - r.first);
    }
  }

  lemma ChildBlock(id: nat, own: Owners, m: Mem, nodes: Nodes, rs: Slots, own': Owners, m': Mem, nodes': Nodes,
                   mapped: bool, all: bool, i: nat, first: nat, n: nat, phys: nat, flags: PageFlags)
    requires ChildOk(m, own, id, nodes, rs, mapped) && TableStep(id, own, m, nodes, own', m', nodes')
    requires PartlyMapped(m, nodes, m', nodes', first, n, phys, Translate(flags))
    requires all ==> LeavesMapped(m, nodes, m', nodes', first, n, phys, Translate(flags))
    requires i < MAX_AREAS && rs[i].None? && Disjoint(rs[i := Some(EagerArea(first, n, phys, flags))])
    requires 0 < n <= 1024 && first + n <= USER_PAGES && flags.present && phys != 0
             && BlockHeld(own, id, i, phys, Order(n))
    ensures ChildOk(m', own', id, nodes', rs[i := Some(EagerArea(first, n, phys, flags))], mapped && all)
    ensures AreaOk(EagerArea(first, n, phys, flags)) && AreaHeld(own, id, i, EagerArea(first, n, phys, flags))
  {
    var q := EagerArea(first, n, phys, flags);
    assert AreaOk(q) && AreaHeld(own, id, i, q);
    hide Leaf, LeafEntry, BlockHeld, Order;
    if mapped && all { MapCommitAgrees(id, own, m, nodes, rs, m', nodes', i, first, n, phys, flags); }
    BlockHome(own, id, m, nodes, rs, m', nodes', i, first, n, phys, flags);
    BlockSafe(own, id, m, nodes, rs, m', nodes', i, first, n, phys, flags);
    hide LeadsHome, SafeAreas, SafeLeaves, PartlyMapped, LeavesMapped;
    AreasStep(id, own, m, nodes, own', m', nodes', rs);
    assert AreaHeld(own', id, i, q) by { hide TableOk, AreaHeld; AreaUndisturbed(id, own, own', i, q); }
    hide AreaOk, AreaHeld, AgreeOutside, TableOk, Confined, Disjoint;
    AreasReshaped(own', id, rs, i, Some(q));
  }

  lemma CloningBlock(m: Mem, own: Owners, id: nat, nodes: Nodes, rs: Slots, mapped: bool, idP: nat, nodesP: Nodes,
                     rsP: Slots, i: nat, o0: Owners, m0: Mem, m1: Mem, own': Owners, m': Mem, nodes': Nodes, all: bool,
                       n: nat, phys: nat)
    requires Cloning(m1, own, id, nodes, rs, mapped, idP, nodesP, rsP, i, o0, m0)
    requires i < MAX_AREAS && rsP[i].Some? && !rsP[i].value.lazy && rs[i].None? && n == NPages(rsP[i].value)
    requires phys != 0 && BlockHeld(own, id, i, phys, Order(n))
    requires forall k :: 0 <= k < n ==> CopiedAt(m, m1, phys, rsP[i].value.phys, k)
    requires TableStep(id, own, m1, nodes, own', m', nodes')
    requires PartlyMapped(m1, nodes, m', nodes', rsP[i].value.first, n, phys, Translate(rsP[i].value.flags))
    requires all ==> LeavesMapped(m1, nodes, m', nodes', rsP[i].value.first, n, phys, Translate(rsP[i].value.flags))
    ensures var rs' := rs[i := Some(EagerArea(rsP[i].value.first, n, phys, rsP[i].value.flags))];
            Cloning(m', own', id, nodes', rs', mapped && all, idP, nodesP, rsP, i + 1, o0, m0)
  {
    hide SpaceOk, SlotCloned, Additive, TableOk, AreasOk, AgreeOutside, AreaCloned, TableStep, PageBytes, LeavesMapped,
      BlockHeld, Order, AreaOk, AreaHeld, CopiedAt, Disjoint, PartlyMapped, LeadsHome, SafeAreas, SafeLeaves;
    var r := rsP[i].value;
    var q := EagerArea(r.first, n, phys, r.flags);
    ParentArea(m1, own, idP, nodesP, rsP, i);
    EagerCloned(m, m1, r, phys);
    assert Disjoint(rs) by { AreasDisjoint(own, id, rs); }
    ChildDisjoint(m1, rsP, rs, i, q);
    ChildBlock(id, own, m1, nodes, rs, own', m', nodes', mapped, all, i, r.first, n, phys, r.flags);
    TableStepAdditive(id, own, m1, nodes, own', m', nodes');
    StepRoot(id, own, m1, nodes, own', m', nodes');
    SlotsClonedStable(id, own, m1, own', m', idP, nodesP, rsP, rs, i);
    OtherSpaceKept(id, own, m1, own', m', idP, nodesP, rsP);
    AdditiveTrans(id, o0, m0, own, m1, own', m');
    ClonedStable(id, own, m1, own', m', idP, i, r, q, r.past);
    assert SlotCloned(m', rsP[i], Some(q)) by { SlotClonedIntro(m', r, q); }
  }

  lemma SlotClonedIntro(m: Mem, r: Area, q: Area)
    requires AreaCloned(m, r, q, r.past)
    ensures SlotCloned(m, Some(r), Some(q))
  {
    hide AreaCloned;
  }

  lemma AreasDisjoint(own: Owners, id: nat, rs: Slots)
    requires AreasOk(own, id, rs)
    ensures Disjoint(rs)
  {
    hide Disjoint, AreaOk, AreaHeld;
  }

  lemma ParentArea(m: Mem, own: Owners, id: nat, nodes: Nodes, rs: Slots, i: nat)
    requires SpaceOk(m, own, id, nodes, rs) && i < MAX_AREAS && rs[i].Some? && !rs[i].value.lazy
    ensures var r := rs[i].value;
            && AreaOk(r) && AreaHeld(own, id, i, r) && Disjoint(rs)
            && 0 < NPages(r) <= 1024 && r.first + NPages(r) == r.past <= USER_PAGES && r.flags.present
  {
    hide SpaceOk, AreaHeld, Disjoint;
    SpaceAreas(m, own, id, nodes, rs);
  }

  /** No byte of the parent's block `i` is free, so a fresh block cannot overlap it. */
  lemma ParentBlock(m: Mem, own: Owners, id: nat, nodes: Nodes, rs: Slots, mapped: bool, idP: nat, nodesP: Nodes,
                    rsP: Slots, i: nat, o0: Owners, m0: Mem)
    requires Cloning(m, own, id, nodes, rs, mapped, idP, nodesP, rsP, i, o0, m0)
    requires i < MAX_AREAS && rsP[i].Some? && !rsP[i].value.lazy
    ensures own(0) == Kernel
    ensures var r := rsP[i].value;
            && 0 < NPages(r) <= 1024 && r.first + NPages(r) == r.past <= USER_PAGES && r.flags.present && r.phys != 0
            && Order(NPages(r)) < MAX_ORDER
            && forall x :: r.phys <= x < r.phys + 4096 * NPages(r) ==> !own(x).Free?
  {
    hide SlotCloned, Additive, ChildOk, Order, Size;
    ParentArea(m, own, idP, nodesP, rsP, i);
    var r := rsP[i].value;
    OrderBound(NPages(r));
    hide SpaceOk, Disjoint;
    forall x | r.phys <= x < r.phys + 4096 * NPages(r)
      ensures !own(x).Free?
    {
      assert Inside(x, r.phys, Order(NPages(r)));
    }
  }

  lemma ChildTable(m: Mem, own: Owners, id: nat, nodes: Nodes, rs: Slots, mapped: bool, idP: nat, nodesP: Nodes,
                   rsP: Slots, i: nat, o0: Owners, m0: Mem)
    requires Cloning(m, own, id, nodes, rs, mapped, idP, nodesP, rsP, i, o0, m0)
    ensures TableOk(m, own, id, nodes)
  {
    hide SpaceOk, SlotCloned, Additive, TableOk, AgreeOutside, AreasOk;
  }

  /** Copy the parent's eager area `i` in one block. Fails only when no block is large enough. */
  method CloneEager(ram: Ram, root: nat, rs: Slots, i: nat, ghost id: nat, ghost nodes: Nodes, ghost mapped: bool,
                    ghost idP: nat, ghost nodesP: Nodes, rsP: Slots, ghost o0: Owners, ghost m0: Mem, ghost h0: Lists,
                      ghost n0: Nodes)
    returns (ok: bool, rs': Slots, ghost nodes': Nodes, ghost mapped': bool)
    requires ram.Valid() && Cloning(ram.mem, ram.own, id, nodes, rs, mapped, idP, nodesP, rsP, i, o0, m0)
    requires ROOT in nodes && root == nodes[ROOT]
    requires i < MAX_AREAS && rsP[i].Some? && !rsP[i].value.lazy && rs[i].None?
    requires NoStray(ram.own, id, rs) && CloneCost(h0, n0, ram.heads, nodes, rs, mapped)
    modifies ram`mem, ram`heads, ram`freePages, ram`own
    ensures NoStray(ram.own, id, rs') && CloneCost(h0, n0, ram.heads, nodes', rs', mapped')
    ensures !ok ==> Total(h0) < Need(n0, rsP)
    ensures ram.Valid() && ROOT in nodes' && nodes'[ROOT] == root && (mapped' ==> mapped)
    ensures Cloning(ram.mem, ram.own, id, nodes', rs', mapped', idP, nodesP, rsP, if ok then i + 1 else i, o0, m0)
    ensures ok && i + 1 < MAX_AREAS ==> rs'[i + 1].None?
    ensures !ok ==> forall o :: Order(NPages(rsP[i].value)) <= o < MAX_ORDER ==> ram.heads[o].None?
  {
    hide ListsOk, TagsOk, Total, Cloning, BlockHeld, Granted, Aligned, Size, Order, Undisturbed, CopyMem, CopiedAt,
      TableOk, TableStep, LeavesMapped, Additive, Inside, NoStray, InPlace, Disjoint, CloneCost, TablesOf, DataPages,
        RangeTables, TablesPaid, Stocked, Need, SlotPages, SlotBegun, PartlyMapped, Pow2;
    ghost var h1 := ram.heads;
    var r := rsP[i].value;
    ghost var o1, m1 := ram.own, ram.mem;
    ParentBlock(m1, o1, id, nodes, rs, mapped, idP, nodesP, rsP, i, o0, m0);
    NextSlotEmpty(m1, o1, id, nodes, rs, mapped, idP, nodesP, rsP, i, o0, m0);
    var n := NPages(r);
    var order := PagesToOrder(n);
    var block := ram.Alloc(order, Held(id, Extent(i)));
    if block.None? {
      BlockToCome(m1, rsP[i], rs[i]);
      CloneCutShort(m1, o1, id, nodes, rs, mapped, idP, nodesP, rsP, i, o0, m0, 0, h0, n0, h1, Pow2(order));
      return false, rs, nodes, mapped;
    }
    var p := block.value;
    FilledBlock(id, o1, m1, ram.own, i, n, p, r.phys);
    ram.mem := CopyMem(ram.mem, p, r.phys, 4096 * n);
    ghost var o2, m2 := ram.own, ram.mem;
    CloningFilled(m1, o1, id, nodes, rs, mapped, idP, nodesP, rsP, i, o0, m0, o2, m2);
    ChildTable(m2, o2, id, nodes, rs, mapped, idP, nodesP, rsP, i, o0, m0);
    ghost var h2 := ram.heads;
    ghost var all;
    all, nodes' := MapAll(ram, root, r.first, n, p, Translate(r.flags), id, nodes);
    CloningBlock(m1, o2, id, nodes, rs, mapped, idP, nodesP, rsP, i, o0, m0, m2, ram.own, ram.mem, nodes', all, n, p);
    StepRoot(id, o2, m2, nodes, ram.own, ram.mem, nodes');
    ok, rs', mapped' := true, rs[i := Some(EagerArea(r.first, n, p, r.flags))], mapped && all;
    BlockDisjoint(m2, o2, ram.mem, ram.own, id, nodes, nodes', rs, rs', mapped, mapped', idP, nodesP, rsP, i, o0, m0);
    StrayBlock(rs, i, EagerArea(r.first, n, p, r.flags));
    StrayStep(o1, o2, ram.own, m2, ram.mem, nodes, nodes', id, rs, rs', p, order, Extent(i));
    BlockCost(rs, i, r.first, n, p, r.flags);
    Pow2Positive(order);
    CostStep(h0, n0, h1, nodes, rs, mapped, h2, ram.heads, nodes', rs', all, Pow2(order), RangeTables(r.first, n));
  }

  lemma Pow2Positive(o: nat)
    ensures Pow2(o) > 0
  {
  }

  lemma BlockToCome(m: Mem, slotP: Option<Area>, slot: Option<Area>)
    requires slot.None? && slotP.Some? && !slotP.value.lazy
    ensures SlotBegun(m, slotP, slot, 0) && SlotPages(slot) + Pow2(Order(NPages(slotP.value))) <= SlotPages(slotP)
  {
    hide Order;
  }

  lemma BlockDisjoint(m: Mem, own: Owners, m': Mem, own': Owners, id: nat, nodes: Nodes, nodes': Nodes, rs: Slots,
                      rs': Slots, mapped: bool, mapped': bool, idP: nat, nodesP: Nodes, rsP: Slots, i: nat, o0: Owners,
                        m0: Mem)
    requires Cloning(m, own, id, nodes, rs, mapped, idP, nodesP, rsP, i, o0, m0)
    requires Cloning(m', own', id, nodes', rs', mapped', idP, nodesP, rsP, i + 1, o0, m0)
    ensures Disjoint(rs) && Disjoint(rs')
  {
    hide ParentOk, SlotCloned, Additive, TableOk, AgreeOutside, AreasOk, SafeAreas, SafeLeaves;
    AreasDisjoint(own, id, rs);
    AreasDisjoint(own', id, rs');
  }

  lemma SlotSkipped(m: Mem, own: Owners, id: nat, nodes: Nodes, rs: Slots, mapped: bool, idP: nat, nodesP: Nodes,
                    rsP: Slots, i: nat, o0: Owners, m0: Mem)
    requires Cloning(m, own, id, nodes, rs, mapped, idP, nodesP, rsP, i, o0, m0)
    requires i < MAX_AREAS && rsP[i].None? && rs[i].None?
    ensures Cloning(m, own, id, nodes, rs, mapped, idP, nodesP, rsP, i + 1, o0, m0)
  {
    hide ParentOk, Additive, ChildOk, AreaCloned;
  }

  lemma NextSlotEmpty(m: Mem, own: Owners, id: nat, nodes: Nodes, rs: Slots, mapped: bool, idP: nat, nodesP: Nodes,
                      rsP: Slots, i: nat, o0: Owners, m0: Mem)
    requires Cloning(m, own, id, nodes, rs, mapped, idP, nodesP, rsP, i, o0, m0)
    ensures forall k :: i < k < MAX_AREAS ==> rs[k].None?
  {
    hide ParentOk, Additive, ChildOk, SlotCloned;
  }

  method CloneSlot(ram: Ram, root: nat, rs: Slots, i: nat, ghost id: nat, ghost nodes: Nodes, ghost mapped: bool,
                   ghost idP: nat, ghost nodesP: Nodes, rsP: Slots, ghost o0: Owners, ghost m0: Mem, ghost h0: Lists,
                     ghost n0: Nodes)
    returns (ok: bool, rs': Slots, ghost nodes': Nodes, ghost mapped': bool)
    requires ram.Valid() && Cloning(ram.mem, ram.own, id, nodes, rs, mapped, idP, nodesP, rsP, i, o0, m0)
    requires ROOT in nodes && root == nodes[ROOT] && i < MAX_AREAS && rs[i].None?
    requires NoStray(ram.own, id, rs) && CloneCost(h0, n0, ram.heads, nodes, rs, mapped)
    modifies ram`mem, ram`heads, ram`freePages, ram`own
    ensures NoStray(ram.own, id, rs') && CloneCost(h0, n0, ram.heads, nodes', rs', mapped')
    ensures !ok ==> Total(h0) < Need(n0, rsP)
    ensures ram.Valid() && ROOT in nodes' && nodes'[ROOT] == root && (mapped' ==> mapped)
    ensures Cloning(ram.mem, ram.own, id, nodes', rs', mapped', idP, nodesP, rsP, if ok then i + 1 else i, o0, m0)
    ensures ok && i + 1 < MAX_AREAS ==> rs'[i + 1].None?
  {
    hide ListsOk, TagsOk, Total, Cloning, NoStray, CloneCost, Need;
    NextSlotEmpty(ram.mem, ram.own, id, nodes, rs, mapped, idP, nodesP, rsP, i, o0, m0);
    if rsP[i].None? {
      SlotSkipped(ram.mem, ram.own, id, nodes, rs, mapped, idP, nodesP, rsP, i, o0, m0);
      ok, rs', nodes', mapped' := true, rs, nodes, mapped;
    } else if rsP[i].value.lazy {
      ok, rs', nodes', mapped' := CloneLazy(ram, root, rs, i, id, nodes, mapped, idP, nodesP, rsP, o0, m0, h0, n0);
    } else {
      ok, rs', nodes', mapped' := CloneEager(ram, root, rs, i, id, nodes, mapped, idP, nodesP, rsP, o0, m0, h0, n0);
    }
  }

  // ---------------------------------------------------------------- the whole clone

  /** The child is complete: every slot of the parent is cloned. */
  ghost predicate Cloned(m: Mem, rsP: Slots, rs: Slots)
  {
    forall k :: 0 <= k < MAX_AREAS ==> SlotCloned(m, rsP[k], rs[k])
  }

  /** A complete child has the parent's pages, with equal bytes. */
  lemma ClonedPages(m: Mem, rsP: Slots, rs: Slots, v: nat)
    requires Cloned(m, rsP, rs) && Disjoint(rsP) && Disjoint(rs)
    ensures PageOf(rs, v).Some? <==> PageOf(rsP, v).Some?
    ensures PageOf(rs, v).Some? ==> PageBytes(m, PageOf(rs, v).value) == PageBytes(m, PageOf(rsP, v).value)
  {
    hide PageBytes, Backing, Disjoint;
    var i := FindFrom(rsP, v, 0);
    if i < MAX_AREAS {
      assert SlotCloned(m, rsP[i], rs[i]);
      FindUnique(rs, i, v);
    } else {
      assert forall k :: 0 <= k < MAX_AREAS ==> SlotCloned(m, rsP[k], rs[k]);
    }
  }

  lemma ByteOfPage(m: Mem, p: nat, q: nat, k: nat)
    requires PageBytes(m, p) == PageBytes(m, q) && k < 4096
    ensures m(p + k) == m(q + k)
  {
    assert PageBytes(m, p)[k] == PageBytes(m, q)[k];
  }

  /** Fork equality: the child reads every user byte as the parent does. */
  lemma ForkEqual(m: Mem, rsP: Slots, rs: Slots, a: nat)
    requires Cloned(m, rsP, rs) && Disjoint(rsP) && Disjoint(rs)
    ensures VirtToPhys(rs, a).Some? <==> VirtToPhys(rsP, a).Some?
    ensures UserByte(m, rs, a) == UserByte(m, rsP, a)
  {
    hide PageBytes, PageOf, Disjoint, Cloned;
    ClonedPages(m, rsP, rs, a / 4096);
    UserByteAt(m, rs, a);
    UserByteAt(m, rsP, a);
    if PageOf(rs, a / 4096).Some? {
      ByteOfPage(m, PageOf(rs, a / 4096).value, PageOf(rsP, a / 4096).value, a % 4096);
    }
  }

  /** Fork isolation: what one space writes to its pages, no other space can read. */
  lemma WritesUnseen(m: Mem, own: Owners, m': Mem, id: nat, id': nat, nodes: Nodes, rs: Slots, a: nat)
    requires SpaceOk(m, own, id, nodes, rs) && DataWritten(id', own, m, m') && id' != id
    ensures UserByte(m', rs, a) == UserByte(m, rs, a)
  {
    hide SpaceOk, PageOf, FindFrom;
    UserByteAt(m, rs, a);
    UserByteAt(m', rs, a);
    if PageOf(rs, a / 4096).Some? {
      PageTag(m, own, id, nodes, rs, a / 4096, PageOf(rs, a / 4096).value + a % 4096);
    }
  }

  lemma CloningStarted(m: Mem, own: Owners, id: nat, nodes: Nodes, idP: nat, nodesP: Nodes, rsP: Slots, rs: Slots)
    requires SpaceOk(m, own, idP, nodesP, rsP) && own(0) == Kernel && id != idP
    requires TableOk(m, own, id, nodes) && forall v: nat :: v < USER_PAGES ==> Leaf(m, nodes, v) == None
    requires forall x :: Ours(own(x), id) ==> own(x).use.Table?
    requires forall k :: 0 <= k < MAX_AREAS ==> rs[k].None?
    ensures ROOT in nodes && Cloning(m, own, id, nodes, rs, true, idP, nodesP, rsP, 0, own, m) && NoStray(own, id, rs)
  {
    hide SpaceOk, Linked, Leaf;
  }

  lemma CloningDone(m: Mem, own: Owners, id: nat, nodes: Nodes, rs: Slots, mapped: bool, idP: nat, nodesP: Nodes,
                    rsP: Slots, i: nat, o0: Owners, m0: Mem)
    requires Cloning(m, own, id, nodes, rs, mapped, idP, nodesP, rsP, i, o0, m0)
    ensures SpaceOk(m, own, idP, nodesP, rsP) && own(0) == Kernel && Additive(id, o0, m0, own, m)
    ensures id != idP && TableOk(m, own, id, nodes) && AreasOk(own, idP, rsP) && AreasOk(own, id, rs) && Disjoint(rs)
            && Disjoint(rsP)
    ensures mapped ==> SpaceOk(m, own, id, nodes, rs)
    ensures LeadsHome(m, nodes, rs) && (SafeAreas(rs) ==> WriteXorExecute(m, nodes, rs))
    ensures i >= MAX_AREAS ==> Cloned(m, rsP, rs) && (SafeAreas(rsP) ==> SafeAreas(rs))
  {
    hide TableOk, AreaOk, AreaHeld, Disjoint, SafeLeaves, AgreeOutside, PageBytes, Backing, LeadsHome;
    if i >= MAX_AREAS && SafeAreas(rsP) {
      forall k | 0 <= k < MAX_AREAS && rs[k].Some?
        ensures SafeFlags(rs[k].value.flags)
      {
        assert SlotCloned(m, rsP[k], rs[k]);
      }
    }
  }

  lemma GivenUpKeeps(id: nat, o0: Owners, m0: Mem, own: Owners, m: Mem, own': Owners, idP: nat, nodesP: Nodes,
                     rsP: Slots)
    requires SpaceOk(m, own, idP, nodesP, rsP) && own(0) == Kernel && id != idP
    requires Additive(id, o0, m0, own, m) && GivenUp(id, own, own')
    ensures SpaceOk(m, own', idP, nodesP, rsP) && own'(0) == Kernel
    ensures Isolated(id, o0, m0, own', m)
  {
    hide SpaceOk;
    assert Undisturbed(idP, own, m, own', m);
    SpaceUndisturbed(idP, own, m, own', m, nodesP, rsP);
  }

  predicate FrameApart(p: nat, q: nat)
  {
    p + 4096 <= q || q + 4096 <= p
  }

  lemma FrameTag(own: Owners, id: nat, rs: Slots, v: nat, x: int)
    requires AreasOk(own, id, rs) && PageOf(rs, v).Some? && PageOf(rs, v).value <= x < PageOf(rs, v).value + 4096
    ensures Ours(own(x), id)
  {
    hide AreaHeld, AreaOk, Disjoint, Backing;
    var i := FindFrom(rs, v, 0);
    AreaTag(own, id, i, rs[i].value, v, x);
  }

  /** Two spaces never share a frame. */
  lemma SpacesApart(own: Owners, id: nat, rs: Slots, id': nat, rs': Slots, v: nat, w: nat)
    requires AreasOk(own, id, rs) && AreasOk(own, id', rs') && id != id' && PageOf(rs, v).Some? && PageOf(rs', w).Some?
    ensures FrameApart(PageOf(rs, v).value, PageOf(rs', w).value)
  {
    hide AreasOk, PageOf;
    var p, q := PageOf(rs, v).value, PageOf(rs', w).value;
    if !FrameApart(p, q) {
      FrameTag(own, id, rs, v, Max(p, q));
      FrameTag(own, id', rs', w, Max(p, q));
      assert false;
    }
  }

  /** Whatever the processor finds is the frame the areas record, open to exactly what the area's flags ask for. */
  ghost predicate WalksHome(m: Mem, root: nat, rs: Slots)
  {
    forall v: nat :: v < USER_PAGES && HwWalk(m, root, v).Mapped? ==>
      && Covered(rs, v) && PageOf(rs, v) == Some(HwWalk(m, root, v).addr)
      && var f := FlagsAt(rs, v); Permits(HwWalk(m, root, v), Access(f.user, f.writable, f.execute))
  }

  lemma HomeWalks(m: Mem, own: Owners, id: nat, nodes: Nodes, rs: Slots)
    requires TableOk(m, own, id, nodes) && LeadsHome(m, nodes, rs)
    ensures ROOT in nodes && WalksHome(m, nodes[ROOT], rs)
  {
    var root := nodes[ROOT];
    hide TableOk, Leaf, HwWalk, PageOf, Covered, FlagsAt, Addr, User, Writable, NoExec;
    forall v: nat | v < USER_PAGES && HwWalk(m, root, v).Mapped?
      ensures Covered(rs, v) && PageOf(rs, v) == Some(HwWalk(m, root, v).addr)
      ensures var f := FlagsAt(rs, v); Permits(HwWalk(m, root, v), Access(f.user, f.writable, f.execute))
    {
      WalkIsLeaf(m, own, id, nodes, v);
      assert HomeEntry(Leaf(m, nodes, v).value, rs, v);
    }
  }

  /** What fork promises of the child. */
  ghost predicate ForkedFrom(m: Mem, own: Owners, idP: nat, rsP: Slots, id: nat, nodes: Nodes, rs: Slots, mapped: bool)
  {
    && AreasOk(own, id, rs) && Cloned(m, rsP, rs)
    && (forall a: nat :: VirtToPhys(rs, a).Some? <==> VirtToPhys(rsP, a).Some?)
    && (forall a: nat {:trigger UserByte(m, rs, a)} :: UserByte(m, rs, a) == UserByte(m, rsP, a))
    && (forall v: nat, w: nat :: PageOf(rsP, v).Some? && PageOf(rs, w).Some? ==>
        FrameApart(PageOf(rsP, v).value, PageOf(rs, w).value))
    && ROOT in nodes && WalksHome(m, nodes[ROOT], rs)
    && (SafeAreas(rsP) ==> WriteXorExecute(m, nodes, rs))
    && (mapped ==> SpaceOk(m, own, id, nodes, rs))
  }

  lemma ForkDone(m: Mem, own: Owners, id: nat, nodes: Nodes, rs: Slots, mapped: bool, idP: nat, nodesP: Nodes,
                 rsP: Slots, o0: Owners, m0: Mem)
    requires Cloning(m, own, id, nodes, rs, mapped, idP, nodesP, rsP, MAX_AREAS, o0, m0)
    ensures ForkedFrom(m, own, idP, rsP, id, nodes, rs, mapped)
  {
    hide Cloning, AreasOk, Cloned, SpaceOk, WriteXorExecute, Disjoint, VirtToPhys, UserByte, TableOk, Additive, PageOf,
      FrameApart, LeadsHome, WalksHome;
    CloningDone(m, own, id, nodes, rs, mapped, idP, nodesP, rsP, MAX_AREAS, o0, m0);
    HomeWalks(m, own, id, nodes, rs);
    forall a: nat
      ensures (VirtToPhys(rs, a).Some? <==> VirtToPhys(rsP, a).Some?) && UserByte(m, rs, a) == UserByte(m, rsP, a)
    {
      ForkEqual(m, rsP, rs, a);
    }
    forall v: nat, w: nat | PageOf(rsP, v).Some? && PageOf(rs, w).Some?
      ensures FrameApart(PageOf(rsP, v).value, PageOf(rs, w).value)
    {
      SpacesApart(own, idP, rsP, id, rs, v, w);
    }
  }

  /** Clone every slot in turn, stopping at the first failure. */
  method CloneSlots(ram: Ram, root: nat, ghost id: nat, ghost nodes: Nodes, ghost idP: nat, ghost nodesP: Nodes,
                    rsP: Slots)
    returns (ok: bool, rs: Slots, ghost nodes': Nodes, ghost mapped: bool, ghost i: nat)
    requires ram.Valid() && ram.own(0) == Kernel && SpaceOk(ram.mem, ram.own, idP, nodesP, rsP) && id != idP
    requires TableOk(ram.mem, ram.own, id, nodes) && root == nodes[ROOT]
    requires forall v: nat :: v < USER_PAGES ==> Leaf(ram.mem, nodes, v) == None
    requires forall x :: Ours(ram.own(x), id) ==> ram.own(x).use.Table?
    modifies ram`mem, ram`heads, ram`freePages, ram`own
    ensures ram.Valid() && ROOT in nodes' && nodes'[ROOT] == root
    ensures Cloning(ram.mem, ram.own, id, nodes', rs, mapped, idP, nodesP, rsP, i, old(ram.own), old(ram.mem))
    ensures NoStray(ram.own, id, rs) && (ok ==> i == MAX_AREAS)
    ensures ok && mapped <==> Total(old(ram.heads)) >= Need(nodes, rsP)
    ensures ok && !mapped ==> Total(ram.heads) == 0
    ensures ram.freePages + DataPages(rs) + |nodes'| == old(ram.freePages) + |nodes|
  {
    hide ListsOk, TagsOk, Total, Cloning, NoStray, SpaceOk, TableOk, Leaf, CloneCost, Need, DataPages;
    ghost var o0, m0, h0 := ram.own, ram.mem, ram.heads;
    rs, nodes', mapped := seq(MAX_AREAS, _ => None), nodes, true;
    CloningStarted(m0, o0, id, nodes, idP, nodesP, rsP, rs);
    NothingPaid(h0, nodes, rs);
    for j := 0 to MAX_AREAS
      invariant ram.Valid() && ROOT in nodes' && nodes'[ROOT] == root
      invariant Cloning(ram.mem, ram.own, id, nodes', rs, mapped, idP, nodesP, rsP, j, o0, m0)
      invariant NoStray(ram.own, id, rs) && (j < MAX_AREAS ==> rs[j].None?)
      invariant CloneCost(h0, nodes, ram.heads, nodes', rs, mapped)
    {
      ok, rs, nodes', mapped := CloneSlot(ram, root, rs, j, id, nodes', mapped, idP, nodesP, rsP, o0, m0, h0, nodes);
      if !ok {
        i := j;
        CostIsPaid(h0, nodes, ram.heads, nodes', rs, mapped);
        return;
      }
    }
    ok, i := true, MAX_AREAS;
    CostIsPaid(h0, nodes, ram.heads, nodes', rs, mapped);
    NeedCloned(ram.mem, ram.own, id, nodes', rs, mapped, idP, nodesP, rsP, o0, m0, nodes);
    AllPaid(h0, nodes, ram.heads, nodes', rs, mapped);
  }

  lemma NothingPaid(h: Lists, nodes: Nodes, rs: Slots)
    requires forall k :: 0 <= k < MAX_AREAS ==> rs[k].None?
    ensures CloneCost(h, nodes, h, nodes, rs, true)
  {
    hide Total;
    forall w: nat
      ensures PageOf(rs, w).None?
    {
    }
    hide PageOf;
    var none: Slots := seq(MAX_AREAS, _ => None);
    assert rs == none;
    NoData(rs, MAX_AREAS);
    assert TablesOf(rs) == {};
  }

  lemma {:induction false} NoData(rs: Slots, n: nat)
    requires n <= MAX_AREAS && forall k :: 0 <= k < MAX_AREAS ==> rs[k].None?
    ensures PagesIn(rs, n) == 0
  {
    if n > 0 { NoData(rs, n - 1); }
  }

  lemma CostIsPaid(h0: Lists, n0: Nodes, h: Lists, nodes: Nodes, rs: Slots, mapped: bool)
    requires CloneCost(h0, n0, h, nodes, rs, mapped)
    ensures Total(h0) + |n0| == Total(h) + |nodes| + DataPages(rs)
  {
    hide Total, Stocked;
  }

  lemma AllPaid(h0: Lists, n0: Nodes, h: Lists, nodes: Nodes, rs: Slots, mapped: bool)
    requires CloneCost(h0, n0, h, nodes, rs, mapped)
    ensures mapped <==> Total(h0) >= Need(n0, rs)
    ensures !mapped ==> Total(h) == 0
  {
    hide Total, TablesOf, Need;
    PaidInFull(h0, n0, h, nodes, rs, mapped);
  }

  /**
    Clone `src` over the empty table `root`, under the unused name `id`. On success the
    child reads what the parent reads, from frames of its own; none of its pages leads
    anywhere else, and none is writable and executable if no area of the parent is. The
    clone is complete, also in its page tables (`mapped`, which the source does not look
    at), exactly when the reachable pages pay for the parent's data and the tables. On
    failure the child is dropped: it holds nothing but inner tables.
   */
  method CloneAs(src: AddressSpace, root: nat, ghost id: nat, ghost nodes: Nodes)
    returns (child: AddressSpace?, ghost mapped: bool)
    requires src.Valid() && id != src.id && root != 0
    requires TableOk(src.ram.mem, src.ram.own, id, nodes) && root == nodes[ROOT]
    requires forall v: nat :: v < USER_PAGES ==> Leaf(src.ram.mem, nodes, v) == None
    requires forall x :: Ours(src.ram.own(x), id) ==> src.ram.own(x).use.Table?
    modifies src.ram`mem, src.ram`heads, src.ram`freePages, src.ram`own, src.ram`lost
    ensures src.Valid()
    ensures Isolated(id, old(src.ram.own), old(src.ram.mem), src.ram.own, src.ram.mem)
    ensures forall a: nat {:trigger UserByte(src.ram.mem, src.regions, a)} ::
              UserByte(src.ram.mem, src.regions, a) == UserByte(old(src.ram.mem), src.regions, a)
    ensures child != null ==>
              && fresh(child) && child.ram == src.ram && child.root == root && child.id == id
              && child.heapStart == src.heapStart && child.heapEnd == src.heapEnd
              && ForkedFrom(src.ram.mem, src.ram.own, src.id, src.regions, id, child.nodes, child.regions, mapped)
              && (mapped ==> child.Valid())
              && child.Tight() && child.Pages() == old(src.ram.freePages) + |nodes|
    ensures child == null ==>
              && Released(src.ram.own, root) && src.ram.freePages <= old(src.ram.freePages) + |nodes|
              && forall x :: Ours(src.ram.own(x), id) ==> src.ram.own(x).use.Table?
    ensures child != null && mapped <==> Total(old(src.ram.heads)) >= Need(nodes, src.regions)
    ensures child != null && !mapped ==> forall o :: 0 <= o < MAX_ORDER ==> src.ram.heads[o].None?
  {
    hide ListsOk, TagsOk, Total, Cloning, NoStray, SpaceOk, TableOk, Leaf, UserByte, Released, FramesReleased, GivenUp,
      Isolated, ForkedFrom, Additive, AreasOk, Disjoint, SafeAreas, WriteXorExecute, Cloned, Need, LeadsHome,
      DataPages;
    ghost var o0, m0 := src.ram.own, src.ram.mem;
    ghost var nodes', i;
    var ok, rs;
    ok, rs, nodes', mapped, i := CloneSlots(src.ram, root, id, nodes, src.id, src.nodes, src.regions);
    ghost var o1, m1 := src.ram.own, src.ram.mem;
    CloningDone(m1, o1, id, nodes', rs, mapped, src.id, src.nodes, src.regions, i, o0, m0);
    forall a: nat
      ensures UserByte(m1, src.regions, a) == UserByte(m0, src.regions, a)
    {
      AdditiveReads(m0, o0, o1, m1, id, src.id, src.nodes, src.regions, a);
    }
    if ok {
      ForkDone(m1, o1, id, nodes', rs, mapped, src.id, src.nodes, src.regions, o0, m0);
      AdditiveIsolated(id, o0, m0, o1, m1);
      NoFragmentation(src.ram.heads, 0);
      child := new AddressSpace.Inherited(src.ram, root, rs, src.heapStart, src.heapEnd, id, nodes');
    } else {
      DropSpace(src.ram, rs, root, id, nodes');
      GivenUpKeeps(id, o0, m0, o1, m1, src.ram.own, src.id, src.nodes, src.regions);
      NothingLeft(o1, src.ram.own, id, rs);
      child := null;
    }
  }
}
