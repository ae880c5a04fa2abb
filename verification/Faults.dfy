/**
  Demand paging, in steps: recording a frame for one page of a lazy area.
 */
module Faults {
  import opened Words
  import opened Buddy
  import opened Paging
  import opened Areas
  import opened Space
  import opened Steps

  /** `s` extended with zeros to at least `n` entries. */
  function Padded(s: seq<nat>, n: nat): (t: seq<nat>)
    ensures |t| >= n && |t| >= |s|
    ensures forall k :: 0 <= k < |t| ==> t[k] == if k < |s| then s[k] else 0
  {
    if |s| < n then s + seq(n - |s|, _ => 0) else s
  }

  /** `s` with frame `p` recorded at index `j`. */
  function Recorded(s: seq<nat>, j: nat, p: nat): seq<nat>
  {
    Padded(s, j + 1)[j := p]
  }

  lemma {:induction false} CountUpdate(s: seq<nat>, j: nat, p: nat)
    requires j < |s|
    ensures CountNonZero(s[j := p]) == CountNonZero(s) + (if p != 0 then 1 else 0) - (if s[j] != 0 then 1 else 0)
  {
    var n := |s| - 1;
    if j == n {
      assert s[j := p][..n] == s[..n];
    } else {
      CountUpdate(s[..n], j, p);
      assert s[j := p][..n] == s[..n][j := p];
    }
  }

  /** Zeros at the end do not count. */
  lemma {:induction false} CountZeros(s: seq<nat>, t: seq<nat>)
    requires s <= t && forall k :: |s| <= k < |t| ==> t[k] == 0
    ensures CountNonZero(t) == CountNonZero(s)
    decreases |t|
  {
    if |s| < |t| {
      CountZeros(s, t[..|t| - 1]);
    } else {
      assert t == s;
    }
  }

  lemma CountRecorded(s: seq<nat>, j: nat, p: nat)
    requires p != 0 && (j < |s| ==> s[j] == 0)
    ensures CountNonZero(Recorded(s, j, p)) == CountNonZero(s) + 1
  {
    var t := Padded(s, j + 1);
    hide CountNonZero;
    CountZeros(s, t);
    CountUpdate(t, j, p);
  }

  /** Area `r` after its page `v` was faulted in at frame `p`. */
  function FaultedIn(r: Area, v: nat, p: nat): Area
    requires Covers(r, v)
  {
    r.(lazyPages := Recorded(r.lazyPages, v - r.first, p), lazyCount := r.lazyCount + 1)
  }

  /** Area `r` is lazy and page `v` of it has no frame yet. */
  predicate Demandable(r: Area, v: nat)
  {
    Covers(r, v) && r.lazy && Backing(r, v) == None
  }

  lemma FaultedInOk(own: Owners, id: nat, i: nat, r: Area, v: nat, p: nat)
    requires AreaOk(r) && AreaHeld(own, id, i, r) && Demandable(r, v) && p != 0 && FrameHeld(own, id, p, v)
    ensures AreaOk(FaultedIn(r, v, p)) && AreaHeld(own, id, i, FaultedIn(r, v, p))
  {
    CountRecorded(r.lazyPages, v - r.first, p);
    hide FrameHeld, CountNonZero;
  }

  lemma FaultedInBacking(r: Area, v: nat, p: nat, w: nat)
    requires Demandable(r, v) && Covers(r, w) && p != 0
    ensures Backing(FaultedIn(r, v, p), w) == if w == v then Some(p) else Backing(r, w)
  {
  }

  lemma AreaReplaced(own: Owners, id: nat, rs: Slots, i: nat, r: Area)
    requires AreasOk(own, id, rs) && i < MAX_AREAS && rs[i].Some?
    requires AreaOk(r) && AreaHeld(own, id, i, r) && rs[i].value.first <= r.first && r.past <= rs[i].value.past
    ensures AreasOk(own, id, rs[i := Some(r)])
  {
    DisjointShrunk(rs, i, Some(r));
    hide AreaOk, AreaHeld;
  }

  lemma FaultPageOf(rs: Slots, i: nat, v: nat, p: nat, w: nat)
    requires Disjoint(rs) && i < MAX_AREAS && rs[i].Some? && Demandable(rs[i].value, v) && p != 0
    ensures PageOf(rs[i := Some(FaultedIn(rs[i].value, v, p))], w) == if w == v then Some(p) else PageOf(rs, w)
  {
    var r := rs[i].value;
    var r' := FaultedIn(r, v, p);
    DisjointShrunk(rs, i, Some(r'));
    SlotReplaced(rs, i, Some(r'), w);
    if Covers(r, w) {
      FaultedInBacking(r, v, p, w);
      FindUnique(rs, i, w);
    }
    hide Disjoint, FindFrom, Recorded, FaultedIn;
  }

  /** Only page `v` gained a leaf, and it points to frame `p`. */
  lemma FaultAgrees(m: Mem, nodes: Nodes, rs: Slots, m': Mem, nodes': Nodes, i: nat, v: nat, p: nat, f: PtFlags)
    requires Disjoint(rs) && AgreeOutside(m, nodes, rs, 0, 0)
    requires SameLeavesBut(m, nodes, m', nodes', v) && Leaf(m', nodes', v) == Some(LeafEntry(p, f))
    requires i < MAX_AREAS && rs[i].Some? && Demandable(rs[i].value, v) && p != 0 && p % 4096 == 0 && p < PHYS_LIMIT
    ensures AgreeOutside(m', nodes', rs[i := Some(FaultedIn(rs[i].value, v, p))], 0, 0)
  {
    LeafEntryFields(p, f);
    hide Leaf, LeafEntry, PageOf, Addr, Disjoint, Demandable, FaultedIn, FindFrom;
    var rs' := rs[i := Some(FaultedIn(rs[i].value, v, p))];
    forall w: nat | w < USER_PAGES
      ensures FrameOf(Leaf(m', nodes', w)) == PageOf(rs', w)
    {
      FaultPageOf(rs, i, v, p, w);
      assert w != v ==> Leaf(m', nodes', w) == Leaf(m, nodes, w);
    }
  }

  lemma FaultCommit(id: nat, own: Owners, m: Mem, nodes: Nodes, rs: Slots, own': Owners, m': Mem, nodes': Nodes,
                    i: nat, v: nat, p: nat)
    requires SpaceOk(m, own, id, nodes, rs) && TableStep(id, own, m, nodes, own', m', nodes')
    requires i < MAX_AREAS && rs[i].Some? && Demandable(rs[i].value, v) && p != 0 && FrameHeld(own, id, p, v)
    requires SameLeavesBut(m, nodes, m', nodes', v)
    requires Leaf(m', nodes', v) == Some(LeafEntry(p, Translate(rs[i].value.flags)))
    ensures SpaceOk(m', own', id, nodes', rs[i := Some(FaultedIn(rs[i].value, v, p))])
  {
    var r := rs[i].value;
    AreasStep(id, own, m, nodes, own', m', nodes', rs);
    assert FrameHeld(own', id, p, v) by { hide SpaceOk, TableOk; }
    FaultAgrees(m, nodes, rs, m', nodes', i, v, p, Translate(r.flags));
    hide Leaf, LeafEntry, FrameHeld, Demandable, AgreeOutside, TableOk, Confined, Disjoint;
    FaultedInOk(own', id, i, r, v, p);
    hide AreaOk, AreaHeld, FaultedIn;
    AreaReplacedSame(own', id, rs, i, v, p);
  }

  lemma AreaReplacedSame(own: Owners, id: nat, rs: Slots, i: nat, v: nat, p: nat)
    requires AreasOk(own, id, rs) && i < MAX_AREAS && rs[i].Some? && Covers(rs[i].value, v)
    requires AreaOk(FaultedIn(rs[i].value, v, p)) && AreaHeld(own, id, i, FaultedIn(rs[i].value, v, p))
    ensures AreasOk(own, id, rs[i := Some(FaultedIn(rs[i].value, v, p))])
  {
    hide AreaOk, AreaHeld, Recorded;
    AreaReplaced(own, id, rs, i, FaultedIn(rs[i].value, v, p));
  }

  lemma GrantedFrame(id: nat, own: Owners, own': Owners, v: nat, p: nat)
    requires own(0) == Kernel && Aligned(p, 0) && p + Size(0) <= PHYS_LIMIT
    requires Granted(own, own', p, 0, Held(id, Page(v)))
    ensures p != 0 && own'(0) == Kernel && FrameHeld(own', id, p, v) && p % 4096 == 0 && p < PHYS_LIMIT
    ensures forall x :: p <= x < p + 4096 ==> own(x).Free?
    ensures Size(0) == 4096
  {
    AlignedPage(p, 0);
    assert Size(0) == 4096;
    assert forall x :: Inside(x, p, 0) <==> p <= x < p + 4096;
    hide Inside, Aligned, Size;
  }

  /** After allocating and clearing one frame for page `v`. */
  lemma FrameStep(id: nat, own: Owners, m: Mem, own': Owners, nodes: Nodes, rs: Slots, v: nat, p: nat)
    requires SpaceOk(m, own, id, nodes, rs) && own(0) == Kernel && Aligned(p, 0) && p + Size(0) <= PHYS_LIMIT
    requires Granted(own, own', p, 0, Held(id, Page(v)))
    ensures var m' := Clear(m, p, 4096);
            && SpaceOk(m', own', id, nodes, rs)
            && Additive(id, own, m, own', m')
            && SameLeavesBut(m, nodes, m', nodes, -1)
            && ROOT in nodes && UpperHalfSame(nodes[ROOT], m, m')
    ensures p != 0 && own'(0) == Kernel && FrameHeld(own', id, p, v) && p % 4096 == 0 && p < PHYS_LIMIT
    ensures forall x :: p <= x < p + 4096 ==> own(x).Free?
  {
    GrantedFrame(id, own, own', v, p);
    hide Size, Aligned, SpaceOk, FrameHeld;
    GrantUndisturbed(id, own, m, own', p, 0, Held(id, Page(v)), 4096);
    GrantAdditive(id, own, m, own', p, 0, Page(v), 4096);
    hide Granted, Additive;
    SpaceUndisturbed(id, own, m, own', Clear(m, p, 4096), nodes, rs);
  }

  /** What a handled fault promises. */
  ghost predicate FaultHandled(m: Mem, nodes: Nodes, rs: Slots, m': Mem, nodes': Nodes, rs': Slots, v: nat)
  {
    var i := FindFrom(rs, v, 0);
    && i < MAX_AREAS && Demandable(rs[i].value, v)
    && PageOf(rs', v).Some?
    && var p := PageOf(rs', v).value;
       && rs' == rs[i := Some(FaultedIn(rs[i].value, v, p))]
       && SameLeavesBut(m, nodes, m', nodes', v)
       && Leaf(m', nodes', v) == Some(LeafEntry(p, Translate(rs[i].value.flags)))
       && (forall x :: p <= x < p + 4096 ==> m'(x) == 0)
  }

  lemma FaultDone(id: nat, o0: Owners, m0: Mem, o1: Owners, m1: Mem, nodes: Nodes, rs: Slots, o2: Owners, m2: Mem,
                  n2: Nodes, i: nat, v: nat, p: nat)
    requires SpaceOk(m1, o1, id, nodes, rs) && TableStep(id, o1, m1, nodes, o2, m2, n2)
    requires Additive(id, o0, m0, o1, m1) && SameLeavesBut(m0, nodes, m1, nodes, -1) && m1 == Clear(m0, p, 4096)
    requires i == FindFrom(rs, v, 0) < MAX_AREAS && Demandable(rs[i].value, v) && p != 0 && FrameHeld(o1, id, p, v)
    requires SameLeavesBut(m1, nodes, m2, n2, v)
    requires Leaf(m2, n2, v) == Some(LeafEntry(p, Translate(rs[i].value.flags)))
    ensures var rs' := rs[i := Some(FaultedIn(rs[i].value, v, p))];
            && SpaceOk(m2, o2, id, n2, rs')
            && FaultHandled(m0, nodes, rs, m2, n2, rs', v)
    ensures Additive(id, o0, m0, o2, m2)
  {
    FaultCommit(id, o1, m1, nodes, rs, o2, m2, n2, i, v, p);
    SpaceAreas(m1, o1, id, nodes, rs);
    FaultPageOf(rs, i, v, p, v);
    TableStepAdditive(id, o1, m1, nodes, o2, m2, n2);
    AdditiveTrans(id, o0, m0, o1, m1, o2, m2);
    assert forall x :: p <= x < p + 4096 ==> m2(x) == 0 by { hide SpaceOk, TableOk, Additive, Leaf; }
    hide SpaceOk, TableStep, Additive, Leaf, LeafEntry, FaultedIn, Demandable, PageOf, FrameHeld;
  }

  lemma SpaceAreas(m: Mem, own: Owners, id: nat, nodes: Nodes, rs: Slots)
    requires SpaceOk(m, own, id, nodes, rs)
    ensures Disjoint(rs)
    ensures forall i :: 0 <= i < MAX_AREAS && rs[i].Some? ==> AreaOk(rs[i].value) && AreaHeld(own, id, i, rs[i].value)
  {
    hide AreaOk, AreaHeld, Disjoint, TableOk, AgreeOutside;
  }

  /** The tag of a page that has no frame is not relied on. */
  lemma PageSpare(id: nat, rs: Slots, v: nat)
    requires Disjoint(rs) && PageOf(rs, v) == None
    requires forall i :: 0 <= i < MAX_AREAS && rs[i].Some? ==> AreaOk(rs[i].value)
    ensures Spare(id, rs, Held(id, Page(v)))
  {
    forall i | 0 <= i < MAX_AREAS && rs[i].Some?
      ensures AreaSpares(id, i, rs[i].value, Held(id, Page(v)))
    {
      if Covers(rs[i].value, v) { FindUnique(rs, i, v); }
    }
  }

  lemma FaultUndone(id: nat, o0: Owners, m0: Mem, o1: Owners, m1: Mem, nodes: Nodes, rs: Slots, o2: Owners, m2: Mem,
                    n2: Nodes, o3: Owners, v: nat, p: nat, d: Option<nat>, top: nat)
    requires SpaceOk(m1, o1, id, nodes, rs) && TableStep(id, o1, m1, nodes, o2, m2, n2)
    requires Additive(id, o0, m0, o1, m1) && SameLeavesBut(m0, nodes, m1, nodes, -1)
    requires SameLeavesBut(m1, nodes, m2, n2, -1)
    requires PageOf(rs, v) == None && FrameHeld(o1, id, p, v) && Returned(o2, o3, p, 0, d, top)
    requires forall x :: p <= x < p + 4096 ==> o0(x).Free?
    ensures SpaceOk(m2, o3, id, n2, rs) && Additive(id, o0, m0, o3, m2)
    ensures SameLeavesBut(m0, nodes, m2, n2, -1)
    ensures forall x :: o0(x) == Kernel ==> o3(x) == Kernel
  {
    assert Size(0) == 4096;
    assert forall x :: Inside(x, p, 0) <==> p <= x < p + 4096;
    hide Inside, Size;
    QuietSpace(id, o1, m1, nodes, o2, m2, n2, rs);
    TableStepAdditive(id, o1, m1, nodes, o2, m2, n2);
    AdditiveTrans(id, o0, m0, o1, m1, o2, m2);
    ReturnAdditive(id, o0, m0, o2, m2, o3, p, 0, d, top);
    var t := Held(id, Page(v));
    assert forall x :: Inside(x, p, 0) ==> o2(x) == t by { hide TableOk, SpaceOk, Returned; }
    ReturnKeeps(o2, o3, p, 0, d, top, t);
    hide Returned, FrameHeld, TableStep, Leaf, PageOf, Spare;
    SpaceAreas(m2, o2, id, n2, rs);
    PageSpare(id, rs, v);
    hide AreaOk, AreaHeld, Disjoint, SpaceOk;
    SpaceWithout(id, o2, m2, o3, n2, rs, t);
  }

  lemma FrameReleasable(id: nat, o1: Owners, m1: Mem, nodes: Nodes, o2: Owners, m2: Mem, n2: Nodes, p: nat, v: nat)
    requires FrameHeld(o1, id, p, v) && TableStep(id, o1, m1, nodes, o2, m2, n2)
    ensures Aligned(p, 0) && p + Size(0) <= PHYS_LIMIT
    ensures forall x :: Inside(x, p, 0) ==> !o2(x).Free?
  {
    FrameIsBlock(o1, id, p, v);
    hide TableOk, Inside, Size, Aligned;
  }

  lemma FrameIsBlock(own: Owners, id: nat, p: nat, v: nat)
    requires FrameHeld(own, id, p, v)
    ensures Aligned(p, 0) && p + Size(0) <= PHYS_LIMIT
    ensures forall x :: Inside(x, p, 0) ==> own(x) == Held(id, Page(v))
  {
    assert Size(0) == 4096;
    PageGap(p, PHYS_LIMIT);
  }

  lemma PageInRange(m: Mem, own: Owners, id: nat, nodes: Nodes, rs: Slots, i: nat, v: nat)
    requires SpaceOk(m, own, id, nodes, rs) && i < MAX_AREAS && rs[i].Some? && Covers(rs[i].value, v)
    ensures v < USER_PAGES && rs[i].value.flags.present
  {
    SpaceAreas(m, own, id, nodes, rs);
    hide SpaceOk, AreaHeld, Disjoint;
  }
}
