/**
  Unmapping and trimming areas, in steps.
 */
module Unmaps {
  import opened Words
  import opened Buddy
  import opened Paging
  import opened Areas
  import opened Space
  import opened Steps
  import opened Faults

  // -------------------------------------------------------- sequences of frames

  /** `s` with the entries [a, b) set to zero. */
  function Zeroed(s: seq<nat>, a: nat, b: nat): (t: seq<nat>)
    ensures |t| == |s|
    ensures forall k :: 0 <= k < |s| ==> t[k] == if a <= k < b then 0 else s[k]
  {
    seq(|s|, k requires 0 <= k < |s| => if a <= k < b then 0 else s[k])
  }

  lemma ZeroedStep(s: seq<nat>, a: nat, b: nat)
    requires a <= b < |s|
    ensures Zeroed(s, a, b + 1) == Zeroed(s, a, b)[b := 0]
  {
  }

  lemma {:induction false} CountConcat(s: seq<nat>, t: seq<nat>)
    ensures CountNonZero(s + t) == CountNonZero(s) + CountNonZero(t)
  {
    if t == [] {
      assert s + t == s;
    } else {
      var n := |t| - 1;
      CountConcat(s, t[..n]);
      assert (s + t)[..|s + t| - 1] == s + t[..n];
    }
  }

  lemma {:induction false} CountAllZero(s: seq<nat>)
    requires forall k :: 0 <= k < |s| ==> s[k] == 0
    ensures CountNonZero(s) == 0
  {
    if s != [] { CountAllZero(s[..|s| - 1]); }
  }

  /** Dropping zero entries from the front does not change the count. */
  lemma CountDrained(s: seq<nat>, n: nat)
    requires n <= |s| && forall k :: 0 <= k < n ==> s[k] == 0
    ensures CountNonZero(s[n..]) == CountNonZero(s)
  {
    CountAllZero(s[..n]);
    CountConcat(s[..n], s[n..]);
    assert s[..n] + s[n..] == s;
  }

  // ------------------------------------------------------------- trimmed areas

  /** The entries of the removed prefix are drained. */
  function Drained(s: seq<nat>, n: nat): seq<nat>
  {
    if n < |s| then s[n..] else []
  }

  /** Area `r` with its lazy entries for the pages [lo, hi) cleared. */
  function WithoutFrames(r: Area, lo: nat, hi: nat): Area
    requires r.first <= lo
  {
    if r.lazy && lo <= hi then
      var s := Zeroed(r.lazyPages, lo - r.first, hi - r.first);
      r.(lazyPages := s, lazyCount := CountNonZero(s))
    else r
  }

  /** What is left of area `r` when its pages [lo, hi) are removed. */
  function Reshaped(r: Area, lo: nat, hi: nat): Option<Area>
    requires r.first <= lo <= hi <= r.past
  {
    if lo == r.first && hi == r.past then None
    else if lo == r.first then
      Some(r.(first := hi,
              lazyPages := if r.lazy then Drained(r.lazyPages, hi - r.first) else r.lazyPages,
              phys := if r.lazy then r.phys else r.phys + 4096 * (hi - r.first)))
    else Some(r.(past := lo))
  }

  function Max(a: nat, b: nat): nat { if a < b then b else a }

  function Min(a: nat, b: nat): nat { if a < b then a else b }

  predicate Overlaps(r: Area, v: nat, end: nat)
  {
    r.first < end && v < r.past
  }

  /** Slot contents after unmapping the pages [v, end). */
  function TrimSlot(ro: Option<Area>, v: nat, end: nat): Option<Area>
    requires v < end && (ro.Some? ==> ro.value.first <= ro.value.past)
  {
    if ro.Some? && Overlaps(ro.value, v, end) then
      var r := ro.value;
      var lo, hi := Max(v, r.first), Min(end, r.past);
      Reshaped(WithoutFrames(r, lo, hi), lo, hi)
    else ro
  }

  /**
    The unmap does not fall strictly inside the area, and an eager area is cut at
    the front only where the remainder is again aligned to its own order.
   */
  predicate Trimmable(r: Area, v: nat, end: nat)
  {
    Overlaps(r, v, end) ==>
      && (v <= r.first || r.past <= end)
      && (!r.lazy && v <= r.first && end < r.past ==> (end - r.first) % Pow2(Order(r.past - end)) == 0)
  }

  // ------------------------------------------------------------- alignment of cuts

  lemma AlignedDown(a: nat, o: nat, o': nat)
    requires Aligned(a, o) && o' <= o
    ensures Aligned(a, o') && Size(o') <= Size(o)
    decreases o
  {
    if o' < o {
      AlignedHalves(a, o - 1);
      SizeDoubles(o - 1);
      hide Size;
      AlignedDown(a, o - 1, o');
    }
  }

  lemma OrderMono(a: nat, b: nat)
    requires a <= b
    ensures Order(a) <= Order(b)
  {
    OrderIsLeast(b);
    OrderAtMost(a, Order(b));
  }

  /** Shortening a block at the back leaves a block of the order that will be freed. */
  lemma BackCut(own: Owners, id: nat, i: nat, phys: nat, n: nat, n': nat)
    requires BlockHeld(own, id, i, phys, Order(n)) && n' <= n
    ensures BlockHeld(own, id, i, phys, Order(n'))
  {
    OrderMono(n', n);
    AlignedDown(phys, Order(n), Order(n'));
    hide Order, Size, Aligned;
  }

  lemma MultiplesApart(a: nat, b: nat, d: nat)
    requires d > 0 && a % d == 0 && b % d == 0 && a < b
    ensures a + d <= b
  {
    var q, p := a / d, b / d;
    assert a == q * d && b == p * d;
    if p <= q {
      MulMono(p, q, d);
      assert false;
    }
    MulMono(q + 1, p, d);
    assert (q + 1) * d == q * d + d;
  }

  lemma MulMono(a: int, b: int, d: nat)
    requires a <= b
    ensures a * d <= b * d
  {
  }

  lemma Pow2Divides(o: nat, o': nat)
    requires o' <= o
    ensures Pow2(o) % Pow2(o') == 0
  {
    Pow2Add(o - o', o');
    hide Pow2;
    MultipleMod(Pow2(o - o'), Pow2(o'));
  }

  /** Moving an aligned address by `k` pages keeps it aligned exactly when the size divides the move. */
  lemma AlignedShift(a: nat, k: nat, o: nat)
    requires Aligned(a, o)
    ensures Aligned(a + 4096 * k, o) <==> k % Pow2(o) == 0
  {
    var p := Pow2(o);
    hide Pow2;
    var q, r, t := a / (4096 * p), k / p, k % p;
    assert a == q * (4096 * p);
    assert k == r * p + t;
    ShiftRemainder(a, k, p, q, r, t);
  }

  lemma ShiftRemainder(a: nat, k: nat, p: nat, q: nat, r: nat, t: nat)
    requires p > 0 && t < p && a == q * (4096 * p) && k == r * p + t
    ensures (a + 4096 * k) % (4096 * p) == 4096 * t
  {
    SumOfMultiples(q, r, p);
    RemainderUnique(a + 4096 * k, 4096 * p, q + r, 4096 * t);
  }

  lemma SumOfMultiples(q: nat, r: nat, p: nat)
    ensures q * (4096 * p) + 4096 * (r * p) == (q + r) * (4096 * p)
  {
    assert 4096 * (r * p) == r * (4096 * p);
  }

  /**
    Cutting `k` pages off the front leaves an aligned block of the order that will be
    freed exactly when that order's size divides the cut.
   */
  lemma FrontCut(own: Owners, id: nat, i: nat, phys: nat, n: nat, k: nat)
    requires BlockHeld(own, id, i, phys, Order(n)) && k < n && k % Pow2(Order(n - k)) == 0
    ensures BlockHeld(own, id, i, phys + 4096 * k, Order(n - k))
  {
    var o, o' := Order(n), Order(n - k);
    OrderMono(n - k, n);
    OrderIsLeast(n);
    AlignedDown(phys, o, o');
    AlignedShift(phys, k, o');
    Pow2Divides(o, o');
    MultiplesApart(k, Pow2(o), Pow2(o'));
    hide Order, Aligned, Pow2;
  }

  /** The exact condition: otherwise the block later freed is not aligned to its size. */
  lemma FrontCutExact(phys: nat, n: nat, k: nat)
    requires Aligned(phys, Order(n)) && 0 < k < n
    ensures Aligned(phys + 4096 * k, Order(n - k)) <==> k % Pow2(Order(n - k)) == 0
  {
    var o' := Order(n - k);
    OrderMono(n - k, n);
    AlignedDown(phys, Order(n), o');
    AlignedShift(phys, k, o');
  }

  /** A cut the code makes wrongly: one page off an eight-page block frees past its end. */
  lemma FrontCutOverruns()
    ensures Order(8) == 3 && Order(7) == 3 && 1 + Pow2(Order(8 - 1)) > Pow2(Order(8))
  {
    assert OrderFrom(8, 3) == 3 && OrderFrom(8, 2) == 3;
    assert OrderFrom(7, 3) == 3 && OrderFrom(7, 2) == 3;
    assert Pow2(3) == 8;
  }

  // ------------------------------------------------------------ what may change

  /** Tags are only given up, memory outside the tables of space `id` is not written. */
  ghost predicate Subtractive(id: nat, own: Owners, m: Mem, own': Owners, m': Mem)
  {
    && (forall x :: own'(x) == own(x) || own'(x).Free? || own'(x) == Lost)
    && (forall x :: own'(x) != own(x) ==> own(x).Free? || Ours(own(x), id))
    && (forall x :: m'(x) != m(x) ==> IsTable(own(x), id))
  }

  lemma SubtractiveIsolated(id: nat, own: Owners, m: Mem, own': Owners, m': Mem)
    requires Subtractive(id, own, m, own', m')
    ensures Isolated(id, own, m, own', m') && DataKept(id, own, m, own', m')
  {
  }

  lemma SubtractiveTrans(id: nat, o0: Owners, m0: Mem, o1: Owners, m1: Mem, o2: Owners, m2: Mem)
    requires Subtractive(id, o0, m0, o1, m1) && Subtractive(id, o1, m1, o2, m2)
    ensures Subtractive(id, o0, m0, o2, m2)
  {
    assert forall x :: m2(x) != m0(x) ==> m1(x) != m0(x) || m2(x) != m1(x);
  }

  lemma TableStepSubtractive(id: nat, own: Owners, m: Mem, nodes: Nodes, m': Mem)
    requires TableStep(id, own, m, nodes, own, m', nodes)
    ensures Subtractive(id, own, m, own, m')
  {
    hide TableOk;
  }

  lemma ReturnSubtractive(id: nat, own: Owners, m: Mem, own': Owners, a: nat, o: nat, d: Option<nat>, top: nat)
    requires Returned(own, own', a, o, d, top) && forall x :: Inside(x, a, o) ==> Ours(own(x), id)
    ensures Subtractive(id, own, m, own', m)
  {
    hide Inside;
  }

  /** Pages outside [v, end) translate as before. */
  ghost predicate SameOutside(m: Mem, nodes: Nodes, m': Mem, v: int, end: int)
  {
    forall w: nat {:trigger Leaf(m', nodes, w)} :: w < USER_PAGES && !(v <= w < end) ==>
      Leaf(m', nodes, w) == Leaf(m, nodes, w)
  }

  /** Everything an unmapping step promises about memory and translations. */
  ghost predicate UnmapStep(id: nat, own: Owners, m: Mem, own': Owners, m': Mem, nodes: Nodes, v: int, end: int)
  {
    && Subtractive(id, own, m, own', m')
    && SameOutside(m, nodes, m', v, end)
    && ROOT in nodes && UpperHalfSame(nodes[ROOT], m, m')
  }

  lemma UnmapStepTrans(id: nat, o0: Owners, m0: Mem, o1: Owners, m1: Mem, o2: Owners, m2: Mem, nodes: Nodes, v: int,
                       end: int, v': int, end': int)
    requires UnmapStep(id, o0, m0, o1, m1, nodes, v, end) && UnmapStep(id, o1, m1, o2, m2, nodes, v', end')
    requires v <= v' && end' <= end
    ensures UnmapStep(id, o0, m0, o2, m2, nodes, v, end)
  {
    SubtractiveTrans(id, o0, m0, o1, m1, o2, m2);
    hide Subtractive, Leaf;
  }

  lemma UnmapStepRefl(id: nat, own: Owners, m: Mem, nodes: Nodes, v: int, end: int)
    requires ROOT in nodes
    ensures UnmapStep(id, own, m, own, m, nodes, v, end)
  {
    hide Leaf;
  }

  // --------------------------------------------------------- one lazy page less

  /** Area `r` after its page `v`, faulted in before, was dropped. */
  function Dropped(r: Area, v: nat): Area
    requires Covers(r, v) && v - r.first < |r.lazyPages| && r.lazyCount > 0
  {
    r.(lazyPages := r.lazyPages[v - r.first := 0], lazyCount := r.lazyCount - 1)
  }

  predicate Droppable(r: Area, v: nat)
  {
    Covers(r, v) && r.lazy && v - r.first < |r.lazyPages| && r.lazyPages[v - r.first] != 0
  }

  lemma {:induction false} CountPositive(s: seq<nat>, j: nat)
    requires j < |s| && s[j] != 0
    ensures CountNonZero(s) > 0
  {
    if j < |s| - 1 { CountPositive(s[..|s| - 1], j); }
  }

  lemma DroppedOk(own: Owners, id: nat, i: nat, r: Area, v: nat)
    requires AreaOk(r) && AreaHeld(own, id, i, r) && Droppable(r, v)
    ensures r.lazyCount > 0 && AreaOk(Dropped(r, v)) && AreaHeld(own, id, i, Dropped(r, v))
    ensures FrameHeld(own, id, r.lazyPages[v - r.first], v)
  {
    var j := v - r.first;
    CountPositive(r.lazyPages, j);
    CountUpdate(r.lazyPages, j, 0);
    hide FrameHeld, CountNonZero;
    assert FrameHeld(own, id, r.lazyPages[j], r.first + j);
  }

  lemma DroppedPageOf(rs: Slots, i: nat, v: nat, w: nat)
    requires Disjoint(rs) && i < MAX_AREAS && rs[i].Some? && Droppable(rs[i].value, v) && rs[i].value.lazyCount > 0
    ensures PageOf(rs[i := Some(Dropped(rs[i].value, v))], w) == if w == v then None else PageOf(rs, w)
  {
    var r := rs[i].value;
    DisjointShrunk(rs, i, Some(Dropped(r, v)));
    SlotReplaced(rs, i, Some(Dropped(r, v)), w);
    if Covers(r, w) { FindUnique(rs, i, w); }
    hide Disjoint, FindFrom;
  }

  lemma DropAgrees(m: Mem, nodes: Nodes, rs: Slots, m': Mem, i: nat, v: nat)
    requires Disjoint(rs) && AgreeOutside(m, nodes, rs, 0, 0)
    requires SameLeavesBut(m, nodes, m', nodes, v) && Leaf(m', nodes, v) == None
    requires i < MAX_AREAS && rs[i].Some? && Droppable(rs[i].value, v) && rs[i].value.lazyCount > 0
    ensures AgreeOutside(m', nodes, rs[i := Some(Dropped(rs[i].value, v))], 0, 0)
  {
    var rs' := rs[i := Some(Dropped(rs[i].value, v))];
    hide Leaf, PageOf, Disjoint, Droppable, Dropped, FindFrom;
    forall w: nat | w < USER_PAGES
      ensures FrameOf(Leaf(m', nodes, w)) == PageOf(rs', w)
    {
      DroppedPageOf(rs, i, v, w);
      assert w != v ==> Leaf(m', nodes, w) == Leaf(m, nodes, w);
    }
  }

  lemma DropCommit(id: nat, own: Owners, m: Mem, nodes: Nodes, rs: Slots, m': Mem, i: nat, v: nat)
    requires SpaceOk(m, own, id, nodes, rs) && TableStep(id, own, m, nodes, own, m', nodes)
    requires SameLeavesBut(m, nodes, m', nodes, v) && Leaf(m', nodes, v) == None
    requires i < MAX_AREAS && rs[i].Some? && Droppable(rs[i].value, v)
    ensures rs[i].value.lazyCount > 0 && SpaceOk(m', own, id, nodes, rs[i := Some(Dropped(rs[i].value, v))])
    ensures FrameHeld(own, id, rs[i].value.lazyPages[v - rs[i].value.first], v)
    ensures Spare(id, rs[i := Some(Dropped(rs[i].value, v))], Held(id, Page(v)))
  {
    SpaceAreas(m, own, id, nodes, rs);
    DroppedOk(own, id, i, rs[i].value, v);
    DropAgrees(m, nodes, rs, m', i, v);
    var rs' := rs[i := Some(Dropped(rs[i].value, v))];
    assert AreasOk(own, id, rs') by {
      hide AreaOk, AreaHeld, AgreeOutside, TableOk, Leaf;
      AreaReplaced(own, id, rs, i, Dropped(rs[i].value, v));
    }
    DroppedPageOf(rs, i, v, v);
    assert Spare(id, rs', Held(id, Page(v))) by {
      hide AreaHeld, AgreeOutside, TableOk, Leaf, PageOf, Spare, AreaOk, Dropped, Droppable;
      PageSpare(id, rs', v);
    }
    hide AreasOk, AgreeOutside, AreaOk, AreaHeld, Confined, Leaf, Spare, Linked, Placed;
  }

  lemma DropDone(id: nat, own: Owners, m: Mem, nodes: Nodes, rs: Slots, own': Owners, m': Mem, v: nat, p: nat,
                 d: Option<nat>, top: nat)
    requires SpaceOk(m', own, id, nodes, rs) && Spare(id, rs, Held(id, Page(v)))
    requires TableStep(id, own, m, nodes, own, m', nodes) && SameLeavesBut(m, nodes, m', nodes, v)
    requires FrameHeld(own, id, p, v) && Returned(own, own', p, 0, d, top) && own(0) == Kernel
    ensures SpaceOk(m', own', id, nodes, rs) && UnmapStep(id, own, m, own', m', nodes, v, v + 1)
    ensures own'(0) == Kernel
  {
    var t := Held(id, Page(v));
    FrameIsBlock(own, id, p, v);
    ReturnKeeps(own, own', p, 0, d, top, t);
    TableStepSubtractive(id, own, m, nodes, m');
    ReturnSubtractive(id, own, m', own', p, 0, d, top);
    SubtractiveTrans(id, own, m, own, m', own', m');
    hide Returned, Inside, FrameHeld, Subtractive, TableOk, Confined, Leaf, Spare;
    SpaceWithout(id, own, m', own', nodes, rs, t);
  }

  // ------------------------------------------------------------ reshaping areas

  /** All lazy entries of the pages [lo, hi) are zero. */
  ghost predicate Unbacked(r: Area, lo: nat, hi: nat)
  {
    r.lazy && forall j :: 0 <= j < |r.lazyPages| && lo <= r.first + j < hi ==> r.lazyPages[j] == 0
  }

  lemma LazyReshapedOk(own: Owners, id: nat, i: nat, r: Area, lo: nat, hi: nat)
    requires AreaOk(r) && AreaHeld(own, id, i, r) && Unbacked(r, lo, hi)
    requires r.first <= lo <= hi <= r.past && (lo == r.first || hi == r.past)
    ensures Reshaped(r, lo, hi).Some? ==>
              AreaOk(Reshaped(r, lo, hi).value) && AreaHeld(own, id, i, Reshaped(r, lo, hi).value)
  {
    hide FrameHeld, CountNonZero, BlockHeld, Order;
    if lo == r.first && hi < r.past {
      var n := hi - r.first;
      if n < |r.lazyPages| {
        CountDrained(r.lazyPages, n);
      } else {
        CountAllZero(r.lazyPages);
        CountAllZero([]);
      }
      DrainedHeld(own, id, r, n);
    }
  }

  lemma DrainedHeld(own: Owners, id: nat, r: Area, n: nat)
    requires r.lazy && AreaHeld(own, id, 0, r)
    ensures forall j :: 0 <= j < |Drained(r.lazyPages, n)| && Drained(r.lazyPages, n)[j] != 0 ==>
              FrameHeld(own, id, Drained(r.lazyPages, n)[j], r.first + n + j)
  {
    hide FrameHeld;
    forall j | 0 <= j < |Drained(r.lazyPages, n)| && Drained(r.lazyPages, n)[j] != 0
      ensures FrameHeld(own, id, Drained(r.lazyPages, n)[j], r.first + n + j)
    {
      assert FrameHeld(own, id, r.lazyPages[n + j], r.first + (n + j));
    }
  }

  lemma LazyReshapedBacking(r: Area, lo: nat, hi: nat, w: nat)
    requires Unbacked(r, lo, hi) && r.first <= lo <= hi <= r.past && (lo == r.first || hi == r.past) && Covers(r, w)
    ensures var q := Reshaped(r, lo, hi);
            Backing(r, w) == if q.Some? && Covers(q.value, w) then Backing(q.value, w) else None
  {
  }

  lemma ReshapedPageOf(rs: Slots, i: nat, lo: nat, hi: nat, w: nat)
    requires Disjoint(rs) && i < MAX_AREAS && rs[i].Some?
    requires var r := rs[i].value; r.first <= lo <= hi <= r.past && (lo == r.first || hi == r.past)
    ensures Disjoint(rs[i := Reshaped(rs[i].value, lo, hi)])
    ensures rs[i].value.lazy && Unbacked(rs[i].value, lo, hi) ==>
              PageOf(rs[i := Reshaped(rs[i].value, lo, hi)], w) == PageOf(rs, w)
    ensures !rs[i].value.lazy ==>
              PageOf(rs[i := Reshaped(rs[i].value, lo, hi)], w) == if lo <= w < hi then None else PageOf(rs, w)
  {
    var r := rs[i].value;
    var q := Reshaped(r, lo, hi);
    DisjointShrunk(rs, i, q);
    SlotReplaced(rs, i, q, w);
    if Covers(r, w) {
      FindUnique(rs, i, w);
      if r.lazy && Unbacked(r, lo, hi) { LazyReshapedBacking(r, lo, hi, w); }
    }
    hide Disjoint, FindFrom, Unbacked;
  }

  lemma AreasReshaped(own: Owners, id: nat, rs: Slots, i: nat, q: Option<Area>)
    requires AreasOk(own, id, rs) && i < MAX_AREAS && Disjoint(rs[i := q])
    requires q.Some? ==> AreaOk(q.value) && AreaHeld(own, id, i, q.value)
    ensures AreasOk(own, id, rs[i := q])
  {
    hide AreaOk, AreaHeld, Disjoint;
  }

  /** Reshaping a lazy area whose removed pages are unbacked keeps the space. */
  lemma LazyReshape(id: nat, own: Owners, m: Mem, nodes: Nodes, rs: Slots, i: nat, lo: nat, hi: nat)
    requires SpaceOk(m, own, id, nodes, rs) && i < MAX_AREAS && rs[i].Some?
    requires var r := rs[i].value;
             r.first <= lo <= hi <= r.past && (lo == r.first || hi == r.past) && Unbacked(r, lo, hi)
    ensures SpaceOk(m, own, id, nodes, rs[i := Reshaped(rs[i].value, lo, hi)])
    ensures forall w: nat :: PageOf(rs[i := Reshaped(rs[i].value, lo, hi)], w) == PageOf(rs, w)
  {
    var r := rs[i].value;
    var rs' := rs[i := Reshaped(r, lo, hi)];
    SpaceAreas(m, own, id, nodes, rs);
    LazyReshapedOk(own, id, i, r, lo, hi);
    ReshapedPageOf(rs, i, lo, hi, 0);
    hide AreaOk, AreaHeld, TableOk, Disjoint, PageOf, Unbacked, Reshaped, Leaf;
    AreasReshaped(own, id, rs, i, Reshaped(r, lo, hi));
    forall w: nat
      ensures PageOf(rs', w) == PageOf(rs, w)
    {
      ReshapedPageOf(rs, i, lo, hi, w);
    }
    hide AreasOk;
  }

  lemma EagerReshapedOk(own: Owners, id: nat, i: nat, r: Area, lo: nat, hi: nat)
    requires AreaOk(r) && AreaHeld(own, id, i, r) && !r.lazy
    requires r.first <= lo <= hi <= r.past && (lo == r.first || hi == r.past)
    requires lo == r.first && hi < r.past ==> (hi - r.first) % Pow2(Order(r.past - hi)) == 0
    ensures Reshaped(r, lo, hi).Some? ==>
              AreaOk(Reshaped(r, lo, hi).value) && AreaHeld(own, id, i, Reshaped(r, lo, hi).value)
  {
    var n := NPages(r);
    if lo == r.first && hi < r.past {
      FrontCut(own, id, i, r.phys, n, hi - r.first);
    } else if r.first < lo {
      BackCut(own, id, i, r.phys, n, lo - r.first);
    }
    hide Order, BlockHeld, Pow2;
  }

  lemma EagerReshapeAgrees(m: Mem, nodes: Nodes, rs: Slots, m': Mem, i: nat, lo: nat, hi: nat)
    requires Disjoint(rs) && AgreeOutside(m, nodes, rs, 0, 0) && i < MAX_AREAS && rs[i].Some? && !rs[i].value.lazy
    requires var r := rs[i].value; r.first <= lo <= hi <= r.past && (lo == r.first || hi == r.past)
    requires LeavesCleared(m, nodes, m', nodes, lo, hi - lo)
    ensures AgreeOutside(m', nodes, rs[i := Reshaped(rs[i].value, lo, hi)], 0, 0)
  {
    var rs' := rs[i := Reshaped(rs[i].value, lo, hi)];
    hide Leaf, PageOf, Disjoint, FindFrom, Reshaped;
    forall w: nat | w < USER_PAGES
      ensures FrameOf(Leaf(m', nodes, w)) == PageOf(rs', w)
    {
      ReshapedPageOf(rs, i, lo, hi, w);
      assert FrameOf(Leaf(m, nodes, w)) == PageOf(rs, w);
    }
  }

  /** Reshaping an eager area whose removed pages were unmapped keeps the space. */
  lemma EagerReshape(id: nat, own: Owners, m: Mem, nodes: Nodes, rs: Slots, m': Mem, i: nat, lo: nat, hi: nat)
    requires SpaceOk(m, own, id, nodes, rs) && TableStep(id, own, m, nodes, own, m', nodes)
    requires i < MAX_AREAS && rs[i].Some? && !rs[i].value.lazy
    requires var r := rs[i].value; r.first <= lo <= hi <= r.past && (lo == r.first || hi == r.past)
                                   && (lo == r.first && hi < r.past ==> (hi - r.first) % Pow2(Order(r.past - hi)) == 0)
    requires LeavesCleared(m, nodes, m', nodes, lo, hi - lo)
    ensures SpaceOk(m', own, id, nodes, rs[i := Reshaped(rs[i].value, lo, hi)])
  {
    var r := rs[i].value;
    SpaceAreas(m, own, id, nodes, rs);
    EagerReshapedOk(own, id, i, r, lo, hi);
    EagerReshapeAgrees(m, nodes, rs, m', i, lo, hi);
    ReshapedPageOf(rs, i, lo, hi, 0);
    hide AreaOk, AreaHeld, Linked, Placed, Disjoint, PageOf, Reshaped, Leaf, Confined, AgreeOutside, Order, Pow2;
    AreasReshaped(own, id, rs, i, Reshaped(r, lo, hi));
  }

  lemma WithoutNone(r: Area, lo: nat)
    requires AreaOk(r) && r.first <= lo
    ensures WithoutFrames(r, lo, lo) == r
  {
    if r.lazy { assert Zeroed(r.lazyPages, lo - r.first, lo - r.first) == r.lazyPages; }
  }

  /** Dropping the next faulted-in page, or skipping an unbacked one. */
  lemma WithoutNext(r: Area, lo: nat, w: nat)
    requires r.lazy && r.first <= lo <= w < r.past && w - r.first < |r.lazyPages|
    ensures var q, q' := WithoutFrames(r, lo, w), WithoutFrames(r, lo, w + 1);
            && q.first == r.first && q.past == r.past && q.lazy && |q.lazyPages| == |r.lazyPages|
            && q.lazyPages[w - r.first] == r.lazyPages[w - r.first]
            && (if r.lazyPages[w - r.first] != 0 then Droppable(q, w) && q.lazyCount > 0 && q' == Dropped(q, w)
                else q' == q)
  {
    hide CountNonZero;
    var s, j := Zeroed(r.lazyPages, lo - r.first, w - r.first), w - r.first;
    ZeroedStep(r.lazyPages, lo - r.first, j);
    CountUpdate(s, j, 0);
    if s[j] != 0 { CountPositive(s, j); } else { assert s[j := 0] == s; }
  }

  lemma WithoutAll(r: Area, lo: nat, hi: nat, past: nat)
    requires r.lazy && r.first <= lo <= hi && (past == hi || (lo <= past <= hi && past - r.first >= |r.lazyPages|))
    ensures WithoutFrames(r, lo, past) == WithoutFrames(r, lo, hi)
    ensures Unbacked(WithoutFrames(r, lo, hi), lo, hi)
  {
    assert Zeroed(r.lazyPages, lo - r.first, past - r.first) == Zeroed(r.lazyPages, lo - r.first, hi - r.first);
  }

  lemma ReleaseFrame(id: nat, own: Owners, p: nat, v: nat)
    requires FrameHeld(own, id, p, v)
    ensures Aligned(p, 0) && p + Size(0) <= PHYS_LIMIT && forall x :: Inside(x, p, 0) ==> !own(x).Free?
  {
    FrameIsBlock(own, id, p, v);
    hide Inside, Size, Aligned, FrameHeld;
  }

  // ---------------------------------------------------------- eager areas, whole

  lemma EagerStep(id: nat, own: Owners, m: Mem, nodes: Nodes, m': Mem, lo: nat, hi: nat)
    requires lo < hi && TableStep(id, own, m, nodes, own, m', nodes) && LeavesCleared(m, nodes, m', nodes, lo, hi - lo)
    ensures UnmapStep(id, own, m, own, m', nodes, lo, hi)
  {
    TableStepSubtractive(id, own, m, nodes, m');
    hide Subtractive, Leaf, TableOk, Confined;
  }

  /** The block of an eager area may be released once its slot is empty. */
  lemma BlockOf(id: nat, own: Owners, m: Mem, nodes: Nodes, rs: Slots, i: nat)
    requires SpaceOk(m, own, id, nodes, rs) && i < MAX_AREAS && rs[i].Some? && !rs[i].value.lazy
    ensures var r := rs[i].value; var o := Order(NPages(r));
            && BlockHeld(own, id, i, r.phys, o) && o < MAX_ORDER && r.phys != 0
            && Aligned(r.phys, o) && r.phys + Size(o) <= PHYS_LIMIT
            && (forall x :: Inside(x, r.phys, o) ==> own(x) == Held(id, Extent(i)))
  {
    SpaceAreas(m, own, id, nodes, rs);
    hide SpaceOk, Order, Aligned, Size, Inside, Disjoint;
  }

  lemma BlockDropped(id: nat, own: Owners, m: Mem, nodes: Nodes, rs: Slots, own': Owners, i: nat, phys: nat, o: nat,
                     d: Option<nat>, top: nat)
    requires SpaceOk(m, own, id, nodes, rs) && i < MAX_AREAS && rs[i].None? && own(0) == Kernel
    requires BlockHeld(own, id, i, phys, o) && Returned(own, own', phys, o, d, top)
    ensures SpaceOk(m, own', id, nodes, rs) && own'(0) == Kernel
    ensures ROOT in nodes && forall v :: UnmapStep(id, own, m, own', m, nodes, v, v)
  {
    var t := Held(id, Extent(i));
    assert forall x :: Inside(x, phys, o) ==> own(x) == t by { hide Inside; }
    ReturnKeeps(own, own', phys, o, d, top, t);
    ReturnSubtractive(id, own, m, own', phys, o, d, top);
    assert ROOT in nodes by { hide Linked, AreasOk, AgreeOutside; }
    hide Returned, Inside, BlockHeld, Subtractive, SpaceOk, Leaf;
    SpaceWithout(id, own, m, own', nodes, rs, t);
  }

  lemma EmptyStart(id: nat, own: Owners, m: Mem, nodes: Nodes, rs: Slots, i: nat, lo: nat, hi: nat)
    requires SpaceOk(m, own, id, nodes, rs) && ROOT in nodes && i < MAX_AREAS && rs[i].Some? && rs[i].value.first <= lo
    ensures rs[i := Some(WithoutFrames(rs[i].value, lo, lo))] == rs
    ensures UnmapStep(id, own, m, own, m, nodes, lo, hi)
  {
    hide SpaceOk, UnmapStep, AreaHeld, Disjoint, WithoutFrames;
    SpaceAreas(m, own, id, nodes, rs);
    WithoutNone(rs[i].value, lo);
    UnmapStepRefl(id, own, m, nodes, lo, hi);
  }

  // ---------------------------------------------------------------- whole unmaps

  /** One trimmed slot covers exactly the pages left, with the same frames. */
  lemma TrimSlotAt(r: Area, v: nat, end: nat, w: nat)
    requires v < end && AreaOk(r) && Trimmable(r, v, end)
    ensures var q := TrimSlot(Some(r), v, end);
            && (q.Some? && Covers(q.value, w) <==> Covers(r, w) && !(v <= w < end))
            && (q.Some? && Covers(q.value, w) ==> Backing(q.value, w) == Backing(r, w))
  {
    hide Order, Pow2, CountNonZero;
  }

  ghost predicate Trimmed(rs: Slots, rs': Slots, v: nat, end: nat)
    requires v < end
  {
    forall k :: 0 <= k < MAX_AREAS ==>
      && (rs[k].Some? ==> rs[k].value.first <= rs[k].value.past)
      && rs'[k] == TrimSlot(rs[k], v, end)
  }

  /** Unmapping [v, end) removes exactly those pages from the page map. */
  lemma TrimmedPages(m: Mem, own: Owners, id: nat, nodes: Nodes, rs: Slots, rs': Slots, v: nat, end: nat, w: nat)
    requires SpaceOk(m, own, id, nodes, rs) && v < end && Trimmed(rs, rs', v, end) && Disjoint(rs')
    requires forall k :: 0 <= k < MAX_AREAS && rs[k].Some? ==> Trimmable(rs[k].value, v, end)
    ensures PageOf(rs', w) == if v <= w < end then None else PageOf(rs, w)
    ensures Covered(rs', w) <==> Covered(rs, w) && !(v <= w < end)
  {
    SpaceAreas(m, own, id, nodes, rs);
    hide SpaceOk, AreaHeld, Disjoint, Trimmable, TrimSlot;
    var i, j := FindFrom(rs, w, 0), FindFrom(rs', w, 0);
    if i < MAX_AREAS {
      TrimSlotAt(rs[i].value, v, end, w);
      if !(v <= w < end) { FindUnique(rs', i, w); }
    }
    if j < MAX_AREAS {
      assert rs[j].Some?;
      TrimSlotAt(rs[j].value, v, end, w);
      FindUnique(rs, j, w);
    }
  }

  lemma OverlapBounds(r: Area, v: nat, end: nat)
    requires v < end && r.first <= r.past && Overlaps(r, v, end) && Trimmable(r, v, end)
    ensures var lo, hi := Max(v, r.first), Min(end, r.past);
            && r.first <= lo <= hi <= r.past && (!r.lazy && r.first < r.past ==> lo < hi) && v <= lo && hi <= end
            && (lo == r.first || hi == r.past)
            && (!r.lazy && lo == r.first && hi < r.past ==> (hi - r.first) % Pow2(Order(r.past - hi)) == 0)
  {
    hide Order, Pow2;
  }

  lemma AreaBounds(m: Mem, own: Owners, id: nat, nodes: Nodes, rs: Slots, i: nat)
    requires SpaceOk(m, own, id, nodes, rs) && i < MAX_AREAS && rs[i].Some?
    ensures rs[i].value.first <= rs[i].value.past <= USER_PAGES
    ensures !rs[i].value.lazy ==> rs[i].value.phys != 0 && rs[i].value.first < rs[i].value.past
  {
    hide SpaceOk, AreaHeld, Disjoint;
    SpaceAreas(m, own, id, nodes, rs);
  }

  lemma UnmapResult(m0: Mem, o0: Owners, m: Mem, own: Owners, id: nat, nodes: Nodes, rs: Slots, rs': Slots, v: nat,
                    end: nat)
    requires SpaceOk(m0, o0, id, nodes, rs) && SpaceOk(m, own, id, nodes, rs') && v < end
    requires forall k :: 0 <= k < MAX_AREAS && rs[k].Some? ==>
               Trimmable(rs[k].value, v, end) && rs[k].value.first <= rs[k].value.past
    requires forall k :: 0 <= k < MAX_AREAS ==> rs'[k] == TrimSlot(rs[k], v, end)
    ensures Trimmed(rs, rs', v, end)
    ensures forall w: nat ::
              && PageOf(rs', w) == (if v <= w < end then None else PageOf(rs, w))
              && (Covered(rs', w) <==> Covered(rs, w) && !(v <= w < end))
  {
    hide SpaceOk, AreaOk, AreaHeld, Disjoint, Trimmable, TrimSlot, PageOf, Covered;
    SpaceAreas(m, own, id, nodes, rs');
    forall w: nat
      ensures PageOf(rs', w) == (if v <= w < end then None else PageOf(rs, w))
      ensures Covered(rs', w) <==> Covered(rs, w) && !(v <= w < end)
    {
      TrimmedPages(m0, o0, id, nodes, rs, rs', v, end, w);
    }
  }

  lemma AreaRanges(m: Mem, own: Owners, id: nat, nodes: Nodes, rs: Slots)
    requires SpaceOk(m, own, id, nodes, rs)
    ensures forall k :: 0 <= k < MAX_AREAS && rs[k].Some? ==> rs[k].value.first <= rs[k].value.past
  {
    hide SpaceOk, AreaHeld, Disjoint;
    SpaceAreas(m, own, id, nodes, rs);
  }

  // -------------------------------------------------------------- the heap area

  /** Ending a lazy area earlier, once the pages given up are unbacked. */
  lemma LazyShrink(id: nat, own: Owners, m: Mem, nodes: Nodes, rs: Slots, rs': Slots, i: nat, past: nat)
    requires SpaceOk(m, own, id, nodes, rs) && i < MAX_AREAS && rs[i].Some?
    requires var r := rs[i].value; r.first <= past <= r.past && Unbacked(r, past, r.past)
    requires rs' == rs[i := Some(rs[i].value.(past := past))]
    ensures SpaceOk(m, own, id, nodes, rs')
    ensures forall w: nat :: PageOf(rs', w) == PageOf(rs, w)
  {
    var r := rs[i].value;
    var r' := r.(past := past);
    SpaceAreas(m, own, id, nodes, rs);
    DisjointShrunk(rs, i, Some(r'));
    assert AreaOk(r') && AreaHeld(own, id, i, r') by {
      assert AreaOk(r) && AreaHeld(own, id, i, r);
      hide FrameHeld, CountNonZero, SpaceOk;
    }
    forall w: nat
      ensures PageOf(rs', w) == PageOf(rs, w)
    {
      SlotReplaced(rs, i, Some(r'), w);
      if Covers(r, w) { FindUnique(rs, i, w); }
      hide SpaceOk, AreaOk, AreaHeld, Disjoint, FindFrom;
    }
    hide AreaOk, AreaHeld, Disjoint, PageOf, Leaf, TableOk;
    AreasReshaped(own, id, rs, i, Some(r'));
  }

  /** No other area meets the pages [lo, hi). */
  predicate OthersClear(rs: Slots, i: nat, lo: nat, hi: nat)
  {
    forall k :: 0 <= k < MAX_AREAS && k != i && rs[k].Some? ==> rs[k].value.past <= lo || hi <= rs[k].value.first
  }

  lemma GrownDisjoint(rs: Slots, i: nat, past: nat)
    requires Disjoint(rs) && i < MAX_AREAS && rs[i].Some? && OthersClear(rs, i, rs[i].value.past, past)
    requires rs[i].value.first <= rs[i].value.past <= past
    requires forall k :: 0 <= k < MAX_AREAS && rs[k].Some? ==> rs[k].value.first <= rs[k].value.past
    ensures Disjoint(rs[i := Some(rs[i].value.(past := past))])
  {
  }

  /** Ending a lazy area later, over pages no other area meets, reserves unbacked pages. */
  lemma LazyGrow(id: nat, own: Owners, m: Mem, nodes: Nodes, rs: Slots, rs': Slots, i: nat, past: nat)
    requires SpaceOk(m, own, id, nodes, rs) && i < MAX_AREAS && rs[i].Some? && rs[i].value.lazy
    requires rs[i].value.past <= past <= USER_PAGES && OthersClear(rs, i, rs[i].value.past, past)
    requires rs' == rs[i := Some(rs[i].value.(past := past))]
    ensures SpaceOk(m, own, id, nodes, rs')
    ensures forall w: nat :: PageOf(rs', w) == PageOf(rs, w)
  {
    var r := rs[i].value;
    var r' := r.(past := past);
    AreaRanges(m, own, id, nodes, rs);
    SpaceAreas(m, own, id, nodes, rs);
    assert AreaOk(r) && AreaHeld(own, id, i, r);
    assert AreaOk(r') && AreaHeld(own, id, i, r') by { hide FrameHeld, CountNonZero, SpaceOk; }
    GrownDisjoint(rs, i, past);
    forall w: nat
      ensures PageOf(rs', w) == PageOf(rs, w)
    {
      SlotReplaced(rs, i, Some(r'), w);
      if Covers(r, w) { FindUnique(rs, i, w); }
      if r.past <= w < past {
        GrownUncovered(rs, i, past, w);
      }
      hide SpaceOk, AreaHeld, Disjoint, FindFrom, OthersClear;
    }
    hide AreaOk, AreaHeld, Disjoint, PageOf, Leaf, TableOk, OthersClear;
    AreasReshaped(own, id, rs, i, Some(r'));
  }

  lemma GrownUncovered(rs: Slots, i: nat, past: nat, w: nat)
    requires i < MAX_AREAS && rs[i].Some? && OthersClear(rs, i, rs[i].value.past, past) && rs[i].value.past <= w < past
    ensures PageOf(rs, w) == None
  {
  }

  /** The first slot at or after `i` whose area starts at `heapStart`, or MAX_AREAS. */
  function HeapFrom(rs: Slots, heapStart: nat, i: nat): (j: nat)
    requires i <= MAX_AREAS
    ensures i <= j <= MAX_AREAS
    ensures j < MAX_AREAS ==> rs[j].Some? && 4096 * rs[j].value.first == heapStart
    decreases MAX_AREAS - i
  {
    if i == MAX_AREAS then MAX_AREAS
    else if rs[i].Some? && 4096 * rs[i].value.first == heapStart then i
    else HeapFrom(rs, heapStart, i + 1)
  }

  function HeapSlot(rs: Slots, heapStart: nat): (i: nat)
    ensures i <= MAX_AREAS
    ensures i < MAX_AREAS ==> rs[i].Some? && 4096 * rs[i].value.first == heapStart
  {
    HeapFrom(rs, heapStart, 0)
  }

  method FindHeap(rs: Slots, heapStart: nat) returns (i: nat)
    ensures i == HeapSlot(rs, heapStart)
  {
    i := 0;
    while i < MAX_AREAS && !(rs[i].Some? && 4096 * rs[i].value.first == heapStart)
      invariant i <= MAX_AREAS && HeapFrom(rs, heapStart, i) == HeapSlot(rs, heapStart)
    {
      i := i + 1;
    }
  }

  method AreOthersClear(rs: Slots, i: nat, lo: nat, hi: nat) returns (clear: bool)
    ensures clear <==> OthersClear(rs, i, lo, hi)
  {
    for k := 0 to MAX_AREAS
      invariant forall n :: 0 <= n < k && n != i && rs[n].Some? ==> rs[n].value.past <= lo || hi <= rs[n].value.first
    {
      if k != i && rs[k].Some? && rs[k].value.first < hi && rs[k].value.past > lo {
        return false;
      }
    }
    return true;
  }

  /** What a break request promises: `brk` is the break in force before, `end` the request in pages. */
  datatype BrkCase = Unchanged | Created | NoOp | Grown | Shrunk

  function BrkOutcome(rs: Slots, heapStart: nat, newEnd: nat): BrkCase
  {
    var end := (newEnd + 4095) / 4096;
    if newEnd == 0 || heapStart == 0 then Unchanged
    else
      var i := HeapSlot(rs, heapStart);
      if i == MAX_AREAS then
        if 4096 * end <= heapStart || FreeSlot(rs) == MAX_AREAS
           || !Vacant(rs, heapStart / 4096, heapStart / 4096 + HeapPages(heapStart, end)) then Unchanged else Created
      else if end == rs[i].value.past then NoOp
      else if end > rs[i].value.past then if OthersClear(rs, i, rs[i].value.past, end) then Grown else Unchanged
      else Shrunk
  }

  /** The areas after a break request. */
  function AfterBrk(rs: Slots, heapStart: nat, newEnd: nat): Slots
    requires BrkOutcome(rs, heapStart, newEnd).Shrunk? ==>
               4096 * ((newEnd + 4095) / 4096) >= heapStart
  {
    var end := (newEnd + 4095) / 4096;
    var i := HeapSlot(rs, heapStart);
    match BrkOutcome(rs, heapStart, newEnd)
    case Unchanged => rs
    case NoOp => rs
    case Created => rs[FreeSlot(rs) := Some(LazyArea(heapStart / 4096, HeapPages(heapStart, end), HEAP_FLAGS))]
    case Grown => rs[i := Some(rs[i].value.(past := end))]
    case Shrunk => rs[i := Some(WithoutFrames(rs[i].value, end, rs[i].value.past).(past := end))]
  }

  const HEAP_FLAGS := PageFlags(true, true, true, false, false)

  /** Pages mapped for a new heap of `4096 * end - heapStart` bytes. */
  function HeapPages(heapStart: nat, end: nat): nat
  {
    if 4096 * end <= heapStart then 0 else (4096 * end - heapStart + 4095) / 4096
  }

  lemma WithoutPageAt(rs: Slots, i: nat, end: nat, w: nat)
    requires Disjoint(rs) && i < MAX_AREAS && rs[i].Some? && rs[i].value.lazy
    requires rs[i].value.first <= end <= rs[i].value.past
    ensures PageOf(rs[i := Some(WithoutFrames(rs[i].value, end, rs[i].value.past))], w)
            == if end <= w < rs[i].value.past then None else PageOf(rs, w)
  {
    var r := rs[i].value;
    var r' := WithoutFrames(r, end, r.past);
    assert r'.first == r.first && r'.past == r.past && r'.lazy;
    DisjointShrunk(rs, i, Some(r'));
    SlotReplaced(rs, i, Some(r'), w);
    if Covers(r, w) {
      FindUnique(rs, i, w);
      assert Backing(r', w) == if end <= w < r.past then None else Backing(r, w);
    }
    hide Disjoint, FindFrom, CountNonZero, WithoutFrames;
  }

  /** Emptying the tail of an area unbacks exactly those pages. */
  lemma WithoutPages(m: Mem, own: Owners, id: nat, nodes: Nodes, rs: Slots, rs': Slots, i: nat, end: nat, past: nat)
    requires SpaceOk(m, own, id, nodes, rs) && i < MAX_AREAS && rs[i].Some? && rs[i].value.lazy
    requires rs[i].value.first <= end <= rs[i].value.past == past
    requires rs' == rs[i := Some(WithoutFrames(rs[i].value, end, past))]
    ensures forall w: nat :: PageOf(rs', w) == if end <= w < past then None else PageOf(rs, w)
  {
    hide SpaceOk, AreaOk, AreaHeld, Disjoint, PageOf, WithoutFrames;
    SpaceAreas(m, own, id, nodes, rs);
    forall w: nat
      ensures PageOf(rs', w) == if end <= w < past then None else PageOf(rs, w)
    {
      WithoutPageAt(rs, i, end, w);
    }
  }
}
