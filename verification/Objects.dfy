/**
  Whole runs of the kernel heap (mm/src/slab.rs), as its clients see them: objects are
  independent byte arrays, and nobody else's memory is touched.
 */
module Objects {
  import opened Words
  import opened Buddy
  import opened Areas
  import opened Steps
  import opened Slab

  /** What clients do: allocate, free one of their objects, or write to the front of one. */
  datatype Op = OpAlloc(size: nat) | OpFree(i: nat) | OpStore(i: nat, s: seq<Byte>)

  /** What a client keeps of an object. */
  datatype Piece = Piece(ptr: nat, size: nat)

  // ------------------------------------------------------------ the abstract heap

  type Contents = seq<seq<Byte>>

  /** One operation on a list of byte arrays; `got` is what an allocation found there, if it succeeded. */
  function ReplayOne(bs: Contents, op: Op, got: Option<seq<Byte>>): Contents
  {
    match op
    case OpAlloc(_) => if got.Some? then bs + [got.value] else bs
    case OpFree(i) => if i < |bs| then bs[..i] + bs[i + 1..] else bs
    case OpStore(i, s) => if i < |bs| && |s| <= |bs[i]| then bs[i := s + bs[i][|s|..]] else bs
  }

  function Replay(ops: seq<Op>, got: seq<Option<seq<Byte>>>): Contents
    requires |ops| == |got|
  {
    if ops == [] then [] else
      var n := |ops| - 1;
      ReplayOne(Replay(ops[..n], got[..n]), ops[n], got[n])
  }

  lemma ReplayNext(ops: seq<Op>, got: seq<Option<seq<Byte>>>, i: nat, g: Option<seq<Byte>>)
    requires i < |ops| && |got| == i
    ensures Replay(ops[..i + 1], got + [g]) == ReplayOne(Replay(ops[..i], got), ops[i], g)
  {
    hide ReplayOne;
    assert ops[..i + 1][..i] == ops[..i] && (got + [g])[..i] == got;
  }

  // ------------------------------------------------------------------- the pieces

  function PagesFor(size: nat): nat
  {
    (size + 4095) / 4096
  }

  /** The bytes that the heap sets aside for an object of this size. */
  function Footprint(size: nat): nat
  {
    if size == 0 then 0 else if size <= 4096 then SIZES[ClassOf(size)] else Size(Order(PagesFor(size)))
  }

  lemma FootprintCovers(size: nat)
    requires PagesFor(size) <= 1024
    ensures size <= Footprint(size)
  {
    hide Order, Size;
    OrderBound(PagesFor(size));
  }

  ghost predicate InPiece(q: Piece, off: nat, x: int)
  {
    q.ptr - off <= x < q.ptr - off + Footprint(q.size)
  }

  /** The heap holds the piece, as an object or a block. */
  ghost predicate Owned(v: View, heap: nat, off: nat, q: Piece)
    requires |v.live| == CLASSES
  {
    q.size == 0 ||
    (&& q.ptr >= off && q.ptr != 0 && PagesFor(q.size) <= 1024
     && if q.size <= 4096 then q.ptr - off in v.live[ClassOf(q.size)]
        else LargeHeld(v.own, heap, q.ptr - off, Order(PagesFor(q.size))))
  }

  /** The piece reads as `b`. */
  ghost predicate Shows(v: View, off: nat, q: Piece, b: seq<Byte>)
  {
    |b| == q.size && forall k :: 0 <= k < q.size ==> v.mem(q.ptr - off + k) == b[k]
  }

  ghost predicate Apart(p: Piece, q: Piece, off: nat)
  {
    forall x :: !(InPiece(p, off, x) && InPiece(q, off, x))
  }

  // -------------------------------------------------------------------- the state

  datatype View = View(mem: Mem, own: Owners, live: seq<set<nat>>)

  ghost function Look(h: Heap): View
    reads h, h.ram
  {
    View(h.ram.mem, h.ram.own, h.live)
  }

  ghost predicate Busy(v: View, heap: nat, x: int)
    requires |v.live| == CLASSES
  {
    !Idle(v.own, heap, v.live, x)
  }

  /** A busy byte stays so, with its owner and its value. */
  ghost predicate Stays(v: View, v': View, heap: nat, x: int)
    requires |v.live| == |v'.live| == CLASSES
  {
    Busy(v, heap, x) ==> Busy(v', heap, x) && v'.own(x) == v.own(x) && v'.mem(x) == v.mem(x)
  }

  /** The piece is held, reads as `b`, and takes up nothing that was busy in `v0`. */
  ghost predicate Good(v: View, heap: nat, off: nat, q: Piece, b: seq<Byte>, v0: View)
    requires |v.live| == |v0.live| == CLASSES
  {
    && Owned(v, heap, off, q) && Shows(v, off, q, b)
    && forall x :: InPiece(q, off, x) ==> Busy(v, heap, x) && !Busy(v0, heap, x)
  }

  /** The pieces are good and disjoint; all that was busy in `v0` is as it was. */
  ghost predicate Serving(v: View, heap: nat, off: nat, ps: seq<Piece>, bs: Contents, v0: View)
    requires |v.live| == |v0.live| == CLASSES
  {
    && |ps| == |bs|
    && (forall i :: 0 <= i < |ps| ==> Good(v, heap, off, ps[i], bs[i], v0))
    && (forall i, j :: 0 <= i < j < |ps| ==> Apart(ps[i], ps[j], off))
    && (forall x :: Stays(v0, v, heap, x))
  }

  // ----------------------------------------------------------- what an operation keeps

  /** Pieces whose bytes all stay read as before. */
  lemma ShowsKept(v: View, v': View, heap: nat, off: nat, q: Piece, b: seq<Byte>)
    requires |v.live| == |v'.live| == CLASSES && Owned(v, heap, off, q) && Shows(v, off, q, b)
    requires forall x :: InPiece(q, off, x) ==> Busy(v, heap, x) && Stays(v, v', heap, x)
    ensures Shows(v', off, q, b) && forall x :: InPiece(q, off, x) ==> Busy(v', heap, x)
  {
    hide Idle, Footprint;
    if q.size > 0 {
      FootprintCovers(q.size);
      forall k | 0 <= k < q.size
        ensures v'.mem(q.ptr - off + k) == b[k]
      {
        assert InPiece(q, off, q.ptr - off + k);
      }
    }
  }

  lemma LargeStays(v: View, v': View, heap: nat, a: nat, o: nat)
    requires LargeHeld(v.own, heap, a, o) && forall x :: Inside(x, a, o) ==> v'.own(x) == v.own(x)
    ensures LargeHeld(v'.own, heap, a, o)
  {
    hide Inside, Aligned, Size;
  }

  /** A piece is still held if its bytes stay and its object is still live. */
  lemma OwnedKept(v: View, v': View, heap: nat, off: nat, q: Piece)
    requires |v.live| == |v'.live| == CLASSES && Owned(v, heap, off, q)
    requires forall x :: InPiece(q, off, x) ==> v'.own(x) == v.own(x)
    requires 0 < q.size <= 4096 ==> q.ptr - off in v'.live[ClassOf(q.size)]
    ensures Owned(v', heap, off, q)
  {
    hide LargeHeld, Order, ClassOf, Size;
    if q.size > 4096 {
      assert forall x :: Inside(x, q.ptr - off, Order(PagesFor(q.size))) ==> InPiece(q, off, x);
      LargeStays(v, v', heap, q.ptr - off, Order(PagesFor(q.size)));
    }
  }

  /** A piece whose bytes and object stay is as good as before. */
  lemma GoodKept(v: View, v': View, heap: nat, off: nat, q: Piece, b: seq<Byte>, v0: View)
    requires |v.live| == |v'.live| == |v0.live| == CLASSES && Good(v, heap, off, q, b, v0)
    requires forall x :: InPiece(q, off, x) ==> Stays(v, v', heap, x)
    requires 0 < q.size <= 4096 && q.ptr >= off && q.ptr - off in v.live[ClassOf(q.size)] ==>
               q.ptr - off in v'.live[ClassOf(q.size)]
    ensures Good(v', heap, off, q, b, v0)
  {
    ShowsKept(v, v', heap, off, q, b);
    hide Busy, InPiece, Shows;
    assert forall x :: InPiece(q, off, x) ==> v'.own(x) == v.own(x);
    OwnedKept(v, v', heap, off, q);
  }

  lemma StaysOn(v0: View, v: View, v': View, heap: nat)
    requires |v.live| == |v'.live| == |v0.live| == CLASSES
    requires forall x :: Stays(v0, v, heap, x)
    requires forall x :: Busy(v0, heap, x) ==> Stays(v, v', heap, x)
    ensures forall x :: Stays(v0, v', heap, x)
  {
    hide Busy;
    forall x ensures Stays(v0, v', heap, x) { assert Stays(v0, v, heap, x); }
  }

  /** All busy bytes stay and nothing is given up: so do all pieces. */
  lemma Unchanged(v: View, v': View, heap: nat, off: nat, ps: seq<Piece>, bs: Contents, v0: View)
    requires |v.live| == |v'.live| == |v0.live| == CLASSES && Serving(v, heap, off, ps, bs, v0)
    requires forall x :: Stays(v, v', heap, x)
    requires forall c, a :: 0 <= c < CLASSES && a in v.live[c] ==> a in v'.live[c]
    ensures Serving(v', heap, off, ps, bs, v0)
  {
    hide Good, Apart, Stays;
    forall i | 0 <= i < |ps|
      ensures Good(v', heap, off, ps[i], bs[i], v0)
    {
      GoodKept(v, v', heap, off, ps[i], bs[i], v0);
    }
    StaysOn(v0, v, v', heap);
  }

  /** All busy bytes stay, and a new piece takes bytes that were idle. */
  lemma Added(v: View, v': View, heap: nat, off: nat, ps: seq<Piece>, bs: Contents, v0: View, q: Piece, b: seq<Byte>)
    requires |v.live| == |v'.live| == |v0.live| == CLASSES && Serving(v, heap, off, ps, bs, v0)
    requires forall x :: Stays(v, v', heap, x)
    requires forall c, a :: 0 <= c < CLASSES && a in v.live[c] ==> a in v'.live[c]
    requires Owned(v', heap, off, q) && Shows(v', off, q, b)
    requires forall x :: InPiece(q, off, x) ==> !Busy(v, heap, x) && Busy(v', heap, x)
    ensures Serving(v', heap, off, ps + [q], bs + [b], v0)
  {
    hide Owned, Shows, Busy, InPiece;
    var ps', bs' := ps + [q], bs + [b];
    Unchanged(v, v', heap, off, ps, bs, v0);
    forall x | InPiece(q, off, x) ensures !Busy(v0, heap, x) { assert Stays(v0, v, heap, x); }
    assert Good(v', heap, off, q, b, v0);
    forall i | 0 <= i < |ps|
      ensures Apart(ps[i], q, off)
    {
      assert Good(v, heap, off, ps[i], bs[i], v0);
    }
    hide Good, Apart, Stays;
  }

  /** Bytes outside piece `i` stay, so every other piece is as good as before. */
  lemma OthersGood(v: View, v': View, heap: nat, off: nat, ps: seq<Piece>, bs: Contents, v0: View, i: nat, j: nat)
    requires |v.live| == |v'.live| == |v0.live| == CLASSES && Serving(v, heap, off, ps, bs, v0)
    requires i < |ps| && j < |ps| && i != j && forall x :: !InPiece(ps[i], off, x) ==> Stays(v, v', heap, x)
    requires 0 < ps[j].size <= 4096 && ps[j].ptr >= off ==> ps[j].ptr - off in v'.live[ClassOf(ps[j].size)]
    ensures Good(v', heap, off, ps[j], bs[j], v0)
  {
    hide Good, InPiece, Stays;
    assert if j < i then Apart(ps[j], ps[i], off) else Apart(ps[i], ps[j], off);
    GoodKept(v, v', heap, off, ps[j], bs[j], v0);
  }

  /** Nothing of `v0` lies in a piece. */
  lemma OutsideStays(v: View, v': View, heap: nat, off: nat, ps: seq<Piece>, bs: Contents, v0: View, i: nat)
    requires |v.live| == |v'.live| == |v0.live| == CLASSES && Serving(v, heap, off, ps, bs, v0) && i < |ps|
    requires forall x :: !InPiece(ps[i], off, x) ==> Stays(v, v', heap, x)
    ensures forall x :: Stays(v0, v', heap, x)
  {
    hide Owned, Shows, Busy, InPiece, Apart, Stays;
    assert Good(v, heap, off, ps[i], bs[i], v0);
    StaysOn(v0, v, v', heap);
  }

  /** Piece `i` is given up; all busy bytes outside it stay. */
  lemma Removed(v: View, v': View, heap: nat, off: nat, ps: seq<Piece>, bs: Contents, v0: View, i: nat)
    requires |v.live| == |v'.live| == |v0.live| == CLASSES && Serving(v, heap, off, ps, bs, v0) && i < |ps|
    requires forall x :: !InPiece(ps[i], off, x) ==> Stays(v, v', heap, x)
    requires forall j :: 0 <= j < |ps| && j != i && 0 < ps[j].size <= 4096 && ps[j].ptr >= off ==>
               ps[j].ptr - off in v'.live[ClassOf(ps[j].size)]
    ensures Serving(v', heap, off, ps[..i] + ps[i + 1..], bs[..i] + bs[i + 1..], v0)
  {
    hide Good, Apart, Stays, InPiece;
    forall j | 0 <= j < |ps| && j != i
      ensures Good(v', heap, off, ps[j], bs[j], v0)
    {
      OthersGood(v, v', heap, off, ps, bs, v0, i, j);
    }
    OutsideStays(v, v', heap, off, ps, bs, v0, i);
    var ps', bs' := ps[..i] + ps[i + 1..], bs[..i] + bs[i + 1..];
    assert forall j :: 0 <= j < |ps'| ==> ps'[j] == (if j < i then ps[j] else ps[j + 1]);
    assert forall j :: 0 <= j < |ps'| ==> bs'[j] == (if j < i then bs[j] else bs[j + 1]);
  }

  /** Piece `i` is written; all else stays, and so do owners and objects. */
  lemma Rewritten(v: View, v': View, heap: nat, off: nat, ps: seq<Piece>, bs: Contents, v0: View, i: nat, b: seq<Byte>)
    requires |v.live| == |v0.live| == CLASSES && Serving(v, heap, off, ps, bs, v0) && i < |ps|
    requires v'.own == v.own && v'.live == v.live && forall x :: !InPiece(ps[i], off, x) ==> v'.mem(x) == v.mem(x)
    requires Shows(v', off, ps[i], b)
    ensures Serving(v', heap, off, ps, bs[i := b], v0)
  {
    assert Good(v', heap, off, ps[i], b, v0) by {
      assert Good(v, heap, off, ps[i], bs[i], v0);
      hide Shows, LargeHeld, InPiece, Idle;
    }
    hide Good, Apart, InPiece, Shows, Idle, Owned;
    forall j | 0 <= j < |ps| && j != i
      ensures Good(v', heap, off, ps[j], bs[j], v0)
    {
      assert Good(v, heap, off, ps[j], bs[j], v0);
      StillLive(v, heap, off, ps[j], bs[j], v0);
      OthersGood(v, v', heap, off, ps, bs, v0, i, j);
    }
    OutsideStays(v, v', heap, off, ps, bs, v0, i);
    hide Stays;
  }

  lemma StillLive(v: View, heap: nat, off: nat, q: Piece, b: seq<Byte>, v0: View)
    requires |v.live| == |v0.live| == CLASSES && Good(v, heap, off, q, b, v0)
    ensures 0 < q.size <= 4096 ==> q.ptr >= off && q.ptr - off in v.live[ClassOf(q.size)]
  {
  }

  // -------------------------------------------------------------------- the heap

  /** The bytes of an object are busy. */
  lemma ObjectBusy(h: Heap, c: nat, a: nat)
    requires h.Valid() && c < CLASSES && a in h.live[c]
    ensures forall x :: a <= x < a + SIZES[c] ==>
              Busy(Look(h), h.heap, x) && h.ram.own(x) == Held(h.heap, Extent(c))
  {
    hide ListsOk, TagsOk, Total;
    SlotOfClass(h.ram.mem, h.ram.own, h.heap, h.off, c, h.heads[c], h.lists[c], h.live[c], a);
  }

  /** The bytes of a free slot are idle. */
  lemma SlotIdle(h: Heap, c: nat)
    requires h.Valid() && c < CLASSES && h.lists[c] != []
    ensures var a := h.lists[c][0]; forall x :: a <= x < a + SIZES[c] ==> Idle(h.ram.own, h.heap, h.live, x)
  {
    hide ListsOk, TagsOk, Total;
    var a := h.lists[c][0];
    SizeFacts(c);
    SlotOfClass(h.ram.mem, h.ram.own, h.heap, h.off, c, h.heads[c], h.lists[c], h.live[c], a);
    forall x | a <= x < a + SIZES[c]
      ensures !InObject(h.live[c], SIZES[c], x)
    {
      forall b | b in h.live[c]
        ensures !(b <= x < b + SIZES[c])
      {
        SlotOfClass(h.ram.mem, h.ram.own, h.heap, h.off, c, h.heads[c], h.lists[c], h.live[c], b);
        SlotsApart(SIZES[c], a, b);
      }
    }
  }

  /** More objects and no change to what is held: all busy bytes stay. */
  lemma AllocStays(s: State, s': State, live: seq<set<nat>>, live': seq<set<nat>>, heap: nat)
    requires |live| == |live'| == CLASSES && HeldKept(s, s')
    requires forall c, a :: 0 <= c < CLASSES && a in live[c] ==> a in live'[c]
    ensures forall x :: Stays(View(s.mem, s.own, live), View(s'.mem, s'.own, live'), heap, x)
  {
  }

  /** The bytes handed out for a small request were idle. */
  lemma SmallIdle(s: State, s': State, live: seq<set<nat>>, off: nat, heap: nat, c: nat, r: nat)
    requires c < CLASSES && |s.lists| == |live| == CLASSES && r >= off && SmallTaken(s, s', off, heap, c, Some(r))
    requires s.lists[c] != [] ==>
               forall x :: s.lists[c][0] <= x < s.lists[c][0] + SIZES[c] ==> Idle(s.own, heap, live, x)
    ensures forall x :: r - off <= x < r - off + SIZES[c] ==> Idle(s.own, heap, live, x)
  {
    hide Total, Cut, InObject;
    SizeFacts(c);
    if s.lists[c] == [] {
      var p := LastOf(r - off, c);
      assert Size(0) == 4096;
      assert forall x :: Inside(x, p, 0) <==> p <= x < p + 4096;
    }
  }

  // -------------------------------------------------------------------- supplies

  /** Free slots of each class, and reachable pages. */
  datatype Stock = Stock(slots: seq<nat>, pages: nat)

  ghost function StockOf(s: State): (k: Stock)
    requires |s.lists| == CLASSES
    ensures |k.slots| == CLASSES
  {
    Stock(seq(CLASSES, c requires 0 <= c < CLASSES => |s.lists[c]|), Total(s.heads))
  }

  predicate Enough(k: Stock, size: nat)
    requires |k.slots| == CLASSES
  {
    if size == 0 then true
    else if size <= 4096 then k.slots[ClassOf(size)] > 0 || k.pages > 0
    else PagesFor(size) <= 1024 && k.pages >= Pow2(Order(PagesFor(size)))
  }

  /** How an operation on objects that read as `bs` draws on the supplies. */
  predicate Supplied(k: Stock, k': Stock, op: Op, bs: Contents)
    requires |k.slots| == CLASSES
  {
    match op
    case OpAlloc(size) =>
      if size == 0 || !Enough(k, size) then k' == k
      else if size <= 4096 then
        var c := ClassOf(size);
        k' == if k.slots[c] > 0 then k.(slots := k.slots[c := k.slots[c] - 1])
              else Stock(k.slots[c := 4096 / SIZES[c] - 1], k.pages - 1)
      else k' == k.(pages := k.pages - Pow2(Order(PagesFor(size))))
    case OpFree(i) =>
      if i >= |bs| || |bs[i]| == 0 then k' == k
      else if |bs[i]| <= 4096 then
        k' == k.(slots := k.slots[ClassOf(|bs[i]|) := k.slots[ClassOf(|bs[i]|)] + 1])
      else k'.slots == k.slots
    case OpStore(_, _) => k' == k
  }

  lemma SmallSupplied(s: State, s': State, off: nat, heap: nat, size: nat, r: Option<nat>, bs: Contents)
    requires 0 < size <= 4096 && |s.lists| == |s'.lists| == CLASSES && SmallTaken(s, s', off, heap, ClassOf(size), r)
    ensures Supplied(StockOf(s), StockOf(s'), OpAlloc(size), bs) && (r.Some? <==> Enough(StockOf(s), size))
  {
    hide Total, Cut, Granted;
    var c := ClassOf(size);
    SizeFacts(c);
    var k, k' := StockOf(s), StockOf(s');
    assert forall d :: 0 <= d < CLASSES && d != c ==> k'.slots[d] == k.slots[d];
    assert k'.slots == k.slots[c := k'.slots[c]];
  }

  lemma LargeSupplied(s: State, s': State, off: nat, heap: nat, size: nat, r: Option<nat>, bs: Contents)
    requires size > 4096 && PagesFor(size) <= 1024 && |s.lists| == |s'.lists| == CLASSES
    requires LargeTaken(s, s', off, heap, PagesFor(size), r)
    ensures Supplied(StockOf(s), StockOf(s'), OpAlloc(size), bs) && (r.Some? <==> Enough(StockOf(s), size))
  {
    hide Total, Granted, LargeHeld, Order, LeastOrder, Pow2;
  }

  lemma FreeSupplied(s: State, s': State, off: nat, a: nat, i: nat, bs: Contents)
    requires i < |bs| && |s.lists| == CLASSES && 0 < |bs[i]| <= 4096
    requires s' == SmallReturned(s, off, ClassOf(|bs[i]|), a)
    ensures Supplied(StockOf(s), StockOf(s'), OpFree(i), bs)
  {
    hide Total, Store64;
    var c, k, k' := ClassOf(|bs[i]|), StockOf(s), StockOf(s');
    assert forall d :: 0 <= d < CLASSES && d != c ==> k'.slots[d] == k.slots[d];
    assert k'.slots == k.slots[c := k'.slots[c]];
  }

  // ------------------------------------------------------------------------ runs

  /** A block handed out, or an object, is not seen at address 0. */
  lemma NotNull(own: Owners, heap: nat, off: nat, a: nat, o: nat)
    requires LargeHeld(own, heap, a, o) && (off > 0 || own(0) == Kernel)
    ensures a + off != 0
  {
    if a == 0 { assert Inside(0, a, o); }
  }

  lemma LargeBusy(v: View, heap: nat, off: nat, q: Piece)
    requires |v.live| == CLASSES && q.size > 4096 && q.ptr >= off
    requires LargeHeld(v.own, heap, q.ptr - off, Order(PagesFor(q.size)))
    ensures forall x :: InPiece(q, off, x) ==> Busy(v, heap, x)
  {
    hide Order, Size, Aligned;
    forall x | InPiece(q, off, x)
      ensures Busy(v, heap, x)
    {
      assert Inside(x, q.ptr - off, Order(PagesFor(q.size)));
    }
  }

  /** The bytes of a block handed out were free. */
  lemma LargeIdle(s: State, s': State, live: seq<set<nat>>, off: nat, heap: nat, q: Piece)
    requires |live| == CLASSES && q.size > 4096 && q.ptr >= off
    requires LargeTaken(s, s', off, heap, PagesFor(q.size), Some(q.ptr))
    ensures forall x :: InPiece(q, off, x) ==> Idle(s.own, heap, live, x)
  {
    hide Order, Size, LeastOrder, Total, Pow2, LargeHeld, InObject;
    forall x | InPiece(q, off, x)
      ensures Idle(s.own, heap, live, x)
    {
      assert Inside(x, q.ptr - off, Order(PagesFor(q.size)));
    }
  }

  /** What `Alloc` promises, as supplies. */
  lemma AllocSupplied(s: State, s': State, off: nat, heap: nat, size: nat, r: Option<nat>, bs: Contents)
    requires |s.lists| == |s'.lists| == CLASSES
    requires size == 0 ==> r.Some? && s' == s
    requires 0 < size <= 4096 ==> SmallTaken(s, s', off, heap, ClassOf(size), r)
    requires PagesFor(size) > 1024 ==> r == None && s' == s
    requires size > 4096 && PagesFor(size) <= 1024 ==> LargeTaken(s, s', off, heap, PagesFor(size), r)
    ensures Supplied(StockOf(s), StockOf(s'), OpAlloc(size), bs) && (r.Some? <==> Enough(StockOf(s), size))
    ensures r.None? ==> s' == s
  {
    hide StockOf, LargeTaken, SmallTaken, Order, Total;
    if 0 < size <= 4096 {
      SmallSupplied(s, s', off, heap, size, r, bs);
    } else if size > 0 && PagesFor(size) <= 1024 {
      LargeSupplied(s, s', off, heap, size, r, bs);
    }
    NoneTaken(s, s', off, heap, size, r);
  }

  lemma NoneTaken(s: State, s': State, off: nat, heap: nat, size: nat, r: Option<nat>)
    requires 0 < size <= 4096 ==> |s.lists| == CLASSES && SmallTaken(s, s', off, heap, ClassOf(size), r)
    requires size > 4096 && PagesFor(size) <= 1024 ==> LargeTaken(s, s', off, heap, PagesFor(size), r)
    ensures r.None? && (0 < size <= 4096 || (size > 4096 && PagesFor(size) <= 1024)) ==> s' == s
  {
    hide Order, Total, PageTaken, Cut;
  }

  /** The piece just handed out is held and took idle bytes only. */
  lemma NewPiece(h: Heap, s: State, live: seq<set<nat>>, q: Piece)
    requires h.Valid() && |s.lists| == |live| == CLASSES && q.size > 0
    requires q.size <= 4096 ==>
               var c := ClassOf(q.size);
               && SmallTaken(s, h.Now(), h.off, h.heap, c, Some(q.ptr)) && q.ptr >= h.off && q.ptr > 0
               && q.ptr - h.off in h.live[c]
               && (s.lists[c] != [] ==>
                     forall x :: s.lists[c][0] <= x < s.lists[c][0] + SIZES[c] ==> Idle(s.own, h.heap, live, x))
    requires q.size > 4096 ==>
               PagesFor(q.size) <= 1024 && LargeTaken(s, h.Now(), h.off, h.heap, PagesFor(q.size), Some(q.ptr))
    ensures Owned(Look(h), h.heap, h.off, q) && q.ptr >= h.off
    ensures forall x :: InPiece(q, h.off, x) ==> Idle(s.own, h.heap, live, x) && Busy(Look(h), h.heap, x)
  {
    hide ListsOk, TagsOk, Total, ClassOk, Idle, Order, SmallTaken;
    if q.size <= 4096 {
      var c := ClassOf(q.size);
      ObjectBusy(h, c, q.ptr - h.off);
      SmallIdle(s, h.Now(), live, h.off, h.heap, c, q.ptr);
    } else {
      LargeFacts(s, h.Now(), h.off, h.heap, q);
      LargeIdle(s, h.Now(), live, h.off, h.heap, q);
      LargeBusy(Look(h), h.heap, h.off, q);
      NotNull(h.ram.own, h.heap, h.off, q.ptr - h.off, Order(PagesFor(q.size)));
    }
  }

  lemma LargeFacts(s: State, s': State, off: nat, heap: nat, q: Piece)
    requires LargeTaken(s, s', off, heap, PagesFor(q.size), Some(q.ptr))
    ensures q.ptr >= off && LargeHeld(s'.own, heap, q.ptr - off, Order(PagesFor(q.size)))
  {
    hide Order, LargeHeld, LeastOrder, Total, Pow2;
  }

  method DoAlloc(h: Heap, size: nat, ps: seq<Piece>, ghost bs: Contents, ghost v0: View)
    returns (ps': seq<Piece>, ghost got: Option<seq<Byte>>)
    requires h.Valid() && |v0.live| == CLASSES && Serving(Look(h), h.heap, h.off, ps, bs, v0)
    modifies h.ram`mem, h.ram`heads, h.ram`freePages, h.ram`own, h`heads, h`lists, h`live
    ensures h.Valid() && Serving(Look(h), h.heap, h.off, ps', ReplayOne(bs, OpAlloc(size), got), v0)
    ensures got.Some? ==> |got.value| == size
    ensures var k := old(StockOf(h.Now()));
            (got.Some? <==> Enough(k, size)) && Supplied(k, StockOf(h.Now()), OpAlloc(size), bs)
  {
    hide ListsOk, TagsOk, Total, ClassOk, SmallTaken, LargeTaken, Serving, HeldKept, Idle, StockOf, Supplied, Enough,
      Stays, Owned, Busy, InPiece, ClassOf, Order;
    ghost var v, s := Look(h), h.Now();
    if 0 < size <= 4096 && h.lists[ClassOf(size)] != [] { SlotIdle(h, ClassOf(size)); }
    var r := h.Alloc(size);
    AllocSupplied(s, h.Now(), h.off, h.heap, size, r, bs);
    if r.None? { return ps, None; }
    var q := Piece(r.value, size);
    ps' := ps + [q];
    AllocStays(s, h.Now(), v.live, h.live, h.heap);
    if size == 0 {
      got := Some([]);
      NoPiece(Look(h), h.heap, h.off, q);
    } else {
      NewPiece(h, s, v.live, q);
      got := Some(Load(h.ram.mem, q.ptr - h.off, size));
    }
    NewAdded(v, Look(h), h.heap, h.off, ps, bs, v0, q, got.value);
  }

  lemma NoPiece(v: View, heap: nat, off: nat, q: Piece)
    requires |v.live| == CLASSES && q.size == 0
    ensures Owned(v, heap, off, q) && forall x :: !InPiece(q, off, x)
  {
  }

  lemma NewAdded(v: View, v': View, heap: nat, off: nat, ps: seq<Piece>, bs: Contents, v0: View, q: Piece, b: seq<Byte>)
    requires |v.live| == |v'.live| == |v0.live| == CLASSES && Serving(v, heap, off, ps, bs, v0)
    requires forall x :: Stays(v, v', heap, x)
    requires forall c, a :: 0 <= c < CLASSES && a in v.live[c] ==> a in v'.live[c]
    requires Owned(v', heap, off, q) && (q.size > 0 ==> q.ptr >= off && b == Load(v'.mem, q.ptr - off, q.size))
    requires q.size == 0 ==> b == []
    requires forall x :: InPiece(q, off, x) ==> Idle(v.own, heap, v.live, x) && Busy(v', heap, x)
    ensures Serving(v', heap, off, ps + [q], bs + [b], v0)
  {
    hide Serving, Owned, Idle, InPiece, Stays;
    Added(v, v', heap, off, ps, bs, v0, q, b);
  }

  /** Freeing an object leaves every other busy byte alone. */
  lemma SmallFreeStays(v: View, v': View, heap: nat, off: nat, c: nat, q: Piece)
    requires |v.live| == CLASSES && c < CLASSES && 0 < q.size <= 4096 && c == ClassOf(q.size) && q.ptr >= off
    requires v'.own == v.own && v'.live == v.live[c := v.live[c] - {q.ptr - off}]
    requires Within(v.mem, v'.mem, q.ptr - off, q.ptr - off + 8)
    ensures forall x :: !InPiece(q, off, x) ==> Stays(v, v', heap, x)
  {
    hide ClassOf;
    SizeFacts(c);
    forall x | !InPiece(q, off, x)
      ensures Stays(v, v', heap, x)
    {
      if InObject(v.live[c], SIZES[c], x) {
        var a :| a in v.live[c] && a <= x < a + SIZES[c];
        assert a in v'.live[c];
      }
    }
  }

  lemma LargeFreeStays(s: State, s': State, live: seq<set<nat>>, heap: nat, off: nat, q: Piece)
    requires |live| == CLASSES && q.size > 4096 && q.ptr >= off
    requires LargeReturned(s, s', q.ptr - off, Order(PagesFor(q.size)))
    ensures forall x :: !InPiece(q, off, x) ==> Stays(View(s.mem, s.own, live), View(s'.mem, s'.own, live), heap, x)
  {
    hide Order, Size, Pow2, InObject;
  }

  /** Distinct pieces are distinct objects. */
  lemma OthersLive(v: View, v': View, heap: nat, off: nat, ps: seq<Piece>, bs: Contents, v0: View, i: nat, j: nat)
    requires |v.live| == |v0.live| == CLASSES && Serving(v, heap, off, ps, bs, v0) && i < |ps| && j < |ps| && i != j
    requires 0 < ps[i].size <= 4096 && 0 < ps[j].size <= 4096 && ps[i].ptr >= off
    requires var c := ClassOf(ps[i].size); v'.live == v.live[c := v.live[c] - {ps[i].ptr - off}]
    ensures ps[j].ptr >= off && ps[j].ptr - off in v'.live[ClassOf(ps[j].size)]
  {
    hide Busy, Shows;
    assert Good(v, heap, off, ps[j], bs[j], v0);
    SizeFacts(ClassOf(ps[i].size));
    SizeFacts(ClassOf(ps[j].size));
    assert if j < i then Apart(ps[j], ps[i], off) else Apart(ps[i], ps[j], off);
    var x := ps[j].ptr - off;
    assert InPiece(ps[j], off, x) && !InPiece(ps[i], off, x);
  }

  method DoFree(h: Heap, i: nat, ps: seq<Piece>, ghost bs: Contents, ghost v0: View) returns (ps': seq<Piece>)
    requires h.Valid() && |v0.live| == CLASSES && Serving(Look(h), h.heap, h.off, ps, bs, v0)
    modifies h.ram`mem, h.ram`heads, h.ram`freePages, h.ram`own, h.ram`lost, h`heads, h`lists, h`live
    ensures h.Valid() && Serving(Look(h), h.heap, h.off, ps', ReplayOne(bs, OpFree(i), None), v0)
    ensures Supplied(old(StockOf(h.Now())), StockOf(h.Now()), OpFree(i), bs)
  {
    hide ListsOk, TagsOk, Total, ClassOk, Serving, Idle, StockOf, Stays, Busy, InPiece, ClassOf, Order, LargeHeld,
      LargeReturned, SmallReturned;
    SameCount(Look(h), h.heap, h.off, ps, bs, v0);
    if i >= |ps| { return ps; }
    var q := ps[i];
    PieceHeld(Look(h), h.heap, h.off, ps, bs, v0, i);
    ghost var v, s := Look(h), h.Now();
    h.Free(q.ptr, q.size);
    ps' := ps[..i] + ps[i + 1..];
    if 0 < q.size <= 4096 {
      FreeSupplied(s, h.Now(), h.off, q.ptr - h.off, i, bs);
      SmallWithin(s, h.Now(), h.off, ClassOf(q.size), q.ptr - h.off);
      SmallFreeStays(v, Look(h), h.heap, h.off, ClassOf(q.size), q);
    } else if q.size > 4096 {
      SameSlots(s, h.Now(), q.ptr - h.off, Order(PagesFor(q.size)));
      LargeFreeStays(s, h.Now(), h.live, h.heap, h.off, q);
    } else {
      AllStay(v, h.heap);
    }
    forall j | 0 <= j < |ps| && j != i && 0 < ps[j].size <= 4096
      ensures ps[j].ptr >= h.off ==> ps[j].ptr - h.off in h.live[ClassOf(ps[j].size)]
    {
      PieceHeld(v, h.heap, h.off, ps, bs, v0, j);
      if 0 < q.size <= 4096 { OthersLive(v, Look(h), h.heap, h.off, ps, bs, v0, i, j); }
    }
    Removed(v, Look(h), h.heap, h.off, ps, bs, v0, i);
  }

  lemma SameCount(v: View, heap: nat, off: nat, ps: seq<Piece>, bs: Contents, v0: View)
    requires |v.live| == |v0.live| == CLASSES && Serving(v, heap, off, ps, bs, v0)
    ensures |ps| == |bs|
  {
    hide Good, Apart, Stays;
  }

  lemma PieceHeld(v: View, heap: nat, off: nat, ps: seq<Piece>, bs: Contents, v0: View, i: nat)
    requires |v.live| == |v0.live| == CLASSES && Serving(v, heap, off, ps, bs, v0) && i < |ps|
    ensures Owned(v, heap, off, ps[i]) && Shows(v, off, ps[i], bs[i]) && |bs[i]| == ps[i].size
    ensures forall x :: InPiece(ps[i], off, x) ==> Busy(v, heap, x)
  {
    hide Apart, Stays, Owned, InPiece, Busy;
    assert Good(v, heap, off, ps[i], bs[i], v0);
  }

  lemma SmallWithin(s: State, s': State, off: nat, c: nat, a: nat)
    requires c < CLASSES && |s.lists| == CLASSES && s' == SmallReturned(s, off, c, a)
    ensures s'.own == s.own && Within(s.mem, s'.mem, a, a + 8)
  {
  }

  lemma SameSlots(s: State, s': State, a: nat, o: nat)
    requires |s.lists| == CLASSES && LargeReturned(s, s', a, o)
    ensures |s'.lists| == CLASSES && StockOf(s').slots == StockOf(s).slots
  {
    hide Total, Inside, Pow2;
  }

  lemma AllStay(v: View, heap: nat)
    requires |v.live| == CLASSES
    ensures forall x :: Stays(v, v, heap, x)
  {
  }

  method DoStore(h: Heap, i: nat, t: seq<Byte>, ps: seq<Piece>, ghost bs: Contents, ghost v0: View)
    requires h.Valid() && |v0.live| == CLASSES && Serving(Look(h), h.heap, h.off, ps, bs, v0)
    modifies h.ram`mem
    ensures h.Valid() && Serving(Look(h), h.heap, h.off, ps, ReplayOne(bs, OpStore(i, t), None), v0)
    ensures StockOf(h.Now()) == old(StockOf(h.Now()))
  {
    hide ListsOk, TagsOk, Total, ClassOk, Serving, Idle, ClassOf, Order, LargeHeld, Footprint;
    SameCount(Look(h), h.heap, h.off, ps, bs, v0);
    if i >= |ps| { return; }
    PieceHeld(Look(h), h.heap, h.off, ps, bs, v0, i);
    var q := ps[i];
    if |t| > q.size || q.size == 0 {
      assert |t| <= |bs[i]| ==> t + bs[i][|t|..] == bs[i] && bs[i := bs[i]] == bs;
      return;
    }
    ghost var v := Look(h);
    FootprintCovers(q.size);
    var m := Store(h.ram.mem, q.ptr - h.off, t);
    forall x | m(x) != h.ram.mem(x) ensures Busy(v, h.heap, x) { assert InPiece(q, h.off, x); }
    h.WriteObjects(m);
    Rewritten(v, Look(h), h.heap, h.off, ps, bs, v0, i, t + bs[i][|t|..]);
  }

  /** The log of one operation: how it drew on the supplies, and what an allocation found. */
  predicate Logged(op: Op, bs: Contents, got: Option<seq<Byte>>, k: Stock, k': Stock)
  {
    && |k.slots| == CLASSES && Supplied(k, k', op, bs)
    && (op.OpAlloc? ==> (got.Some? <==> Enough(k, op.size)) && (got.Some? ==> |got.value| == op.size))
  }

  predicate AllLogged(ops: seq<Op>, got: seq<Option<seq<Byte>>>, stocks: seq<Stock>)
    requires |got| <= |ops| && |stocks| == |got| + 1
  {
    forall k :: 0 <= k < |got| ==>
      Logged(ops[k], Replay(ops[..k], got[..k]), got[k], stocks[k], stocks[k + 1])
  }

  lemma LoggedNext(ops: seq<Op>, got: seq<Option<seq<Byte>>>, stocks: seq<Stock>, g: Option<seq<Byte>>, k': Stock)
    requires |got| < |ops| && |stocks| == |got| + 1 && AllLogged(ops, got, stocks)
    requires Logged(ops[|got|], Replay(ops[..|got|], got), g, stocks[|got|], k')
    ensures AllLogged(ops, got + [g], stocks + [k'])
  {
    hide Logged, Replay;
    var got', stocks' := got + [g], stocks + [k'];
    forall k | 0 <= k < |got'|
      ensures Logged(ops[k], Replay(ops[..k], got'[..k]), got'[k], stocks'[k], stocks'[k + 1])
    {
      if k < |got| {
        assert Logged(ops[k], Replay(ops[..k], got[..k]), got[k], stocks[k], stocks[k + 1]);
        assert got'[..k] == got[..k];
      } else {
        assert got'[..k] == got;
      }
    }
  }

  /** Let one thing happen. */
  method Perform(h: Heap, op: Op, ps: seq<Piece>, ghost bs: Contents, ghost v0: View)
    returns (ps': seq<Piece>, ghost got: Option<seq<Byte>>)
    requires h.Valid() && |v0.live| == CLASSES && Serving(Look(h), h.heap, h.off, ps, bs, v0)
    modifies h.ram`mem, h.ram`heads, h.ram`freePages, h.ram`own, h.ram`lost, h`heads, h`lists, h`live
    ensures h.Valid() && Serving(Look(h), h.heap, h.off, ps', ReplayOne(bs, op, got), v0)
    ensures Logged(op, bs, got, old(StockOf(h.Now())), StockOf(h.Now()))
  {
    hide ListsOk, TagsOk, Total, ClassOk, Serving, StockOf, Enough;
    ps', got := ps, None;
    match op {
      case OpAlloc(size) => ps', got := DoAlloc(h, size, ps, bs, v0);
      case OpFree(i) => ps' := DoFree(h, i, ps, bs, v0);
      case OpStore(i, t) => DoStore(h, i, t, ps, bs, v0);
    }
  }

  /**
    Every run of any clients. The objects they end up with read exactly as a list of
    independent byte arrays would, to which the same operations were applied. Allocations
    fail exactly when neither a slot of the class nor the pages are there. Every byte
    that was in use when the run began, by an object, a large block or anybody else, has
    kept its owner and its value.
   */
  method Run(h: Heap, ops: seq<Op>)
    returns (ps: seq<Piece>, ghost got: seq<Option<seq<Byte>>>, ghost stocks: seq<Stock>)
    requires h.Valid()
    modifies h.ram`mem, h.ram`heads, h.ram`freePages, h.ram`own, h.ram`lost, h`heads, h`lists, h`live
    ensures h.Valid() && |got| == |ops| && |stocks| == |ops| + 1
    ensures var bs := Replay(ops, got);
            && |ps| == |bs|
            && forall i :: 0 <= i < |ps| ==>
                 Owned(Look(h), h.heap, h.off, ps[i]) && Shows(Look(h), h.off, ps[i], bs[i])
    ensures forall i, j :: 0 <= i < j < |ps| ==> Apart(ps[i], ps[j], h.off)
    ensures forall x :: Stays(old(Look(h)), Look(h), h.heap, x)
    ensures stocks[0] == old(StockOf(h.Now())) && stocks[|ops|] == StockOf(h.Now()) && AllLogged(ops, got, stocks)
  {
    hide ListsOk, TagsOk, Total, ClassOk, StockOf, Serving, Logged, AllLogged, ReplayOne;
    ghost var v0 := Look(h);
    Nobody(v0, h.heap, h.off);
    ps, got, stocks := [], [], [StockOf(h.Now())];
    NothingLogged(ops, stocks);
    for i := 0 to |ops|
      invariant h.Valid() && |got| == i && |stocks| == i + 1 && stocks[0] == old(StockOf(h.Now()))
      invariant Serving(Look(h), h.heap, h.off, ps, Replay(ops[..i], got), v0)
      invariant stocks[i] == StockOf(h.Now()) && AllLogged(ops, got, stocks)
    {
      ghost var bs := Replay(ops[..i], got);
      ghost var g;
      ps, g := Perform(h, ops[i], ps, bs, v0);
      LoggedNext(ops, got, stocks, g, StockOf(h.Now()));
      ReplayNext(ops, got, i, g);
      got, stocks := got + [g], stocks + [StockOf(h.Now())];
    }
    assert ops[..|ops|] == ops;
    Served(Look(h), h.heap, h.off, ps, Replay(ops, got), v0);
  }

  lemma Nobody(v: View, heap: nat, off: nat)
    requires |v.live| == CLASSES
    ensures Serving(v, heap, off, [], Replay([], []), v)
  {
    hide Busy;
  }

  lemma NothingLogged(ops: seq<Op>, stocks: seq<Stock>)
    requires |stocks| == 1
    ensures AllLogged(ops, [], stocks) && ops[..0] == []
  {
  }

  lemma Served(v: View, heap: nat, off: nat, ps: seq<Piece>, bs: Contents, v0: View)
    requires |v.live| == |v0.live| == CLASSES && Serving(v, heap, off, ps, bs, v0)
    ensures |ps| == |bs|
    ensures forall i :: 0 <= i < |ps| ==> Owned(v, heap, off, ps[i]) && Shows(v, off, ps[i], bs[i])
    ensures forall i, j :: 0 <= i < j < |ps| ==> Apart(ps[i], ps[j], off)
    ensures forall x :: Stays(v0, v, heap, x)
  {
    hide Owned, Shows, Apart, Stays, InPiece, Busy;
    forall i | 0 <= i < |ps|
      ensures Owned(v, heap, off, ps[i]) && Shows(v, off, ps[i], bs[i])
    {
      assert Good(v, heap, off, ps[i], bs[i], v0);
    }
  }
}
