/**
  The slab allocator (mm/src/slab.rs): one free list per size class, threaded through
  the first word of every free slot, refilled with pages of the buddy allocator.
 */
module Slab {
  import opened Words
  import opened Buddy
  import opened Areas
  import opened Space
  import opened Steps

  const CLASSES := 10
  const SIZES := [8, 16, 32, 64, 128, 256, 512, 1024, 2048, 4096]
  const OFFSET_LIMIT := 0x8000_0000_0000_0000

  lemma SizeFacts(c: nat)
    requires c < CLASSES
    ensures 8 <= SIZES[c] <= 4096 && SIZES[c] * (4096 / SIZES[c]) == 4096 && 4096 / SIZES[c] > 0
  {
    assert c == 0 || c == 1 || c == 2 || c == 3 || c == 4 || c == 5 || c == 6 || c == 7 || c == 8 || c == 9;
  }

  function ClassFrom(size: nat, i: nat): (c: nat)
    requires i <= CLASSES
    ensures i <= c <= CLASSES && (c < CLASSES ==> size <= SIZES[c])
    ensures forall k :: i <= k < c ==> SIZES[k] < size
    decreases CLASSES - i
  {
    if i == CLASSES || size <= SIZES[i] then i else ClassFrom(size, i + 1)
  }

  /** The smallest class that fits, or CLASSES if the size is more than a page. */
  function ClassOf(size: nat): (c: nat)
    ensures c <= CLASSES && (c < CLASSES <==> size <= 4096)
    ensures c < CLASSES ==> size <= SIZES[c]
    ensures forall k :: 0 <= k < c ==> SIZES[k] < size
  {
    assert SIZES[9] == 4096;
    ClassFrom(size, 0)
  }

  method SizeClass(size: nat) returns (c: nat)
    ensures c == ClassOf(size)
  {
    c := 0;
    while c < CLASSES && size > SIZES[c]
      invariant c <= CLASSES && ClassFrom(size, c) == ClassOf(size)
    {
      c := c + 1;
    }
  }

  // ------------------------------------------------------------------- free lists

  /** The pointer to entry `i` of a list; slots are seen at a constant offset, and 0 ends the list. */
  function Ptr(off: nat, list: seq<nat>, i: nat): nat
  {
    if i < |list| then list[i] + off else 0
  }

  /** Every free slot holds the pointer to the next one. */
  ghost predicate Linked(m: Mem, off: nat, list: seq<nat>)
  {
    forall i :: 0 <= i < |list| ==> LinkAt(m, off, list, i)
  }

  predicate LinkAt(m: Mem, off: nat, list: seq<nat>, i: nat)
    requires i < |list|
  {
    Load64(m, list[i]) == Ptr(off, list, i + 1)
  }

  /** A slot of class `c`: aligned to its size, in memory held for that class. */
  ghost predicate SlotOk(own: Owners, heap: nat, size: nat, c: nat, a: nat)
    requires size > 0
  {
    && a % size == 0 && a + size <= PHYS_LIMIT
    && forall x :: a <= x < a + size ==> own(x) == Held(heap, Extent(c))
  }

  ghost predicate Distinct(list: seq<nat>)
  {
    forall i, j :: 0 <= i < j < |list| ==> list[i] != list[j]
  }

  /** One class: its list is linked, ends, and shares no slot with itself or a live object. */
  ghost predicate ClassOk(m: Mem, own: Owners, heap: nat, off: nat, c: nat, head: nat, list: seq<nat>, live: set<nat>)
    requires c < CLASSES
  {
    && head == Ptr(off, list, 0) && Linked(m, off, list) && Distinct(list)
    && (forall i :: 0 <= i < |list| ==>
        SlotOk(own, heap, SIZES[c], c, list[i]) && list[i] !in live && list[i] + off != 0)
    && (forall a :: a in live ==> SlotOk(own, heap, SIZES[c], c, a) && a + off != 0)
  }

  /** Distinct aligned slots do not overlap. */
  lemma SlotsApart(size: nat, a: nat, b: nat)
    requires size > 0 && a % size == 0 && b % size == 0 && a != b
    ensures a + size <= b || b + size <= a
  {
    var i, j := a / size, b / size;
    assert a == size * i && b == size * j;
    if i < j { Gap(size, i, j); } else { Gap(size, j, i); }
  }

  lemma {:induction false} Gap(size: nat, i: nat, j: nat)
    requires i < j
    ensures size * i + size <= size * j
  {
    assert size * j == size * (j - 1) + size;
    if i < j - 1 { Gap(size, i, j - 1); }
  }

  /** Links depend on the first word of each free slot only. */
  lemma LinkedSame(m: Mem, m': Mem, off: nat, list: seq<nat>)
    requires Linked(m, off, list)
    requires forall i, x :: 0 <= i < |list| && list[i] <= x < list[i] + 8 ==> m'(x) == m(x)
    ensures Linked(m', off, list)
  {
    hide Load64;
    forall i | 0 <= i < |list|
      ensures LinkAt(m', off, list, i)
    {
      assert LinkAt(m, off, list, i);
      Load64Same(m, m', list[i]);
    }
  }

  /** A write into memory of another class, or of nobody's, does not concern this one. */
  lemma OtherClass(m: Mem, own: Owners, m': Mem, own': Owners, heap: nat, off: nat, c: nat, head: nat, list: seq<nat>,
                   live: set<nat>)
    requires c < CLASSES && ClassOk(m, own, heap, off, c, head, list, live)
    requires forall x :: own(x) == Held(heap, Extent(c)) ==> own'(x) == own(x) && m'(x) == m(x)
    ensures ClassOk(m', own', heap, off, c, head, list, live)
  {
    hide LinkAt;
    SizeFacts(c);
    forall i, x | 0 <= i < |list| && list[i] <= x < list[i] + 8
      ensures m'(x) == m(x)
    {
      assert SlotOk(own, heap, SIZES[c], c, list[i]);
    }
    LinkedSame(m, m', off, list);
  }

  /** Pushing slot `a`, which is neither free nor live, on the list. */
  lemma Pushed(m: Mem, own: Owners, heap: nat, off: nat, c: nat, head: nat, list: seq<nat>, live: set<nat>, a: nat)
    requires c < CLASSES && ClassOk(m, own, heap, off, c, head, list, live) && off < OFFSET_LIMIT
    requires SlotOk(own, heap, SIZES[c], c, a) && a !in list && a !in live && a + off != 0
    ensures ClassOk(Store64(m, a, head), own, heap, off, c, a + off, [a] + list, live)
    ensures head < W64
  {
    hide Load64, Store64;
    SizeFacts(c);
    var m', list' := Store64(m, a, head), [a] + list;
    if list != [] { assert SlotOk(own, heap, SIZES[c], c, list[0]); }
    forall i, x | 0 <= i < |list| && list[i] <= x < list[i] + 8
      ensures m'(x) == m(x)
    {
      assert SlotOk(own, heap, SIZES[c], c, list[i]);
      SlotsApart(SIZES[c], a, list[i]);
    }
    LinkedSame(m, m', off, list);
    Load64Stored(m, a, head);
    forall i | 0 <= i < |list'|
      ensures LinkAt(m', off, list', i)
    {
      if i > 0 { assert LinkAt(m', off, list, i - 1); }
    }
  }

  /** Taking the first slot off the list. */
  lemma Popped(m: Mem, own: Owners, heap: nat, off: nat, c: nat, head: nat, list: seq<nat>, live: set<nat>)
    requires c < CLASSES && ClassOk(m, own, heap, off, c, head, list, live) && |list| > 0
    ensures head == list[0] + off > 0 && list[0] !in live && SlotOk(own, heap, SIZES[c], c, list[0])
    ensures ClassOk(m, own, heap, off, c, Load64(m, list[0]), list[1..], live + {list[0]})
  {
    hide Load64;
    var list' := list[1..];
    assert LinkAt(m, off, list, 0);
    forall i | 0 <= i < |list'|
      ensures LinkAt(m, off, list', i)
    {
      assert LinkAt(m, off, list, i + 1);
    }
  }

  /** A write inside live objects of any class, or outside the heap, never touches a link. */
  lemma LiveWrite(m: Mem, own: Owners, m': Mem, heap: nat, off: nat, c: nat, head: nat, list: seq<nat>, live: set<nat>)
    requires c < CLASSES && ClassOk(m, own, heap, off, c, head, list, live)
    requires forall x :: m'(x) != m(x) && own(x) == Held(heap, Extent(c)) ==> InObject(live, SIZES[c], x)
    ensures ClassOk(m', own, heap, off, c, head, list, live)
  {
    hide LinkAt;
    SizeFacts(c);
    forall i, x | 0 <= i < |list| && list[i] <= x < list[i] + 8
      ensures m'(x) == m(x)
    {
      assert SlotOk(own, heap, SIZES[c], c, list[i]);
      forall a | a in live
        ensures !(a <= x < a + SIZES[c])
      {
        SlotsApart(SIZES[c], a, list[i]);
      }
    }
    LinkedSame(m, m', off, list);
  }

  // ----------------------------------------------------------------- large blocks

  /** The block (a, o) is held by the heap as a large object. */
  ghost predicate LargeHeld(own: Owners, heap: nat, a: nat, o: nat)
  {
    && Aligned(a, o) && a + Size(o) <= PHYS_LIMIT
    && forall x :: Inside(x, a, o) ==> own(x) == Held(heap, Extent(CLASSES))
  }

  /** What an operation of the heap may change besides the live objects. */
  datatype State = State(mem: Mem, own: Owners, heads: Lists, freePages: nat, lists: seq<seq<nat>>)

  /** A large request got a block of the least order that covers it, exactly if that many pages were reachable. */
  ghost predicate LargeTaken(s: State, s': State, off: nat, heap: nat, pages: nat, r: Option<nat>)
  {
    var order := Order(pages);
    && LeastOrder(pages, order) && order < MAX_ORDER
    && (r.None? <==> Total(s.heads) < Pow2(order))
    && (r.None? ==> s' == s)
    && (r.Some? ==>
          && s'.mem == s.mem && s'.lists == s.lists
          && r.value >= off && Granted(s.own, s'.own, r.value - off, order, Held(heap, Extent(CLASSES)))
          && LargeHeld(s'.own, heap, r.value - off, order)
          && s'.freePages == s.freePages - Pow2(order) && Total(s'.heads) == Total(s.heads) - Pow2(order))
  }

  /** Every byte of the block (a, o) is free, its pages are counted, and nothing else that is held changed. */
  ghost predicate LargeReturned(s: State, s': State, a: nat, o: nat)
  {
    && s'.mem == s.mem && s'.lists == s.lists
    && (forall x :: Inside(x, a, o) ==> s'.own(x).Free?)
    && (forall x :: !s.own(x).Free? && !Inside(x, a, o) ==> s'.own(x) == s.own(x))
    && s'.freePages == s.freePages + Pow2(o)
  }

  // ---------------------------------------------------------------- small objects

  /** The first `n` slots of a page, the last one in front. */
  function Cut(p: nat, size: nat, n: nat): (l: seq<nat>)
    ensures |l| == n
  {
    if n == 0 then [] else [p + (n - 1) * size] + Cut(p, size, n - 1)
  }

  lemma {:induction false} CutBelow(p: nat, size: nat, n: nat, a: nat)
    requires size > 0 && a in Cut(p, size, n)
    ensures a < p + n * size
  {
    assert (n - 1) * size + size == n * size;
    if a != p + (n - 1) * size { CutBelow(p, size, n - 1, a); }
  }

  /** A free page went to class `c`: nobody else's tag changed, and only its own bytes were written. */
  ghost predicate PageTaken(s: State, s': State, heap: nat, c: nat, p: nat)
  {
    && p % 4096 == 0 && Granted(s.own, s'.own, p, 0, Held(heap, Extent(c))) && Within(s.mem, s'.mem, p, p + 4096)
    && s'.freePages == s.freePages - 1 && Total(s'.heads) == Total(s.heads) - 1
  }

  /** The page that a slot lies in, if it is the last of its page. */
  function LastOf(a: nat, c: nat): int
    requires c < CLASSES
  {
    a + SIZES[c] - 4096
  }

  /**
    A small request: the first slot of the list, and nothing else changes; or, when the
    list is empty, the last slot of a page that was free; or none if there is no page.
   */
  ghost predicate SmallTaken(s: State, s': State, off: nat, heap: nat, c: nat, r: Option<nat>)
    requires c < CLASSES && |s.lists| == CLASSES
  {
    if s.lists[c] != [] then
      r == Some(s.lists[c][0] + off) && s' == s.(lists := s.lists[c := s.lists[c][1..]])
    else if Total(s.heads) == 0 then
      r == None && s' == s
    else
      && r.Some? && r.value >= off && LastOf(r.value - off, c) >= 0
      && var p := LastOf(r.value - off, c);
         && PageTaken(s, s', heap, c, p)
         && s'.lists == s.lists[c := Cut(p, SIZES[c], 4096 / SIZES[c] - 1)]
  }

  /** The object goes to the front of its list, and only its first word is written. */
  ghost function SmallReturned(s: State, off: nat, c: nat, a: nat): State
    requires c < CLASSES && |s.lists| == CLASSES
  {
    s.(mem := Store64(s.mem, a, Ptr(off, s.lists[c], 0)), lists := s.lists[c := [a] + s.lists[c]])
  }

  /** Whatever was not free keeps its owner and its bytes. */
  ghost predicate HeldKept(s: State, s': State)
  {
    forall x :: !s.own(x).Free? ==> s'.own(x) == s.own(x) && s'.mem(x) == s.mem(x)
  }

  lemma SmallKeeps(s: State, s': State, off: nat, heap: nat, c: nat, r: Option<nat>)
    requires c < CLASSES && |s.lists| == CLASSES && SmallTaken(s, s', off, heap, c, r)
    ensures HeldKept(s, s')
  {
    hide Total, Cut;
    if s.lists[c] == [] && Total(s.heads) != 0 {
      var p := LastOf(r.value - off, c);
      assert Size(0) == 4096;
      assert forall x :: Inside(x, p, 0) <==> p <= x < p + 4096;
    }
  }

  lemma LargeKeeps(s: State, s': State, off: nat, heap: nat, pages: nat, r: Option<nat>)
    requires LargeTaken(s, s', off, heap, pages, r)
    ensures HeldKept(s, s')
  {
    hide Total, Order, LeastOrder, Inside, Pow2;
  }

  ghost predicate InObject(objects: set<nat>, size: nat, x: int)
  {
    exists a :: a in objects && a <= x < a + size
  }

  /** A byte the heap may use as it likes: free, or in a page of a class and in no object of it. */
  ghost predicate Idle(own: Owners, heap: nat, live: seq<set<nat>>, x: int)
    requires |live| == CLASSES
  {
    || own(x).Free?
    || (exists c: nat :: c < CLASSES && own(x) == Held(heap, Extent(c)) && !InObject(live[c], SIZES[c], x))
  }

  // ------------------------------------------------------------------ the allocator

  class Heap {
    const ram: Ram
    const off: nat
    ghost const heap: nat
    var heads: seq<nat>
    ghost var lists: seq<seq<nat>>
    ghost var live: seq<set<nat>>

    ghost predicate Valid()
      reads this, ram
    {
      && ram.Valid() && off % 4096 == 0 && off < OFFSET_LIMIT && (off > 0 || ram.own(0) == Kernel)
      && |heads| == CLASSES && |lists| == CLASSES && |live| == CLASSES
      && forall c :: 0 <= c < CLASSES ==> ClassOk(ram.mem, ram.own, heap, off, c, heads[c], lists[c], live[c])
    }

    ghost function Now(): State
      reads this, ram
    {
      State(ram.mem, ram.own, ram.heads, ram.freePages, lists)
    }

    /** All caches start empty. */
    constructor (ram: Ram, off: nat, ghost heap: nat)
      requires ram.Valid() && off % 4096 == 0 && off < OFFSET_LIMIT && (off > 0 || ram.own(0) == Kernel)
      ensures Valid() && this.ram == ram && this.off == off && this.heap == heap
      ensures forall c :: 0 <= c < CLASSES ==> lists[c] == [] && live[c] == {}
    {
      this.ram, this.off, this.heap := ram, off, heap;
      heads := seq(CLASSES, _ => 0);
      lists, live := seq(CLASSES, _ => []), seq(CLASSES, _ => {});
      new;
      hide ListsOk, TagsOk, Total;
    }

    /** Push slot `a` of class `c` on its list. */
    method Push(c: nat, a: nat)
      requires Valid() && c < CLASSES && SlotOk(ram.own, heap, SIZES[c], c, a) && a !in lists[c] && a !in live[c]
               && a + off != 0
      modifies ram`mem, this`heads, this`lists
      ensures Valid() && lists == old(lists)[c := [a] + old(lists)[c]] && heads == old(heads)[c := a + off]
      ensures ram.mem == Store64(old(ram.mem), a, Ptr(off, old(lists)[c], 0))
    {
      hide ListsOk, TagsOk, Total, ClassOk, SlotOk;
      ghost var m := ram.mem;
      HeadIsFirst(m, ram.own, heap, off, c, heads[c], lists[c], live[c]);
      Pushed(m, ram.own, heap, off, c, heads[c], lists[c], live[c], a);
      ram.mem := Store64(ram.mem, a, heads[c]);
      OthersKept(m, ram.own, ram.mem, heap, off, c, a, heads, lists, live);
      heads, lists := heads[c := a + off], lists[c := [a] + lists[c]];
    }

    /** Cut a fresh page into slots of class `c`. Fails, changing nothing, only when no page is left. */
    method Refill(c: nat) returns (ok: bool, ghost p: nat)
      requires Valid() && c < CLASSES
      modifies ram`mem, ram`heads, ram`freePages, ram`own, this`heads, this`lists
      ensures Valid()
      ensures ok <==> Total(old(ram.heads)) > 0
      ensures !ok ==> heads == old(heads) && Now() == old(Now())
      ensures ok ==>
                && PageTaken(old(Now()), Now(), heap, c, p)
                && lists == old(lists)[c := Cut(p, SIZES[c], 4096 / SIZES[c]) + old(lists)[c]]
    {
      hide ListsOk, TagsOk, Total, ClassOk, SlotOk, Aligned, Size, Granted, Inside;
      ghost var own0 := ram.own;
      assert Pow2(0) == 1;
      p := 0;
      var page := ram.Alloc(0, Held(heap, Extent(c)));
      if page.None? { return false, p; }
      var addr := page.value;
      p := addr;
      PageGranted(own0, ram.own, heap, c, p, off);
      forall k | 0 <= k < CLASSES
        ensures ClassOk(ram.mem, ram.own, heap, off, k, heads[k], lists[k], live[k])
      {
        GrantKeeps(ram.mem, own0, ram.own, heap, off, k, heads[k], lists[k], live[k], c, p);
      }
      NotSlots(ram.mem, own0, heap, off, c, heads[c], lists[c], live[c], p);
      FillPage(c, addr);
      return true, p;
    }

    /** Push all slots of the fresh page `p`. */
    method FillPage(c: nat, p: nat)
      requires Valid() && c < CLASSES && PageHeld(ram.own, heap, c, p, off)
      requires forall x :: p <= x < p + 4096 ==> x !in lists[c] && x !in live[c]
      modifies ram`mem, this`heads, this`lists
      ensures Valid() && Within(old(ram.mem), ram.mem, p, p + 4096)
      ensures lists == old(lists)[c := Cut(p, SIZES[c], 4096 / SIZES[c]) + old(lists)[c]]
    {
      hide ListsOk, TagsOk, Total, ClassOk, SlotOk, Cut, Store64;
      SizeFacts(c);
      var n := 4096 / SIZES[c];
      var addr := p;
      CutNone(p, SIZES[c], lists, c);
      for i := 0 to n
        invariant Valid() && addr == p + i * SIZES[c]
        invariant lists == old(lists)[c := Cut(p, SIZES[c], i) + old(lists)[c]]
        invariant Within(old(ram.mem), ram.mem, p, p + 4096)
      {
        SlotInPage(ram.own, heap, c, p, i, off);
        SlotFresh(p, SIZES[c], i, old(lists)[c]);
        CutNext(p, SIZES[c], i, old(lists)[c]);
        Push(c, addr);
        addr := addr + SIZES[c];
      }
    }

    /** Take a slot of class `c`: an object that was neither free list memory in use nor live. */
    method CacheAlloc(c: nat) returns (r: Option<nat>)
      requires Valid() && c < CLASSES
      modifies ram`mem, ram`heads, ram`freePages, ram`own, this`heads, this`lists, this`live
      ensures Valid()
      ensures SmallTaken(old(Now()), Now(), off, heap, c, r)
      ensures r.None? <==> old(lists)[c] == [] && Total(old(ram.heads)) == 0
      ensures r.None? ==> live == old(live)
      ensures r.Some? ==>
                && r.value > 0 && r.value >= off && r.value % SIZES[c] == 0
                && r.value - off !in old(live)[c] && live == old(live)[c := old(live)[c] + {r.value - off}]
    {
      hide ListsOk, TagsOk, Total, ClassOk, SlotOk, PageTaken;
      HeadIsFirst(ram.mem, ram.own, heap, off, c, heads[c], lists[c], live[c]);
      ghost var p := 0;
      if heads[c] == 0 {
        var ok;
        ok, p := Refill(c);
        if !ok { return None; }
        SizeFacts(c);
        CutFirst(p, c);
        HeadIsFirst(ram.mem, ram.own, heap, off, c, heads[c], lists[c], live[c]);
      }
      label L:
      r := Some(heads[c]);
      Popped(ram.mem, ram.own, heap, off, c, heads[c], lists[c], live[c]);
      SlotPointer(ram.own, heap, c, lists[c][0], off);
      var next := Load64(ram.mem, heads[c] - off);
      heads := heads[c := next];
      live, lists := live[c := live[c] + {lists[c][0]}], lists[c := lists[c][1..]];
      if old(lists)[c] == [] { TakenLists(old(Now()), old@L(Now()), lists, heap, c, p); }
    }

    /** Give an object back. */
    method CacheFree(c: nat, ptr: nat)
      requires Valid() && c < CLASSES && ptr >= off && ptr - off in live[c]
      modifies ram`mem, this`heads, this`lists, this`live
      ensures Valid()
      ensures live == old(live)[c := old(live)[c] - {ptr - off}]
      ensures Now() == SmallReturned(old(Now()), off, c, ptr - off)
    {
      hide ListsOk, TagsOk, Total, SlotOk, Linked;
      ghost var a := ptr - off;
      ghost var dead := live[c] - {a};
      assert ClassOk(ram.mem, ram.own, heap, off, c, heads[c], lists[c], dead);
      assert SlotOk(ram.own, heap, SIZES[c], c, a) && a !in lists[c];
      hide ClassOk;
      live := live[c := dead];
      Push(c, ptr - off);
    }

    /**
      Allocate `size` bytes: a slot of the smallest class that fits, or a block of the least
      order that covers the pages; more than 1024 pages are refused. A small request fails
      exactly when its list is empty and no page is reachable, a large one exactly when
      fewer pages than its block are.
     */
    method Alloc(size: nat) returns (r: Option<nat>)
      requires Valid()
      modifies ram`mem, ram`heads, ram`freePages, ram`own, this`heads, this`lists, this`live
      ensures Valid()
      ensures size == 0 ==> r == Some(1) && live == old(live) && Now() == old(Now())
      ensures 0 < size <= 4096 ==>
                var c := ClassOf(size);
                && SmallTaken(old(Now()), Now(), off, heap, c, r)
                && (r.None? <==> old(lists)[c] == [] && Total(old(ram.heads)) == 0)
                && (r.None? ==> live == old(live))
                && (r.Some? ==>
                      && r.value > 0 && r.value >= off && r.value % SIZES[c] == 0 && r.value - off !in old(live)[c]
                      && live == old(live)[c := old(live)[c] + {r.value - off}])
      ensures size > 4096 ==> live == old(live)
      ensures (size + 4095) / 4096 > 1024 ==> r == None && Now() == old(Now())
      ensures size > 4096 && (size + 4095) / 4096 <= 1024 ==>
                LargeTaken(old(Now()), Now(), off, heap, (size + 4095) / 4096, r)
      ensures HeldKept(old(Now()), Now())
    {
      hide ListsOk, TagsOk, Total, ClassOk, SlotOk, LargeTaken, SmallTaken, LastOf;
      if size == 0 { return Some(1); }
      var c := SizeClass(size);
      if c < CLASSES {
        r := CacheAlloc(c);
        SmallKeeps(old(Now()), Now(), off, heap, c, r);
        return;
      }
      var pages := (size + 4095) / 4096;
      if pages > 1024 { return None; }
      r := LargeAlloc(pages);
      LargeKeeps(old(Now()), Now(), off, heap, pages, r);
    }

    method LargeAlloc(pages: nat) returns (r: Option<nat>)
      requires Valid() && 0 < pages <= 1024
      modifies ram`heads, ram`freePages, ram`own
      ensures Valid()
      ensures LargeTaken(old(Now()), Now(), off, heap, pages, r)
    {
      hide ListsOk, TagsOk, Total, ClassOk, Granted, Order, LeastOrder, Aligned, Size, Inside, Pow2;
      var order := PagesToOrder(pages);
      OrderBound(pages);
      ghost var own0 := ram.own;
      var p := ram.Alloc(order, Held(heap, Extent(CLASSES)));
      if p.None? { return None; }
      GrantFrame(own0, ram.own, p.value, order, Held(heap, Extent(CLASSES)));
      forall k | 0 <= k < CLASSES
        ensures ClassOk(ram.mem, ram.own, heap, off, k, heads[k], lists[k], live[k])
      {
        GrantKeeps(ram.mem, own0, ram.own, heap, off, k, heads[k], lists[k], live[k], 0, 0);
      }
      return Some(p.value + off);
    }

    /** Pointer and size are those of an allocation that is still live. */
    ghost predicate Matches(ptr: nat, size: nat)
      requires Valid()
      reads this, ram
    {
      if size <= 4096 then ptr >= off && ptr - off in live[ClassOf(size)]
      else (size + 4095) / 4096 <= 1024 ==>
             ptr >= off && LargeHeld(ram.own, heap, ptr - off, Order((size + 4095) / 4096))
    }

    /**
      Give back `size` bytes at `ptr`, as allocated with the same size: a small object
      returns to the front of its class's list, every byte of a large block is free.
     */
    method Free(ptr: nat, size: nat)
      requires Valid() && (size != 0 && ptr != 0 ==> Matches(ptr, size))
      modifies ram`mem, ram`heads, ram`freePages, ram`own, ram`lost, this`heads, this`lists, this`live
      ensures Valid()
      ensures size == 0 || ptr == 0 || (size + 4095) / 4096 > 1024 ==> live == old(live) && Now() == old(Now())
      ensures 0 < size <= 4096 && ptr != 0 ==>
                var c := ClassOf(size);
                && live == old(live)[c := old(live)[c] - {ptr - off}]
                && Now() == SmallReturned(old(Now()), off, c, ptr - off)
      ensures size > 4096 && ptr != 0 && (size + 4095) / 4096 <= 1024 ==>
                && live == old(live)
                && LargeReturned(old(Now()), Now(), ptr - off, Order((size + 4095) / 4096))
      ensures forall x :: !old(ram.own)(x).Free? && !Ours(old(ram.own)(x), heap) ==>
                ram.own(x) == old(ram.own)(x) && ram.mem(x) == old(ram.mem)(x)
      ensures forall k, b, x :: 0 <= k < CLASSES && b in live[k] && b <= x < b + SIZES[k] ==>
                ram.own(x) == old(ram.own)(x) && ram.mem(x) == old(ram.mem)(x)
    {
      hide ListsOk, TagsOk, Total, ClassOk, Order, LargeHeld, SlotOk, Inside, Store64;
      if size == 0 || ptr == 0 { return; }
      var c := SizeClass(size);
      if c < CLASSES {
        SmallFreeKeeps(c, ptr - off);
        CacheFree(c, ptr);
        return;
      }
      var pages := (size + 4095) / 4096;
      if pages <= 1024 {
        LargeFreeKeeps(ptr - off, Order(pages));
        LargeFree(ptr, pages);
      }
    }

    method LargeFree(ptr: nat, pages: nat)
      requires Valid() && 0 < pages <= 1024 && ptr >= off && LargeHeld(ram.own, heap, ptr - off, Order(pages))
      modifies ram`heads, ram`freePages, ram`own, ram`lost
      ensures Valid()
      ensures LargeReturned(old(Now()), Now(), ptr - off, Order(pages))
    {
      hide ListsOk, TagsOk, Total, ClassOk, Order, Aligned, Size, Inside, LeastOrder, Pow2;
      var order := PagesToOrder(pages);
      OrderBound(pages);
      ghost var own0, h0 := ram.own, ram.heads;
      ghost var top := ram.Release(ptr - off, order);
      ReturnKeeps(own0, ram.own, ptr - off, order, h0[top], top, Held(heap, Extent(CLASSES)));
      forall k | 0 <= k < CLASSES
        ensures ClassOk(ram.mem, ram.own, heap, off, k, heads[k], lists[k], live[k])
      {
        OtherClass(ram.mem, own0, ram.mem, ram.own, heap, off, k, heads[k], lists[k], live[k]);
      }
    }

    /** The first word of an object lies in no other object, and in nobody else's memory. */
    lemma SmallFreeKeeps(c: nat, a: nat)
      requires Valid() && c < CLASSES && a in live[c]
      ensures forall k, b :: 0 <= k < CLASSES && b in live[k] && !(k == c && b == a) ==>
                a + 8 <= b || b + SIZES[k] <= a
      ensures forall x :: a <= x < a + 8 ==> Ours(ram.own(x), heap)
    {
      hide ListsOk, TagsOk, Total;
      SizeFacts(c);
      SlotOfClass(ram.mem, ram.own, heap, off, c, heads[c], lists[c], live[c], a);
      hide ClassOk;
      forall k, b | 0 <= k < CLASSES && b in live[k] && !(k == c && b == a)
        ensures a + SIZES[c] <= b || b + SIZES[k] <= a
      {
        Separate(c, a, k, b);
      }
    }

    /** A large block holds no small object. */
    lemma LargeFreeKeeps(a: nat, o: nat)
      requires Valid() && LargeHeld(ram.own, heap, a, o)
      ensures forall k, b, x :: 0 <= k < CLASSES && b in live[k] && b <= x < b + SIZES[k] ==>
                !Inside(x, a, o) && !ram.own(x).Free?
      ensures forall x :: Inside(x, a, o) ==> Ours(ram.own(x), heap)
    {
      hide ListsOk, TagsOk, Total, Inside, ClassOk, Aligned, Size;
      forall k, b, x | 0 <= k < CLASSES && b in live[k] && b <= x < b + SIZES[k]
        ensures !Inside(x, a, o) && !ram.own(x).Free?
      {
        SlotOfClass(ram.mem, ram.own, heap, off, k, heads[k], lists[k], live[k], b);
      }
    }

    /**
      Freeing at once what was allocated puts everything back, to the last byte; if the
      list was empty and a page was to be had, that page stays with the class, cut into slots.
     */
    method AllocThenFree(size: nat) returns (r: Option<nat>)
      requires Valid()
      modifies ram`mem, ram`heads, ram`freePages, ram`own, ram`lost, this`heads, this`lists, this`live
      ensures Valid() && live == old(live)
      ensures size == 0 || r.None? ==> Now() == old(Now())
      ensures size > 4096 ==>
                && lists == old(lists) && ram.freePages == old(ram.freePages) && ram.mem == old(ram.mem)
                && forall x :: !old(ram.own)(x).Free? ==> ram.own(x) == old(ram.own)(x)
      ensures 0 < size <= 4096 && old(lists)[ClassOf(size)] != [] ==>
                Now() == old(Now()).(mem := ram.mem) && forall x :: ram.mem(x) == old(ram.mem)(x)
      ensures 0 < size <= 4096 && old(lists)[ClassOf(size)] == [] && r.Some? ==>
                var c := ClassOf(size);
                && r.value >= off && LastOf(r.value - off, c) >= 0
                && var p := LastOf(r.value - off, c);
                   && PageTaken(old(Now()), Now(), heap, c, p)
                   && lists == old(lists)[c := Cut(p, SIZES[c], 4096 / SIZES[c])]
    {
      hide ListsOk, TagsOk, Total, ClassOk, Order, SlotOk, PageTaken, Cut, Store64, Load64, LinkAt;
      ghost var c := ClassOf(size);
      if 0 < size <= 4096 { FirstLink(ram.mem, ram.own, heap, off, c, heads[c], lists[c], live[c]); }
      r := Alloc(size);
      label L:
      if r.Some? && (size <= 4096 || (size + 4095) / 4096 <= 1024) {
        Free(r.value, size);
        if 0 < size <= 4096 {
          assert live == old(live);
          if old(lists)[c] != [] {
            RestoredSlot(old(Now()), Now(), off, c);
          } else {
            RestoredPage(old(Now()), old@L(Now()), Now(), off, heap, c, r.value - off);
          }
        }
      }
    }

    /** A slot of class `c`: on its list, or live. */
    ghost predicate IsSlot(c: nat, a: nat)
      requires |lists| == CLASSES && |live| == CLASSES && c < CLASSES
      reads this
    {
      a in lists[c] || a in live[c]
    }

    /** Free slots and live objects, of any classes, are pairwise disjoint. */
    lemma Separate(c: nat, a: nat, d: nat, b: nat)
      requires Valid() && c < CLASSES && d < CLASSES && IsSlot(c, a) && IsSlot(d, b) && !(c == d && a == b)
      ensures a + SIZES[c] <= b || b + SIZES[d] <= a
      ensures (a + off) % SIZES[c] == 0
    {
      hide ListsOk, TagsOk, Total;
      SizeFacts(c);
      SizeFacts(d);
      SlotOfClass(ram.mem, ram.own, heap, off, c, heads[c], lists[c], live[c], a);
      SlotOfClass(ram.mem, ram.own, heap, off, d, heads[d], lists[d], live[d], b);
      if c == d {
        SlotsApart(SIZES[c], a, b);
      } else {
        hide ClassOk;
        var x := if a < b then b else a;
        assert a <= x < a + SIZES[c] ==> ram.own(x) == Held(heap, Extent(c));
        assert b <= x < b + SIZES[d] ==> ram.own(x) == Held(heap, Extent(d));
      }
      SlotPointer(ram.own, heap, c, a, off);
    }

    /** Whatever is not idle may be written, objects above all: no free list notices. */
    method WriteObjects(m: Mem)
      requires Valid() && forall x :: m(x) != ram.mem(x) ==> !Idle(ram.own, heap, live, x)
      modifies ram`mem
      ensures Valid() && ram.mem == m
    {
      hide ListsOk, TagsOk, Total, ClassOk;
      forall k | 0 <= k < CLASSES
        ensures ClassOk(m, ram.own, heap, off, k, heads[k], lists[k], live[k])
      {
        forall x | m(x) != ram.mem(x) && ram.own(x) == Held(heap, Extent(k))
          ensures InObject(live[k], SIZES[k], x)
        {
          assert !Idle(ram.own, heap, live, x);
        }
        LiveWrite(ram.mem, ram.own, m, heap, off, k, heads[k], lists[k], live[k]);
      }
      ram.mem := m;
    }
  }

  lemma SlotOfClass(m: Mem, own: Owners, heap: nat, off: nat, c: nat, head: nat, list: seq<nat>, live: set<nat>, a: nat)
    requires c < CLASSES && ClassOk(m, own, heap, off, c, head, list, live) && (a in list || a in live)
    ensures SlotOk(own, heap, SIZES[c], c, a) && a + off != 0
  {
    hide SlotOk, Linked;
  }

  lemma HeadIsFirst(m: Mem, own: Owners, heap: nat, off: nat, c: nat, head: nat, list: seq<nat>, live: set<nat>)
    requires c < CLASSES && ClassOk(m, own, heap, off, c, head, list, live)
    ensures head == Ptr(off, list, 0) && (head == 0 <==> list == [])
  {
    hide SlotOk, Linked;
  }

  /** Pointers are aligned to their class. */
  lemma SlotPointer(own: Owners, heap: nat, c: nat, a: nat, off: nat)
    requires c < CLASSES && SlotOk(own, heap, SIZES[c], c, a) && off % 4096 == 0
    ensures (a + off) % SIZES[c] == 0
  {
    SizeFacts(c);
    PageMultiple(c, off);
    var size := SIZES[c];
    var k := off / size;
    assert off == k * size;
    MultipleSum(size, a, k);
  }

  lemma GrantFrame(own: Owners, own': Owners, a: nat, o: nat, t: Owner)
    requires Granted(own, own', a, o, t)
    ensures forall x :: !own(x).Free? ==> own'(x) == own(x)
    ensures forall x :: Inside(x, a, o) ==> own'(x) == t
  {
    hide Inside;
  }

  /** The page is held for class `c`, and its slots are not seen at address 0. */
  ghost predicate PageHeld(own: Owners, heap: nat, c: nat, p: nat, off: nat)
  {
    && p % 4096 == 0 && p + 4096 <= PHYS_LIMIT && p + off != 0
    && forall x :: p <= x < p + 4096 ==> own(x) == Held(heap, Extent(c))
  }

  lemma PageGranted(own: Owners, own': Owners, heap: nat, c: nat, p: nat, off: nat)
    requires off > 0 || own(0) == Kernel
    requires Aligned(p, 0) && p + Size(0) <= PHYS_LIMIT && Granted(own, own', p, 0, Held(heap, Extent(c)))
    ensures PageHeld(own', heap, c, p, off) && (own(0) == Kernel ==> own'(0) == Kernel)
    ensures forall x :: p <= x < p + 4096 ==> own(x).Free?
    ensures forall x :: !own(x).Free? ==> own'(x) == own(x)
  {
    AlignedPage(p, 0);
    assert Size(0) == 4096;
    assert forall x :: Inside(x, p, 0) <==> p <= x < p + 4096;
    hide Inside, Aligned, Size;
  }

  lemma GrantKeeps(m: Mem, own: Owners, own': Owners, heap: nat, off: nat, k: nat, head: nat, list: seq<nat>,
                   live: set<nat>, c: nat, p: nat)
    requires k < CLASSES && ClassOk(m, own, heap, off, k, head, list, live)
    requires forall x :: !own(x).Free? ==> own'(x) == own(x)
    ensures ClassOk(m, own', heap, off, k, head, list, live)
  {
    hide ClassOk;
    OtherClass(m, own, m, own', heap, off, k, head, list, live);
  }

  /** Slots and objects lie in held memory, so not in a page that was free. */
  lemma NotSlots(m: Mem, own: Owners, heap: nat, off: nat, c: nat, head: nat, list: seq<nat>, live: set<nat>, p: nat)
    requires c < CLASSES && ClassOk(m, own, heap, off, c, head, list, live)
             && forall x :: p <= x < p + 4096 ==> own(x).Free?
    ensures forall x :: p <= x < p + 4096 ==> x !in list && x !in live
  {
    SizeFacts(c);
    forall i | 0 <= i < |list|
      ensures !own(list[i]).Free?
    {
      assert SlotOk(own, heap, SIZES[c], c, list[i]);
    }
    forall a | a in live
      ensures !own(a).Free?
    {
      assert SlotOk(own, heap, SIZES[c], c, a);
    }
  }

  lemma SlotInPage(own: Owners, heap: nat, c: nat, p: nat, i: nat, off: nat)
    requires c < CLASSES && PageHeld(own, heap, c, p, off) && i < 4096 / SIZES[c]
    ensures p + i * SIZES[c] + SIZES[c] <= p + 4096 && SlotOk(own, heap, SIZES[c], c, p + i * SIZES[c])
    ensures p + (i + 1) * SIZES[c] == p + i * SIZES[c] + SIZES[c]
  {
    SizeFacts(c);
    var size, n := SIZES[c], 4096 / SIZES[c];
    Gap2(size, i, n);
    assert p % size == 0 by { PageMultiple(c, p); }
    MultipleSum(size, p, i);
  }

  lemma Gap2(size: nat, i: nat, n: nat)
    requires i < n
    ensures i * size + size <= n * size && (i + 1) * size == i * size + size
  {
    Gap(size, i, n);
  }

  lemma PageMultiple(c: nat, p: nat)
    requires c < CLASSES && p % 4096 == 0
    ensures p % SIZES[c] == 0
  {
    SizeFacts(c);
    var size, n, k := SIZES[c], 4096 / SIZES[c], p / 4096;
    assert p == 4096 * k == size * (n * k) by { assert 4096 * k == (size * n) * k == size * (n * k); }
    MultipleMod(n * k, size);
  }

  lemma MultipleSum(size: nat, p: nat, i: nat)
    requires size > 0 && p % size == 0
    ensures (p + i * size) % size == 0
  {
    var k := p / size;
    assert p + i * size == size * (k + i) by { assert p == size * k; }
    MultipleMod(k + i, size);
  }

  lemma CutNone(p: nat, size: nat, lists: seq<seq<nat>>, c: nat)
    requires c < |lists|
    ensures lists == lists[c := Cut(p, size, 0) + lists[c]]
  {
    assert [] + lists[c] == lists[c];
  }

  lemma CutNext(p: nat, size: nat, i: nat, was: seq<nat>)
    ensures [p + i * size] + (Cut(p, size, i) + was) == Cut(p, size, i + 1) + was
  {
  }

  /** The next slot is not among those already pushed. */
  lemma SlotFresh(p: nat, size: nat, i: nat, was: seq<nat>)
    requires size > 0 && p + i * size !in was
    ensures p + i * size !in Cut(p, size, i) + was
  {
    if p + i * size in Cut(p, size, i) { CutBelow(p, size, i, p + i * size); }
  }

  lemma CutFirst(p: nat, c: nat)
    requires c < CLASSES
    ensures var n := 4096 / SIZES[c];
            && n > 0 && Cut(p, SIZES[c], n)[0] == p + 4096 - SIZES[c]
            && Cut(p, SIZES[c], n)[1..] == Cut(p, SIZES[c], n - 1)
            && Cut(p, SIZES[c], n) + [] == Cut(p, SIZES[c], n)
  {
    SizeFacts(c);
    var n, size := 4096 / SIZES[c], SIZES[c];
    assert (n - 1) * size == n * size - size;
  }

  lemma TakenLists(s: State, s1: State, l: seq<seq<nat>>, heap: nat, c: nat, p: nat)
    requires PageTaken(s, s1, heap, c, p)
    ensures PageTaken(s, s1.(lists := l), heap, c, p)
  {
  }

  lemma FirstLink(m: Mem, own: Owners, heap: nat, off: nat, c: nat, head: nat, list: seq<nat>, live: set<nat>)
    requires c < CLASSES && ClassOk(m, own, heap, off, c, head, list, live)
    ensures list != [] ==> Load64(m, list[0]) == Ptr(off, list, 1)
  {
    hide SlotOk;
    if list != [] { assert LinkAt(m, off, list, 0); }
  }

  /** The link written back is the one that was there. */
  lemma RestoredSlot(s: State, s': State, off: nat, c: nat)
    requires c < CLASSES && |s.lists| == CLASSES && s.lists[c] != []
    requires Load64(s.mem, s.lists[c][0]) == Ptr(off, s.lists[c], 1)
    requires s' == SmallReturned(s.(lists := s.lists[c := s.lists[c][1..]]), off, c, s.lists[c][0])
    ensures s' == s.(mem := s'.mem) && forall x :: s'.mem(x) == s.mem(x)
  {
    hide Store64, Load64;
    var l := s.lists[c];
    assert [l[0]] + l[1..] == l && Ptr(off, l[1..], 0) == Ptr(off, l, 1);
    assert s.lists[c := l[1..]][c := l] == s.lists;
    forall x ensures s'.mem(x) == s.mem(x) { Store64Loaded(s.mem, l[0], x); }
  }

  lemma RestoredPage(s: State, s1: State, s2: State, off: nat, heap: nat, c: nat, a: nat)
    requires c < CLASSES && |s.lists| == |s1.lists| == CLASSES && LastOf(a, c) >= 0
    requires PageTaken(s, s1, heap, c, LastOf(a, c))
    requires s1.lists == s.lists[c := Cut(LastOf(a, c), SIZES[c], 4096 / SIZES[c] - 1)]
    requires s2 == SmallReturned(s1, off, c, a)
    ensures PageTaken(s, s2, heap, c, LastOf(a, c))
    ensures s2.lists == s.lists[c := Cut(LastOf(a, c), SIZES[c], 4096 / SIZES[c])]
  {
    hide Store64, Granted, Total;
    SizeFacts(c);
    CutFirst(LastOf(a, c), c);
    var n := 4096 / SIZES[c];
    var l := Cut(LastOf(a, c), SIZES[c], n);
    assert l == [l[0]] + l[1..];
  }

  /** A link written into a slot of class `c` does not concern the other classes. */
  lemma OthersKept(m: Mem, own: Owners, m': Mem, heap: nat, off: nat, c: nat, a: nat, heads: seq<nat>,
                   lists: seq<seq<nat>>, live: seq<set<nat>>)
    requires c < CLASSES && |heads| == CLASSES && |lists| == CLASSES && |live| == CLASSES
    requires SlotOk(own, heap, SIZES[c], c, a) && forall x :: m'(x) != m(x) ==> a <= x < a + 8
    requires forall k :: 0 <= k < CLASSES ==> ClassOk(m, own, heap, off, k, heads[k], lists[k], live[k])
    ensures forall k :: 0 <= k < CLASSES && k != c ==> ClassOk(m', own, heap, off, k, heads[k], lists[k], live[k])
  {
    hide ClassOk;
    SizeFacts(c);
    forall k | 0 <= k < CLASSES && k != c
      ensures ClassOk(m', own, heap, off, k, heads[k], lists[k], live[k])
    {
      OtherClass(m, own, m', own, heap, off, k, heads[k], lists[k], live[k]);
    }
  }
}
