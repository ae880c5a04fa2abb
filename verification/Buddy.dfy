/**
  The buddy frame allocator (mm/src/buddy.rs).

  There is one free list per order, and each list holds at most one block.
  Every byte of physical memory carries a ghost owner tag, so that "two things
  never share a frame" is simply "a byte has one tag".
 */
module Buddy {
  import opened Words

  const MAX_ORDER: nat := 11
  /** Physical addresses fit the 52 address bits of a page-table entry. */
  const PHYS_LIMIT: nat := 0x10_0000_0000_0000

  /** What a held frame is used for inside address space number `space`. */
  datatype Use = Table(level: nat, prefix: nat) | Page(vpn: nat) | Extent(slot: nat)

  datatype Owner =
    | Free(order: nat)                // on the free list of that order
    | Lost                            // displaced from a list head by `Free`
    | Kernel                          // never managed by the allocator
    | Held(space: nat, use: Use)      // handed out

  type Owners = int -> Owner
  /** The head of each free list, indexed by order. */
  type Lists = h: seq<Option<nat>> | |h| == MAX_ORDER witness seq(MAX_ORDER, _ => None)

  function Size(o: nat): (s: nat)
    ensures s > 0
  {
    4096 * Pow2(o)
  }

  predicate Inside(x: int, a: int, o: nat)
  {
    a <= x < a + Size(o)
  }

  predicate Aligned(a: nat, o: nat)
  {
    a % Size(o) == 0
  }

  // -------------------------------------------------- alignment arithmetic

  lemma MultipleMod(k: int, s: nat)
    requires s > 0
    ensures (k * s) % s == 0
  {
    var q, r := (k * s) / s, (k * s) % s;
    assert (k - q) * s == r;
    if k - q >= 1 { ProductAtLeast(k - q, s); }
    if k - q <= -1 { ProductAtLeast(q - k, s); }
  }

  lemma ProductAtLeast(k: int, s: nat)
    requires k >= 1
    ensures k * s >= s
  {
  }

  lemma SizeDoubles(o: nat)
    ensures Size(o + 1) == 2 * Size(o)
  {
  }

  lemma SizeIsPow2(o: nat)
    ensures Size(o) == Pow2(12 + o)
  {
    Pow2Add(12, o);
    assert Pow2(6) == 64;
    Pow2Add(6, 6);
  }

  lemma AlignedHalves(a: nat, o: nat)
    requires Aligned(a, o + 1)
    ensures Aligned(a, o) && Aligned(a + Size(o), o)
  {
    SizeDoubles(o);
    var s, q := Size(o), a / Size(o + 1);
    assert a == q * (2 * s);
    Regroup(q, s);
    assert a == (2 * q) * s && a + s == (2 * q + 1) * s;
    MultipleMod(2 * q, s);
    MultipleMod(2 * q + 1, s);
  }

  lemma AlignedPage(a: nat, o: nat)
    requires Aligned(a, o)
    ensures a % 4096 == 0
    decreases o
  {
    if o > 0 {
      AlignedHalves(a, o - 1);
      AlignedPage(a, o - 1);
    }
  }

  lemma EvenMultiple(k: int, s: nat)
    requires s > 0 && k % 2 == 0
    ensures (k * s) % (2 * s) == 0
  {
    var h := k / 2;
    Regroup(h, s);
    assert k * s == h * (2 * s);
    MultipleMod(h, 2 * s);
  }

  lemma Neighbour(q: nat, s: nat)
    requires s > 0
    ensures q % 2 == 0 ==> (q + 1) * s == q * s + s && (q * s) % (2 * s) == 0
    ensures q % 2 == 1 ==> (q - 1) * s == q * s - s && (q * s - s) % (2 * s) == 0
  {
    if q % 2 == 0 {
      EvenMultiple(q, s);
    } else {
      assert (q - 1) * s == q * s - s;
      EvenMultiple(q - 1, s);
    }
  }

  lemma XorSize(q: nat, o: nat)
    ensures Xor(q * Size(o), Size(o)) == (if q % 2 == 0 then q + 1 else q - 1) * Size(o)
  {
    hide Xor;
    SizeIsPow2(o);
    XorFlips(q, 12 + o);
  }

  /** A block and its buddy are the two halves of one block of the next order. */
  lemma BuddyPair(a: nat, o: nat)
    requires Aligned(a, o)
    ensures var b := Xor(a, Size(o));
            && (b == a + Size(o) || b == a - Size(o))
            && Aligned(if a < b then a else b, o + 1)
  {
    var s, q := Size(o), a / Size(o);
    assert a == q * s by { hide Xor; }
    SizeDoubles(o);
    assert Xor(a, s) == (if q % 2 == 0 then a + s else a - s) by {
      XorSize(q, o);
      Neighbour(q, s);
    }
    assert (if q % 2 == 0 then a else a - s) % (2 * s) == 0 by { Neighbour(q, s); }
  }

  // ------------------------------------------------------------ free lists

  /** Every listed block is aligned to its own size and lies in physical memory. */
  ghost predicate ListsOk(h: Lists)
  {
    forall o :: 0 <= o < |h| && h[o].Some? ==>
      Aligned(h[o].value, o) && h[o].value + Size(o) <= PHYS_LIMIT
  }

  /** The bytes tagged `Free(o)` are exactly those of the block on list `o`. */
  ghost predicate TagsOk(h: Lists, own: Owners)
  {
    && (forall o, x :: 0 <= o < |h| && h[o].Some? && Inside(x, h[o].value, o) ==> own(x) == Free(o))
    && (forall x :: own(x).Free? ==>
          own(x).order < |h| && h[own(x).order].Some? && Inside(x, h[own(x).order].value, own(x).order))
  }

  ghost function Retag(own: Owners, a: int, o: nat, t: Owner): (own': Owners)
    ensures forall x :: own'(x) == if Inside(x, a, o) then t else own(x)
  {
    x => if Inside(x, a, o) then t else own(x)
  }

  /** Pages reachable from the first `n` lists. */
  function Pages(h: Lists, n: nat): nat
    requires n <= |h|
  {
    if n == 0 then 0
    else Pages(h, n - 1) + if h[n - 1].Some? then Pow2(n - 1) else 0
  }

  /** Pages reachable from all lists. */
  function Total(h: Lists): nat
  {
    Pages(h, MAX_ORDER)
  }

  function Weight(b: Option<nat>, o: nat): nat
  {
    if b.Some? then Pow2(o) else 0
  }

  lemma {:induction false} PagesUpdate(h: Lists, n: nat, o: nat, b: Option<nat>)
    requires n <= |h| && o < |h|
    ensures Pages(h[o := b], n) == Pages(h, n) + if o < n then Weight(b, o) - Weight(h[o], o) else 0
  {
    if n > 0 { PagesUpdate(h, n - 1, o, b); }
  }

  lemma {:induction false} PagesBelow(h: Lists, n: nat)
    requires n <= |h|
    ensures Pages(h, n) < Pow2(n)
  {
    if n > 0 { PagesBelow(h, n - 1); }
  }

  lemma {:induction false} PagesOfEmpty(h: Lists, lo: nat, n: nat)
    requires lo <= n <= |h| && forall o :: lo <= o < n ==> h[o].None?
    ensures Pages(h, n) == Pages(h, lo)
  {
    if lo < n { PagesOfEmpty(h, lo, n - 1); }
  }

  lemma {:induction false} PagesOfListed(h: Lists, o: nat, n: nat)
    requires o < n <= |h| && h[o].Some?
    ensures Pages(h, n) >= Pow2(o)
  {
    if o < n - 1 { PagesOfListed(h, o, n - 1); }
  }

  /**
    With one block per order the lists are the binary digits of the number of reachable
    pages: a block of `order` can be had exactly when that many pages are reachable.
   */
  lemma NoFragmentation(h: Lists, order: nat)
    requires order < MAX_ORDER
    ensures Total(h) < Pow2(order) <==> forall o :: order <= o < MAX_ORDER ==> h[o].None?
  {
    if o :| order <= o < MAX_ORDER && h[o].Some? {
      PagesOfListed(h, o, MAX_ORDER);
      Pow2Mono(order, o);
    } else {
      PagesOfEmpty(h, order, MAX_ORDER);
      PagesBelow(h, order);
    }
  }

  /** Blocks on different lists are disjoint. */
  lemma ListsDisjoint(h: Lists, own: Owners, o: nat, p: nat)
    requires ListsOk(h) && TagsOk(h, own)
    requires o < p < MAX_ORDER && h[o].Some? && h[p].Some?
    ensures h[o].value + Size(o) <= h[p].value || h[p].value + Size(p) <= h[o].value
  {
    var a, b := h[o].value, h[p].value;
    var x := if a < b then b else a;
    assert Inside(x, a, o) ==> own(x) == Free(o);
    assert Inside(x, b, p) ==> own(x) == Free(p);
  }

  /** `own'` is `own` after granting the free block (a, o) to `t`; other free bytes stay free. */
  ghost predicate Granted(own: Owners, own': Owners, a: int, o: nat, t: Owner)
  {
    && (forall x :: Inside(x, a, o) ==> own(x).Free? && own'(x) == t)
    && (forall x :: !Inside(x, a, o) ==> if own(x).Free? then own'(x).Free? else own'(x) == own(x))
  }

  /** Taking the block off list `o` and giving it the tag `t` keeps the lists exact. */
  lemma TakeStep(h: Lists, own: Owners, o: nat, t: Owner)
    requires ListsOk(h) && TagsOk(h, own) && o < MAX_ORDER && h[o].Some? && !t.Free?
    ensures Aligned(h[o].value, o) && h[o].value + Size(o) <= PHYS_LIMIT
    ensures forall x :: Inside(x, h[o].value, o) ==> own(x) == Free(o)
    ensures Granted(own, Retag(own, h[o].value, o, t), h[o].value, o, t)
    ensures TagsOk(h[o := None], Retag(own, h[o].value, o, t))
    ensures ListsOk(h[o := None])
    ensures Total(h) == Total(h[o := None]) + Pow2(o)
  {
    PagesUpdate(h, MAX_ORDER, o, None);
    var own' := Retag(own, h[o].value, o, t);
    forall x | own'(x).Free?
      ensures own'(x).order != o
    {
      assert own(x) == own'(x);
    }
  }

  /** Putting a block that carries no `Free` tag on an empty list keeps the lists exact. */
  lemma PutStep(h: Lists, own: Owners, o: nat, a: nat)
    requires ListsOk(h) && TagsOk(h, own) && o < MAX_ORDER && h[o].None?
    requires Aligned(a, o) && a + Size(o) <= PHYS_LIMIT
    requires forall x :: Inside(x, a, o) ==> !own(x).Free?
    ensures TagsOk(h[o := Some(a)], Retag(own, a, o, Free(o)))
    ensures ListsOk(h[o := Some(a)])
    ensures Total(h[o := Some(a)]) == Total(h) + Pow2(o)
  {
    PagesUpdate(h, MAX_ORDER, o, Some(a));
  }

  /** Splitting: the upper half of a granted block goes back on the empty list below. */
  lemma SplitStep(h: Lists, own0: Owners, own: Owners, a: nat, o: nat, t: Owner)
    requires ListsOk(h) && TagsOk(h, own) && o + 1 < MAX_ORDER && h[o].None? && !t.Free?
    requires Aligned(a, o + 1) && a + Size(o + 1) <= PHYS_LIMIT
    requires Granted(own0, own, a, o + 1, t)
    ensures var b := a + Size(o); var h' := h[o := Some(b)]; var own' := Retag(own, b, o, Free(o));
            && ListsOk(h') && TagsOk(h', own')
            && Granted(own0, own', a, o, t)
            && Total(h') == Total(h) + Pow2(o)
    ensures Aligned(a, o) && a + Size(o) <= PHYS_LIMIT
  {
    SizeDoubles(o);
    AlignedHalves(a, o);
    hide Size;
    PutStep(h, own, o, a + Size(o));
  }

  /** The lowest order at or above `order` with a free block. */
  method FirstOccupied(h: Lists, order: nat) returns (o: nat)
    requires order <= MAX_ORDER
    ensures order <= o <= MAX_ORDER
    ensures forall k :: order <= k < o ==> h[k].None?
    ensures o < MAX_ORDER ==> h[o].Some?
  {
    o := order;
    while o < MAX_ORDER && h[o].None?
      invariant order <= o <= MAX_ORDER
      invariant forall k :: order <= k < o ==> h[k].None?
    {
      o := o + 1;
    }
  }

  /** Split a granted block of order `o` down to `order`; the lists in between are empty. */
  method SplitDown(h: Lists, addr: nat, o: nat, order: nat, ghost own0: Owners, ghost own: Owners, ghost t: Owner)
    returns (h': Lists, ghost own': Owners)
    requires ListsOk(h) && TagsOk(h, own) && order <= o < MAX_ORDER && !t.Free?
    requires Aligned(addr, o) && addr + Size(o) <= PHYS_LIMIT
    requires forall k :: order <= k < o ==> h[k].None?
    requires Granted(own0, own, addr, o, t)
    ensures ListsOk(h') && TagsOk(h', own')
    ensures Aligned(addr, order) && addr + Size(order) <= PHYS_LIMIT
    ensures Granted(own0, own', addr, order, t)
    ensures Total(h') + Pow2(order) == Total(h) + Pow2(o)
  {
    hide ListsOk, TagsOk, Total, Aligned, Size, Granted, Inside;
    h', own' := h, own;
    var split := o;
    while split > order
      invariant order <= split <= o
      invariant ListsOk(h') && TagsOk(h', own')
      invariant Aligned(addr, split) && addr + Size(split) <= PHYS_LIMIT
      invariant forall k :: order <= k < split ==> h'[k].None?
      invariant Granted(own0, own', addr, split, t)
      invariant Total(h') + Pow2(split) == Total(h) + Pow2(o)
    {
      split := split - 1;
      SplitStep(h', own0, own', addr, split, t);
      var buddy := addr + Size(split);
      h' := h'[split := Some(buddy)];
      own' := Retag(own', buddy, split, Free(split));
    }
  }

  /**
    The block (cur, co) being returned: it has swallowed the block (a, o) and free
    buddies only, none of its bytes is tagged free, and nothing else has changed.
   */
  ghost predicate Merged(own0: Owners, own: Owners, a: int, o: nat, cur: int, co: nat)
  {
    && (forall x :: Inside(x, a, o) ==> Inside(x, cur, co))
    && (forall x :: Inside(x, cur, co) ==> !own(x).Free? && (Inside(x, a, o) || own0(x).Free?))
    && (forall x :: !Inside(x, cur, co) ==> own(x) == own0(x))
  }

  /** `h'` is `h` with the lists in [lo, hi) emptied. */
  predicate Emptied(h: Lists, h': Lists, lo: nat, hi: nat)
  {
    forall k :: 0 <= k < MAX_ORDER ==> h'[k] == if lo <= k < hi then None else h[k]
  }

  /** One merge with the buddy at the head of the list. */
  lemma MergeStep(h: Lists, own0: Owners, own: Owners, a: nat, o: nat, cur: nat, co: nat)
    requires ListsOk(h) && TagsOk(h, own) && co + 1 < MAX_ORDER
    requires Aligned(cur, co) && cur + Size(co) <= PHYS_LIMIT && Merged(own0, own, a, o, cur, co)
    requires h[co] == Some(Xor(cur, Size(co)))
    ensures var b := Xor(cur, Size(co)); var cur' := if cur < b then cur else b;
            var own' := Retag(own, b, co, Lost);
            && ListsOk(h[co := None]) && TagsOk(h[co := None], own')
            && Aligned(cur', co + 1) && cur' + Size(co + 1) <= PHYS_LIMIT
            && Merged(own0, own', a, o, cur', co + 1)
            && Total(h) == Total(h[co := None]) + Pow2(co)
  {
    BuddyPair(cur, co);
    SizeDoubles(co);
    TakeStep(h, own, co, Lost);
    hide Size, Xor, TagsOk, ListsOk, Total;
    var b := Xor(cur, Size(co));
    assert forall x :: Inside(x, b, co) ==> own0(x).Free? by {
      forall x | Inside(x, b, co) ensures own0(x).Free? { assert own(x) == Free(co); }
    }
  }

  /** The free lists after block (a, o) came back: merged upwards while its buddy heads the list, then stored. */
  function ListsAfter(h: Lists, a: nat, o: nat): Lists
    requires o < MAX_ORDER
    decreases MAX_ORDER - o
  {
    var buddy := Xor(a, Size(o));
    if o < MAX_ORDER - 1 && h[o] == Some(buddy) then ListsAfter(h[o := None], if a < buddy then a else buddy, o + 1)
    else h[o := Some(a)]
  }

  /** Merge the block (a, order) upwards while the buddy heads its list. */
  method MergeUp(h: Lists, a: nat, order: nat, ghost own: Owners)
    returns (h': Lists, cur: nat, top: nat, ghost own': Owners)
    requires ListsOk(h) && TagsOk(h, own) && order < MAX_ORDER
    requires Aligned(a, order) && a + Size(order) <= PHYS_LIMIT
    requires forall x :: Inside(x, a, order) ==> !own(x).Free?
    ensures ListsOk(h') && TagsOk(h', own')
    ensures order <= top < MAX_ORDER && Aligned(cur, top) && cur + Size(top) <= PHYS_LIMIT
    ensures Merged(own, own', a, order, cur, top)
    ensures Emptied(h, h', order, top)
    ensures Total(h') + Pow2(top) == Total(h) + Pow2(order)
    ensures top < MAX_ORDER - 1 ==> h'[top] != Some(Xor(cur, Size(top)))
    ensures ListsAfter(h, a, order) == h'[top := Some(cur)]
  {
    h', cur, top, own' := h, a, order, own;
    assert Merged(own, own', a, order, cur, top);
    hide ListsOk, TagsOk, Total, Aligned, Size, Merged, Inside, Xor, Pow2, Retag;
    while top < MAX_ORDER - 1 && h'[top] == Some(Xor(cur, Size(top)))
      invariant order <= top < MAX_ORDER
      invariant ListsOk(h') && TagsOk(h', own')
      invariant Aligned(cur, top) && cur + Size(top) <= PHYS_LIMIT
      invariant Merged(own, own', a, order, cur, top)
      invariant Emptied(h, h', order, top)
      invariant Total(h') + Pow2(top) == Total(h) + Pow2(order)
      invariant ListsAfter(h', cur, top) == ListsAfter(h, a, order)
    {
      MergeStep(h', own, own', a, order, cur, top);
      var buddy := Xor(cur, Size(top));
      own' := Retag(own', buddy, top, Lost);
      h' := h'[top := None];
      cur := if cur < buddy then cur else buddy;
      top := top + 1;
    }
  }

  /**
    `own'` is `own` after returning the block (a, o): its bytes are free, no byte
    held by anyone else changes, and the only free bytes that stop being free are
    those of the displaced block, if there is one.
   */
  ghost predicate Returned(own: Owners, own': Owners, a: int, o: nat, displaced: Option<nat>, top: nat)
  {
    && (forall x :: Inside(x, a, o) ==> own'(x).Free?)
    && (forall x :: !Inside(x, a, o) && !own(x).Free? ==> own'(x) == own(x))
    && (forall x :: own(x).Free? ==>
          if displaced.Some? && Inside(x, displaced.value, top) then own'(x) == Lost else own'(x).Free?)
  }

  /** Storing the merged block displaces whatever heads its list. */
  lemma StoreStep(h: Lists, own0: Owners, own: Owners, a: nat, o: nat, cur: nat, top: nat)
    returns (own': Owners)
    requires ListsOk(h) && TagsOk(h, own) && top < MAX_ORDER
    requires Aligned(cur, top) && cur + Size(top) <= PHYS_LIMIT && Merged(own0, own, a, o, cur, top)
    requires forall x :: Inside(x, a, o) ==> !own0(x).Free?
    ensures var h' := h[top := Some(cur)];
            && ListsOk(h') && TagsOk(h', own')
            && Returned(own0, own', a, o, h[top], top)
            && Total(h') + Weight(h[top], top) == Total(h) + Pow2(top)
  {
    hide Size, Aligned, Total;
    var own1, h1 := own, h;
    if h[top].Some? {
      TakeStep(h, own, top, Lost);
      own1, h1 := Retag(own, h[top].value, top, Lost), h[top := None];
    }
    PutStep(h1, own1, top, cur);
    assert h1[top := Some(cur)] == h[top := Some(cur)];
    own' := Retag(own1, cur, top, Free(top));
    hide TagsOk, ListsOk;
  }

  // --------------------------------------------------------- initialisation

  datatype Region = Region(base: nat, length: nat, available: bool)

  /** 2^order pages starting at page number `page`. */
  datatype Block = Block(page: nat, order: nat)

  /** The pages of a region that initialisation hands to the allocator: [FirstPage, EndPage). */
  function FirstPage(r: Region): (p: nat)
    ensures p % 1024 == 0 && r.base <= 4096 * p < r.base + 0x40_0000
  {
    (r.base + 0x3F_FFFF) / 0x40_0000 * 1024
  }

  function EndPage(r: Region): (p: nat)
    ensures 4096 * p <= r.base + r.length < 4096 * (p + 1)
  {
    (r.base + r.length) / 4096
  }

  predicate Seeds(r: Region)
  {
    r.available && FirstPage(r) < EndPage(r)
  }

  function SpanPages(r: Region): nat
  {
    if Seeds(r) then EndPage(r) - FirstPage(r) else 0
  }

  function TotalPages(rs: seq<Region>): nat
  {
    if rs == [] then 0 else TotalPages(rs[..|rs| - 1]) + SpanPages(rs[|rs| - 1])
  }

  function Log2Floor(n: nat): (l: nat)
    requires n > 0
    ensures Pow2(l) <= n < 2 * Pow2(l)
  {
    if n == 1 then 0 else 1 + Log2Floor(n / 2)
  }

  function TrailingZeros(n: nat): nat
  {
    if n == 0 then 64 else if n % 2 == 1 then 0 else 1 + TrailingZeros(n / 2)
  }

  /** For a non-zero number, 2^k divides n exactly when k is at most the trailing zeros. */
  lemma {:induction false} TrailingZerosDivide(n: nat, k: nat)
    requires n > 0
    ensures n % Pow2(k) == 0 <==> k <= TrailingZeros(n)
  {
    if k > 0 {
      var h, p := n / 2, Pow2(k - 1);
      if n % 2 == 0 {
        TrailingZerosDivide(h, k - 1);
        DoubleDivides(h, p);
      } else {
        OddNotDivided(n, p);
      }
    }
  }

  lemma DoubleDivides(h: nat, p: nat)
    requires p > 0
    ensures (2 * h) % (2 * p) == 0 <==> h % p == 0
  {
    var q, r := h / p, h % p;
    assert h == q * p + r;
    assert 2 * h == q * (2 * p) + 2 * r by { Regroup(q, p); }
    MultipleMod(q, 2 * p);
    RemainderUnique(2 * h, 2 * p, q, 2 * r);
  }

  lemma RemainderUnique(n: int, d: nat, q: int, r: int)
    requires d > 0 && 0 <= r < d && n == q * d + r
    ensures n % d == r
  {
    var q', r' := n / d, n % d;
    assert (q - q') * d == r' - r;
    if q - q' >= 1 { ProductAtLeast(q - q', d); }
    if q - q' <= -1 { ProductAtLeast(q' - q, d); }
  }

  lemma OddNotDivided(n: nat, p: nat)
    requires p > 0 && n % 2 == 1
    ensures n % (2 * p) != 0
  {
    var q := n / (2 * p);
    if n % (2 * p) == 0 {
      assert n == q * (2 * p);
      Regroup(q, p);
      assert false;
    }
  }

  /** The order of the block released at page `n` when `room` pages are left. */
  function SeedOrder(n: nat, room: nat): (o: nat)
    requires room > 0
    ensures o < MAX_ORDER
  {
    var byRoom := Log2Floor(room);
    var byAlign := TrailingZeros(n);
    var maxOrder := if byRoom < MAX_ORDER - 1 then byRoom else MAX_ORDER - 1;
    var alignOrder := if byAlign < MAX_ORDER - 1 then byAlign else MAX_ORDER - 1;
    if maxOrder < alignOrder then maxOrder else alignOrder
  }

  lemma PageAlignment(n: nat, o: nat)
    ensures Aligned(4096 * n, o) <==> n % Pow2(o) == 0
  {
    var p := Pow2(o);
    var q, r := n / p, n % p;
    assert n == q * p + r;
    assert 4096 * n == q * (4096 * p) + 4096 * r;
    RemainderUnique(4096 * n, 4096 * p, q, 4096 * r);
  }

  lemma {:induction false} AlignedZeros(n: nat, o: nat)
    requires o < MAX_ORDER
    ensures Aligned(4096 * n, o) <==> o <= TrailingZeros(n)
  {
    hide Aligned, Pow2;
    PageAlignment(n, o);
    if n > 0 { TrailingZerosDivide(n, o); }
  }

  lemma {:induction false} Log2FloorIs(n: nat, o: nat)
    requires n > 0
    ensures Pow2(o) <= n <==> o <= Log2Floor(n)
  {
    var l := Log2Floor(n);
    if o <= l { Pow2Mono(o, l); } else { Pow2Mono(l + 1, o); }
  }

  /** Seeding releases the largest block that fits and is aligned. */
  lemma SeedOrderFits(n: nat, room: nat, o: nat)
    requires room > 0 && o < MAX_ORDER
    ensures o <= SeedOrder(n, room) <==> Aligned(4096 * n, o) && Pow2(o) <= room
  {
    hide Log2Floor, TrailingZeros, Aligned, Pow2;
    Log2FloorIs(room, o);
    AlignedZeros(n, o);
  }

  /** `bs` are consecutive blocks covering exactly the pages [lo, hi). */
  predicate Tiles(bs: seq<Block>, lo: nat, hi: nat)
  {
    if bs == [] then lo == hi
    else
      var b := bs[|bs| - 1];
      b.page + Pow2(b.order) == hi && Tiles(bs[..|bs| - 1], lo, b.page)
  }

  /** Each block is the largest that fits between its first page and page `end`. */
  ghost predicate Greedy(bs: seq<Block>, end: nat)
  {
    forall i :: 0 <= i < |bs| ==>
      bs[i].page < end && bs[i].order == SeedOrder(bs[i].page, end - bs[i].page)
  }

  lemma TilesAppend(bs: seq<Block>, b: Block, lo: nat, end: nat)
    requires Tiles(bs, lo, b.page) && Greedy(bs, end)
    requires b.page < end && b.order == SeedOrder(b.page, end - b.page)
    ensures Tiles(bs + [b], lo, b.page + Pow2(b.order)) && Greedy(bs + [b], end)
  {
    hide SeedOrder, Pow2;
    assert (bs + [b])[..|bs|] == bs;
  }

  /** Byte `x` is on a free list, or was displaced from one. */
  predicate GivenFree(o: Owner)
  {
    o.Free? || o == Lost
  }

  /** Exactly the bytes in [lo, hi) were handed over; bytes held outside keep their owner. */
  ghost predicate FreedWithin(own: Owners, own': Owners, lo: int, hi: int)
  {
    && (forall x :: own'(x).Free? ==> own(x).Free? || lo <= x < hi)
    && (forall x :: own(x).Free? || lo <= x < hi ==> GivenFree(own'(x)))
    && (forall x :: !own(x).Free? && !(lo <= x < hi) ==> own'(x) == own(x))
  }

  /** Seeding has not reached the block at page `n` yet. */
  lemma StillHeld(own0: Owners, own: Owners, start: nat, n: nat, end: nat, o: nat)
    requires start <= n && n + Pow2(o) <= end && FreedWithin(own0, own, 4096 * start, 4096 * n)
    requires forall x :: 4096 * start <= x < 4096 * end ==> !own0(x).Free?
    ensures forall x :: Inside(x, 4096 * n, o) ==> !own(x).Free?
  {
    hide Pow2;
  }

  lemma FreedStep(own0: Owners, own: Owners, own': Owners, lo: nat, a: nat, o: nat, d: Option<nat>, top: nat)
    requires lo <= a && FreedWithin(own0, own, lo, a) && Returned(own, own', a, o, d, top)
    ensures FreedWithin(own0, own', lo, a + Size(o))
  {
    hide Size;
  }

  /** Byte `x` lies in a page that seeding `rs` hands over. */
  ghost predicate Seeded(rs: seq<Region>, x: int)
  {
    exists i :: 0 <= i < |rs| && InSpan(rs[i], x)
  }

  predicate InSpan(r: Region, x: int)
  {
    Seeds(r) && 4096 * FirstPage(r) <= x < 4096 * EndPage(r)
  }

  ghost predicate SpansApart(rs: seq<Region>)
  {
    forall i, j, x :: 0 <= i < j < |rs| && InSpan(rs[i], x) ==> !InSpan(rs[j], x)
  }

  /** The blocks released for a region tile its aligned part exactly. */
  ghost predicate TilesRegion(r: Region, bs: seq<Block>)
  {
    if Seeds(r) then Tiles(bs, FirstPage(r), EndPage(r)) && Greedy(bs, EndPage(r)) else bs == []
  }

  /** Exactly the bytes of the seeded spans were handed over; all others keep their owner. */
  ghost predicate FreedBySeeding(own0: Owners, own: Owners, rs: seq<Region>)
  {
    && (forall x :: own(x).Free? ==> own0(x).Free? || Seeded(rs, x))
    && (forall x :: own0(x).Free? || Seeded(rs, x) ==> GivenFree(own(x)))
    && (forall x :: !own0(x).Free? && !Seeded(rs, x) ==> own(x) == own0(x))
  }

  lemma SeededSplit(rs: seq<Region>, i: nat, x: int)
    requires i < |rs|
    ensures Seeded(rs[..i + 1], x) <==> Seeded(rs[..i], x) || InSpan(rs[i], x)
  {
    hide InSpan;
    if Seeded(rs[..i], x) {
      var j :| 0 <= j < i && InSpan(rs[..i][j], x);
      assert InSpan(rs[..i + 1][j], x);
    }
    if InSpan(rs[i], x) { assert InSpan(rs[..i + 1][i], x); }
    if Seeded(rs[..i + 1], x) {
      var j :| 0 <= j < i + 1 && InSpan(rs[..i + 1][j], x);
      if j < i { assert InSpan(rs[..i][j], x); }
    }
  }

  lemma SpanStillHeld(own0: Owners, own: Owners, rs: seq<Region>, i: nat)
    requires i < |rs| && SpansApart(rs) && FreedBySeeding(own0, own, rs[..i])
    requires forall x :: Seeded(rs, x) ==> !own0(x).Free?
    ensures forall x :: InSpan(rs[i], x) ==> !own(x).Free?
  {
    hide InSpan;
    forall x | InSpan(rs[i], x)
      ensures !own(x).Free?
    {
      assert Seeded(rs, x);
    }
  }

  lemma SeededMore(own0: Owners, own: Owners, own': Owners, rs: seq<Region>, i: nat)
    requires i < |rs| && FreedBySeeding(own0, own, rs[..i])
    requires forall x :: own'(x).Free? ==> own(x).Free? || InSpan(rs[i], x)
    requires forall x :: own(x).Free? || InSpan(rs[i], x) ==> GivenFree(own'(x))
    requires forall x :: !own(x).Free? && !InSpan(rs[i], x) ==> own'(x) == own(x)
    ensures FreedBySeeding(own0, own', rs[..i + 1])
  {
    hide InSpan, Seeded;
    forall x
      ensures Seeded(rs[..i + 1], x) <==> Seeded(rs[..i], x) || InSpan(rs[i], x)
    {
      SeededSplit(rs, i, x);
    }
  }

  /** No region hands over page 0. */
  predicate ZeroSkipped(rs: seq<Region>)
  {
    forall i :: 0 <= i < |rs| ==> !(rs[i].available && rs[i].base == 0 && rs[i].length >= 4096)
  }

  lemma ZeroSeeded(rs: seq<Region>)
    ensures Seeded(rs, 0) <==> !ZeroSkipped(rs)
  {
    forall i | 0 <= i < |rs|
      ensures InSpan(rs[i], 0) <==> rs[i].available && rs[i].base == 0 && rs[i].length >= 4096
    {
      PageZeroSeeded(rs[i]);
    }
    hide InSpan;
  }

  /**
    The comment in the source promises that the first 2 MiB are skipped; page zero
    is in fact handed over exactly when an available region starts at address zero.
   */
  lemma PageZeroSeeded(r: Region)
    ensures InSpan(r, 0) <==> r.available && r.base == 0 && r.length >= 4096
  {
  }

  class Ram {
    var mem: Mem
    var heads: Lists
    var freePages: nat
    ghost var own: Owners
    /** Pages displaced from a list head; counted free, but on no list. */
    ghost var lost: nat

    ghost predicate Valid()
      reads this
    {
      && ListsOk(heads)
      && TagsOk(heads, own)
      && freePages == Total(heads) + lost
    }

    /**
      Allocate 2^order pages. Fails exactly when every list from `order` up is empty,
      that is, when fewer pages than asked for are reachable. On success the block was
      wholly free, is aligned to its size, and every other free byte stays free.
     */
    method Alloc(order: nat, ghost tag: Owner) returns (r: Option<nat>)
      requires Valid() && order < MAX_ORDER && !tag.Free?
      modifies this`heads, this`freePages, this`own
      ensures Valid()
      ensures r.None? <==> forall o :: order <= o < MAX_ORDER ==> old(heads)[o].None?
      ensures r.None? <==> Total(old(heads)) < Pow2(order)
      ensures r.None? ==> heads == old(heads) && freePages == old(freePages) && own == old(own)
      ensures r.Some? ==>
                && Aligned(r.value, order)
                && r.value + Size(order) <= PHYS_LIMIT
                && Granted(old(own), own, r.value, order, tag)
                && freePages == old(freePages) - Pow2(order)
                && Total(heads) == Total(old(heads)) - Pow2(order)
    {
      NoFragmentation(heads, order);
      hide ListsOk, TagsOk, Total, Aligned, Size, Granted, Inside;
      var o := FirstOccupied(heads, order);
      if o == MAX_ORDER {
        return None;
      }
      var addr := heads[o].value;
      TakeStep(heads, own, o, tag);
      heads, own := SplitDown(heads[o := None], addr, o, order, own, Retag(own, addr, o, tag), tag);
      freePages := freePages - Pow2(order);
      return Some(addr);
    }

    /**
      Free 2^order pages at `addr`. The block merges upwards; storing the result may
      displace one block of the final order, whose pages stay counted as free.
     */
    method Release(addr: nat, order: nat) returns (ghost top: nat)
      requires Valid() && order < MAX_ORDER && Aligned(addr, order) && addr + Size(order) <= PHYS_LIMIT
      requires forall x :: Inside(x, addr, order) ==> !own(x).Free?
      modifies this`heads, this`freePages, this`own, this`lost
      ensures Valid()
      ensures order <= top < MAX_ORDER && heads[top].Some?
      ensures heads == ListsAfter(old(heads), addr, order)
      ensures Emptied(old(heads)[top := heads[top]], heads, order, top)
      ensures Returned(old(own), own, addr, order, old(heads)[top], top)
      ensures freePages == old(freePages) + Pow2(order)
      ensures lost == old(lost) + Weight(old(heads)[top], top)
    {
      hide ListsOk, TagsOk, Total, Aligned, Size, Merged, Returned, Xor, ListsAfter;
      freePages := freePages + Pow2(order);
      var h, cur, q;
      ghost var own1;
      h, cur, q, own1 := MergeUp(heads, addr, order, own);
      top := q;
      own := StoreStep(h, own, own1, addr, order, cur, q);
      lost := lost + Weight(h[q], q);
      heads := h[q := Some(cur)];
    }

    /** Release the pages [start, end) as consecutive blocks, each the largest that fits there. */
    method SeedSpan(start: nat, end: nat) returns (ghost bs: seq<Block>)
      requires Valid() && start <= end && 4096 * end <= PHYS_LIMIT
      requires forall x :: 4096 * start <= x < 4096 * end ==> !own(x).Free?
      modifies this`heads, this`freePages, this`own, this`lost
      ensures Valid()
      ensures Tiles(bs, start, end) && Greedy(bs, end)
      ensures freePages == old(freePages) + (end - start)
      ensures FreedWithin(old(own), own, 4096 * start, 4096 * end)
    {
      bs := [];
      var n := start;
      assert FreedWithin(old(own), own, 4096 * start, 4096 * n) && Tiles(bs, start, n) && Greedy(bs, end);
      hide ListsOk, TagsOk, Total, Greedy, Tiles, FreedWithin;
      while n < end
        invariant Valid() && start <= n <= end
        invariant Tiles(bs, start, n) && Greedy(bs, end)
        invariant freePages == old(freePages) + (n - start)
        invariant FreedWithin(old(own), own, 4096 * start, 4096 * n)
      {
        n, bs := SeedOne(start, n, end, bs, old(own));
      }
    }

    method SeedOne(ghost start: nat, n: nat, end: nat, ghost bs: seq<Block>, ghost own0: Owners)
      returns (next: nat, ghost bs': seq<Block>)
      requires Valid() && start <= n < end && 4096 * end <= PHYS_LIMIT
      requires forall x :: 4096 * start <= x < 4096 * end ==> !own0(x).Free?
      requires Tiles(bs, start, n) && Greedy(bs, end)
      requires FreedWithin(own0, own, 4096 * start, 4096 * n)
      modifies this`heads, this`freePages, this`own, this`lost
      ensures Valid() && n < next <= end
      ensures Tiles(bs', start, next) && Greedy(bs', end)
      ensures FreedWithin(own0, own, 4096 * start, 4096 * next)
      ensures freePages == old(freePages) + (next - n)
    {
      hide ListsOk, TagsOk, Total, SeedOrder, Pow2, Greedy, Tiles, FreedWithin, Returned, Aligned, Inside;
      var order := SeedOrder(n, end - n);
      SeedOrderFits(n, end - n, order);
      TilesAppend(bs, Block(n, order), start, end);
      StillHeld(own0, own, start, n, end, order);
      ghost var top := Release(4096 * n, order);
      FreedStep(own0, old(own), own, 4096 * start, 4096 * n, order, old(heads)[top], top);
      next, bs' := n + Pow2(order), bs + [Block(n, order)];
    }

    /** Hand every available region of the boot map to the allocator. */
    method InitFromMap(rs: seq<Region>) returns (total: nat, ghost tiles: seq<seq<Block>>)
      requires Valid() && SpansApart(rs)
      requires forall i :: 0 <= i < |rs| ==> rs[i].base + rs[i].length <= PHYS_LIMIT
      requires forall x :: Seeded(rs, x) ==> !own(x).Free?
      modifies this`heads, this`freePages, this`own, this`lost
      ensures Valid()
      ensures |tiles| == |rs| && forall i :: 0 <= i < |rs| ==> TilesRegion(rs[i], tiles[i])
      ensures total == freePages == old(freePages) + TotalPages(rs)
      ensures FreedBySeeding(old(own), own, rs)
      ensures old(own)(0) == Kernel ==> (own(0) == Kernel <==> ZeroSkipped(rs))
    {
      tiles := [];
      hide ListsOk, TagsOk, Total, SpansApart;
      for i := 0 to |rs|
        invariant Valid()
        invariant |tiles| == i && forall j :: 0 <= j < i ==> TilesRegion(rs[j], tiles[j])
        invariant freePages == old(freePages) + TotalPages(rs[..i])
        invariant FreedBySeeding(old(own), own, rs[..i])
      {
        ghost var bs := SeedRegion(rs, i, old(own));
        tiles := tiles + [bs];
      }
      assert rs[..|rs|] == rs;
      ZeroSeeded(rs);
      total := freePages;
    }

    method SeedRegion(rs: seq<Region>, i: nat, ghost own0: Owners) returns (ghost bs: seq<Block>)
      requires Valid() && i < |rs| && SpansApart(rs) && rs[i].base + rs[i].length <= PHYS_LIMIT
      requires FreedBySeeding(own0, own, rs[..i])
      requires forall x :: Seeded(rs, x) ==> !own0(x).Free?
      modifies this`heads, this`freePages, this`own, this`lost
      ensures Valid() && TilesRegion(rs[i], bs)
      ensures old(freePages) + SpanPages(rs[i]) == freePages
      ensures TotalPages(rs[..i + 1]) == TotalPages(rs[..i]) + SpanPages(rs[i])
      ensures FreedBySeeding(own0, own, rs[..i + 1])
    {
      assert rs[..i + 1][..i] == rs[..i];
      SpanStillHeld(own0, own, rs, i);
      ghost var own1 := own;
      hide ListsOk, TagsOk, Total, SpansApart, Seeded, FreedBySeeding, Tiles, Greedy;
      if Seeds(rs[i]) {
        bs := SeedSpan(FirstPage(rs[i]), EndPage(rs[i]));
      } else {
        bs := [];
      }
      SeededMore(own0, own1, own, rs, i);
    }
  }
}
