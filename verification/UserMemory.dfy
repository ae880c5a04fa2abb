/**
  Frame ownership made explicit, and access to user memory through the areas.
 */
module UserMemory {
  import opened Words
  import opened Buddy
  import opened Paging
  import opened Areas
  import opened Space
  import opened Steps
  import opened Faults
  import opened Unmaps
  import opened Protects
  import opened Vmm

  // ------------------------------------------------------- one claim per byte

  datatype Claim = OnFreeList(order: nat) | InTable(space: nat, place: Pos) | BehindPage(space: nat, vpn: nat)

  /** Byte `x` lies in a free block, in a table, or in the frame behind a page of space `id`. */
  ghost predicate Claims(h: Lists, id: nat, nodes: Nodes, rs: Slots, c: Claim, x: int)
  {
    match c
    case OnFreeList(o) => o < MAX_ORDER && h[o].Some? && Inside(x, h[o].value, o)
    case InTable(s, k) => s == id && k in nodes && nodes[k] <= x < nodes[k] + 4096
    case BehindPage(s, v) => s == id && PageOf(rs, v).Some? && PageOf(rs, v).value <= x < PageOf(rs, v).value + 4096
  }

  /** The tag of a byte behind page `v`. */
  lemma PageTag(m: Mem, own: Owners, id: nat, nodes: Nodes, rs: Slots, v: nat, x: int)
    requires SpaceOk(m, own, id, nodes, rs) && PageOf(rs, v).Some?
    requires PageOf(rs, v).value <= x < PageOf(rs, v).value + 4096
    ensures var i := FindFrom(rs, v, 0);
            && i < MAX_AREAS
            && own(x) == Held(id, if rs[i].value.lazy then Page(v) else Extent(i))
  {
    BackedIsFound(rs, v);
    var i := FindFrom(rs, v, 0);
    var r := rs[i].value;
    SpaceAreas(m, own, id, nodes, rs);
    hide SpaceOk, AreaOk, Disjoint, FindFrom, Order;
    if r.lazy {
      assert FrameHeld(own, id, r.lazyPages[v - r.first], r.first + (v - r.first));
    } else {
      BlockFrames(own, id, i, r.phys, NPages(r), v - r.first);
      assert Inside(x, r.phys, Order(NPages(r)));
    }
  }

  /** Different pages of one space never share a frame. */
  lemma PagesApart(m: Mem, own: Owners, id: nat, nodes: Nodes, rs: Slots, v: nat, w: nat, x: int)
    requires SpaceOk(m, own, id, nodes, rs) && PageOf(rs, v).Some? && PageOf(rs, w).Some?
    requires PageOf(rs, v).value <= x < PageOf(rs, v).value + 4096
    requires PageOf(rs, w).value <= x < PageOf(rs, w).value + 4096
    ensures v == w
  {
    hide SpaceOk, FindFrom;
    PageTag(m, own, id, nodes, rs, v, x);
    PageTag(m, own, id, nodes, rs, w, x);
  }

  lemma FramesApart(m: Mem, own: Owners, id: nat, nodes: Nodes, rs: Slots, v: nat, w: nat)
    requires SpaceOk(m, own, id, nodes, rs) && PageOf(rs, v).Some? && PageOf(rs, w).Some? && v != w
    ensures var p, q := PageOf(rs, v).value, PageOf(rs, w).value; p + 4096 <= q || q + 4096 <= p
  {
    hide SpaceOk, PageOf;
    var p, q := PageOf(rs, v).value, PageOf(rs, w).value;
    if p < q + 4096 && q < p + 4096 {
      PagesApart(m, own, id, nodes, rs, v, w, Max(p, q));
      assert false;
    }
  }

  /**
    Frame ownership: whatever sequence of operations led here, a byte of physical memory
    has at most one claim among the free lists, the tables and the mapped pages, and
    claims of different spaces exclude each other too.
   */
  lemma OneClaim(h: Lists, m: Mem, own: Owners, id: nat, nodes: Nodes, rs: Slots, id': nat, nodes': Nodes, rs': Slots,
                 c: Claim, d: Claim, x: int)
    requires TagsOk(h, own) && SpaceOk(m, own, id, nodes, rs) && SpaceOk(m, own, id', nodes', rs')
    requires id == id' ==> nodes == nodes' && rs == rs'
    requires Claims(h, id, nodes, rs, c, x) && Claims(h, id', nodes', rs', d, x)
    ensures c == d
  {
    ClaimTag(h, m, own, id, nodes, rs, c, x);
    ClaimTag(h, m, own, id', nodes', rs', d, x);
    if c.BehindPage? && d.BehindPage? && id == id' {
      PagesApart(m, own, id, nodes, rs, c.vpn, d.vpn, x);
    }
    hide TagsOk, SpaceOk, PageOf, FindFrom;
  }

  lemma ClaimTag(h: Lists, m: Mem, own: Owners, id: nat, nodes: Nodes, rs: Slots, c: Claim, x: int)
    requires TagsOk(h, own) && SpaceOk(m, own, id, nodes, rs) && Claims(h, id, nodes, rs, c, x)
    ensures match c
            case OnFreeList(o) => own(x) == Free(o)
            case InTable(s, k) => s == id && own(x) == Held(id, Table(k.level, k.prefix))
            case BehindPage(s, v) => s == id && own(x).Held? && own(x).space == id && !own(x).use.Table?
  {
    match c
    case OnFreeList(o) =>
    case InTable(s, k) =>
      SpaceAgrees(m, own, id, nodes, rs);
      hide SpaceOk, Linked, AreasOk, AgreeOutside, TagsOk;
    case BehindPage(s, v) =>
      PageTag(m, own, id, nodes, rs, v, x);
  }

  // ------------------------------------------------------- reading and writing

  /** The byte a process sees at user address `va`, if its page is backed. */
  function UserByte(m: Mem, rs: Slots, va: nat): Option<Byte>
  {
    match VirtToPhys(rs, va)
    case None => None
    case Some(p) => Some(m(p))
  }

  /** The process's own view of memory; unmapped bytes do not matter. */
  function UserView(m: Mem, rs: Slots): Mem
  {
    x => if x >= 0 && UserByte(m, rs, x).Some? then UserByte(m, rs, x).value else 0
  }

  lemma SamePage(b: nat, n: nat, a: nat)
    requires b % 4096 + n <= 4096 && b <= a < b + n
    ensures a / 4096 == b / 4096 && a % 4096 == b % 4096 + (a - b)
  {
  }

  /** Where byte `a` lives when its page has frame p. */
  lemma UserByteAt(m: Mem, rs: Slots, a: nat)
    ensures UserByte(m, rs, a) == match PageOf(rs, a / 4096) case None => None case Some(p) => Some(m(p + a % 4096))
  {
    hide PageOf;
  }

  /** Memory after the kernel stores `s` at user address `b`, inside one backed page. */
  lemma StoreInPage(m: Mem, own: Owners, id: nat, nodes: Nodes, rs: Slots, b: nat, s: seq<Byte>, a: nat)
    requires SpaceOk(m, own, id, nodes, rs) && b % 4096 + |s| <= 4096 && PageOf(rs, b / 4096).Some?
    ensures var m' := Store(m, PageOf(rs, b / 4096).value + b % 4096, s);
            UserByte(m', rs, a) == if b <= a < b + |s| then Some(s[a - b]) else UserByte(m, rs, a)
  {
    hide SpaceOk, PageOf;
    var p := PageOf(rs, b / 4096).value;
    var m' := Store(m, p + b % 4096, s);
    UserByteAt(m, rs, a);
    UserByteAt(m', rs, a);
    if b <= a < b + |s| {
      SamePage(b, |s|, a);
    } else if a / 4096 == b / 4096 {
      NotInChunk(a, b, |s|);
    } else if PageOf(rs, a / 4096).Some? {
      FramesApart(m, own, id, nodes, rs, a / 4096, b / 4096);
    }
  }

  lemma NotInChunk(a: nat, b: nat, n: nat)
    requires a / 4096 == b / 4096 && !(b <= a < b + n)
    ensures !(b % 4096 <= a % 4096 < b % 4096 + n)
  {
    assert a == 4096 * (a / 4096) + a % 4096 && b == 4096 * (b / 4096) + b % 4096;
  }

  /** Stores through a backed page touch data of this space only. */
  lemma StoreKeeps(m: Mem, own: Owners, id: nat, nodes: Nodes, rs: Slots, b: nat, s: seq<Byte>)
    requires SpaceOk(m, own, id, nodes, rs) && b % 4096 + |s| <= 4096 && PageOf(rs, b / 4096).Some?
    ensures var m' := Store(m, PageOf(rs, b / 4096).value + b % 4096, s);
            SpaceOk(m', own, id, nodes, rs) && DataWritten(id, own, m, m')
  {
    hide SpaceOk, PageOf;
    var p := PageOf(rs, b / 4096).value;
    var m' := Store(m, p + b % 4096, s);
    forall x | m'(x) != m(x)
      ensures Ours(own(x), id) && !IsTable(own(x), id)
    {
      PageTag(m, own, id, nodes, rs, b / 4096, x);
    }
    assert Undisturbed(id, own, m, own, m');
    SpaceUndisturbed(id, own, m, own, m', nodes, rs);
  }

  /** Only data bytes of space `id` were written. */
  ghost predicate DataWritten(id: nat, own: Owners, m: Mem, m': Mem)
  {
    forall x :: m'(x) != m(x) ==> Ours(own(x), id) && !IsTable(own(x), id)
  }

  /** The first `n` bytes of `src` stand at `va`; every other user byte is as before. */
  ghost predicate Written(m: Mem, m': Mem, rs: Slots, va: nat, src: seq<Byte>, n: nat)
    requires n <= |src|
  {
    forall a: nat {:trigger UserByte(m', rs, a)} ::
      UserByte(m', rs, a) == if va <= a < va + n then Some(src[a - va]) else UserByte(m, rs, a)
  }

  lemma WrittenStep(m: Mem, m1: Mem, own: Owners, id: nat, nodes: Nodes, rs: Slots, va: nat, src: seq<Byte>, n: nat,
                    c: nat)
    requires SpaceOk(m1, own, id, nodes, rs) && n + c <= |src| && Written(m, m1, rs, va, src, n)
    requires (va + n) % 4096 + c <= 4096 && PageOf(rs, (va + n) / 4096).Some?
    ensures Written(m, Store(m1, PageOf(rs, (va + n) / 4096).value + (va + n) % 4096, src[n..n + c]), rs, va, src,
                    n + c)
  {
    hide SpaceOk, PageOf, UserByte;
    var m2 := Store(m1, PageOf(rs, (va + n) / 4096).value + (va + n) % 4096, src[n..n + c]);
    forall a: nat
      ensures UserByte(m2, rs, a) == if va <= a < va + (n + c) then Some(src[a - va]) else UserByte(m, rs, a)
    {
      StoreInPage(m1, own, id, nodes, rs, va + n, src[n..n + c], a);
      assert UserByte(m1, rs, a) == if va <= a < va + n then Some(src[a - va]) else UserByte(m, rs, a);
    }
  }

  /**
    Copy a kernel buffer to user memory page by page. All bytes arrive exactly when every
    page on the way is backed; otherwise the bytes before the first unbacked page do.
   */
  method WriteUserBuf(a: AddressSpace, va: nat, src: seq<Byte>) returns (ok: bool, ghost n: nat)
    requires a.Valid()
    modifies a.ram`mem
    ensures a.Valid() && n <= |src|
    ensures DataWritten(a.id, a.ram.own, old(a.ram.mem), a.ram.mem)
    ensures Written(old(a.ram.mem), a.ram.mem, a.regions, va, src, n)
    ensures ok ==> n == |src|
    ensures !ok ==> n < |src| && PageOf(a.regions, (va + n) / 4096) == None
  {
    hide SpaceOk, ListsOk, TagsOk, Total, UserByte, PageOf, Written;
    ghost var m0 := a.ram.mem;
    WrittenNone(m0, a.regions, va, src);
    var offset := 0;
    while offset < |src|
      invariant a.Valid() && offset <= |src|
      invariant DataWritten(a.id, a.ram.own, m0, a.ram.mem)
      invariant Written(m0, a.ram.mem, a.regions, va, src, offset)
    {
      var b := va + offset;
      var phys := VirtToPhys(a.regions, b);
      if phys.None? { return false, offset; }
      var avail := 4096 - b % 4096;
      var chunk := if avail < |src| - offset then avail else |src| - offset;
      WrittenStep(m0, a.ram.mem, a.ram.own, a.id, a.nodes, a.regions, va, src, offset, chunk);
      StoreKeeps(a.ram.mem, a.ram.own, a.id, a.nodes, a.regions, b, src[offset..offset + chunk]);
      a.ram.mem := Store(a.ram.mem, phys.value, src[offset..offset + chunk]);
      offset := offset + chunk;
    }
    return true, offset;
  }

  lemma WrittenNone(m: Mem, rs: Slots, va: nat, src: seq<Byte>)
    ensures Written(m, m, rs, va, src, 0)
  {
    hide UserByte;
  }

  /** Copy user memory to a kernel buffer: the bytes the process itself would see. */
  method ReadUserBuf(a: AddressSpace, va: nat, len: nat) returns (ok: bool, dest: seq<Byte>)
    requires a.Valid()
    ensures ok <==> forall x: nat :: va <= x < va + len ==> UserByte(a.ram.mem, a.regions, x).Some?
    ensures ok ==>
              && |dest| == len
              && forall x: nat :: va <= x < va + len ==> UserByte(a.ram.mem, a.regions, x) == Some(dest[x - va])
  {
    hide SpaceOk, ListsOk, TagsOk, Total, PageOf;
    dest := [];
    while |dest| < len
      invariant |dest| <= len
      invariant forall x: nat :: va <= x < va + |dest| ==> UserByte(a.ram.mem, a.regions, x) == Some(dest[x - va])
    {
      var b := va + |dest|;
      var phys := VirtToPhys(a.regions, b);
      if phys.None? {
        assert UserByte(a.ram.mem, a.regions, b).None?;
        return false, dest;
      }
      var avail := 4096 - b % 4096;
      var chunk := if avail < len - |dest| then avail else len - |dest|;
      ReadChunk(a.ram.mem, a.regions, b, chunk);
      dest := dest + Load(a.ram.mem, phys.value, chunk);
    }
    return true, dest;
  }

  lemma ReadChunk(m: Mem, rs: Slots, b: nat, c: nat)
    requires b % 4096 + c <= 4096 && VirtToPhys(rs, b).Some?
    ensures forall x: nat :: b <= x < b + c ==> UserByte(m, rs, x) == Some(Load(m, VirtToPhys(rs, b).value, c)[x - b])
  {
    hide PageOf;
    forall x: nat | b <= x < b + c
      ensures UserByte(m, rs, x) == Some(Load(m, VirtToPhys(rs, b).value, c)[x - b])
    {
      SamePage(b, c, x);
    }
  }

  /** Growing any space leaves what every space reads alone. */
  lemma AdditiveReads(m: Mem, own: Owners, own': Owners, m': Mem, id: nat, id': nat, nodes: Nodes, rs: Slots, a: nat)
    requires SpaceOk(m, own, id', nodes, rs) && Additive(id, own, m, own', m')
    ensures UserByte(m', rs, a) == UserByte(m, rs, a)
  {
    hide SpaceOk, PageOf, FindFrom;
    UserByteAt(m, rs, a);
    UserByteAt(m', rs, a);
    if PageOf(rs, a / 4096).Some? {
      PageTag(m, own, id', nodes, rs, a / 4096, PageOf(rs, a / 4096).value + a % 4096);
    }
  }
}
