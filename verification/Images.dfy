/**
  Images: an eager area mapped and then filled with bytes through its block, as the
  ELF loader (elf/src/lib.rs) and file-backed mmap (kernel/src/syscall.rs) do.
 */
module Images {
  import opened Words
  import opened Buddy
  import opened Paging
  import opened Areas
  import opened Space
  import opened Steps
  import opened Faults
  import opened UserMemory

  /** The eager area `r` of slot `i`, with its block. */
  lemma EagerBlock(m: Mem, own: Owners, id: nat, nodes: Nodes, rs: Slots, i: nat)
    requires SpaceOk(m, own, id, nodes, rs) && i < MAX_AREAS && rs[i].Some? && !rs[i].value.lazy
    ensures var r := rs[i].value;
            && r.first < r.past <= USER_PAGES && Disjoint(rs)
            && 4096 * NPages(r) <= Size(Order(NPages(r)))
            && forall x :: r.phys <= x < r.phys + Size(Order(NPages(r))) ==> own(x) == Held(id, Extent(i))
  {
    SpaceAreas(m, own, id, nodes, rs);
    hide SpaceOk, Disjoint;
    var r := rs[i].value;
    assert AreaOk(r) && AreaHeld(own, id, i, r);
    OrderIsLeast(NPages(r));
    hide Order;
  }

  /** Writing bytes into the block of an eager area: data of this space only. */
  lemma BlockStored(m: Mem, own: Owners, id: nat, nodes: Nodes, rs: Slots, i: nat, off: nat, s: seq<Byte>)
    requires SpaceOk(m, own, id, nodes, rs) && i < MAX_AREAS && rs[i].Some? && !rs[i].value.lazy
    requires off + |s| <= Size(Order(NPages(rs[i].value)))
    ensures var m' := Store(m, rs[i].value.phys + off, s);
            && SpaceOk(m', own, id, nodes, rs) && DataWritten(id, own, m, m')
            && SameLeavesBut(m, nodes, m', nodes, -1) && ROOT in nodes && UpperHalfSame(nodes[ROOT], m, m')
  {
    hide SpaceOk, Leaf, Order, Size;
    EagerBlock(m, own, id, nodes, rs, i);
    var m' := Store(m, rs[i].value.phys + off, s);
    assert DataWritten(id, own, m, m');
    assert Undisturbed(id, own, m, own, m');
    SpaceUndisturbed(id, own, m, own, m', nodes, rs);
  }

  /** Where byte `k` of an eager area lives. */
  lemma EagerByte(rs: Slots, i: nat, k: nat)
    requires Disjoint(rs) && i < MAX_AREAS && rs[i].Some? && !rs[i].value.lazy
    requires rs[i].value.first < rs[i].value.past && k < 4096 * NPages(rs[i].value)
    ensures VirtToPhys(rs, 4096 * rs[i].value.first + k) == Some(rs[i].value.phys + k)
  {
    var r := rs[i].value;
    var a := 4096 * r.first + k;
    assert a / 4096 == r.first + k / 4096 && a % 4096 == k % 4096;
    FindUnique(rs, i, a / 4096);
  }

  lemma NotInArea(first: nat, n: nat, a: nat)
    ensures first <= a / 4096 < first + n <==> 4096 * first <= a < 4096 * (first + n)
  {
  }

  /** The byte of an image: the file's inside the copied range, zero elsewhere. */
  function ImageByte(s: seq<Byte>, off: int, k: int): Byte
  {
    if off <= k < off + |s| then s[k - off] else 0
  }

  /**
    Mapped at `first`, filled from `off` on: the area's own bytes are the image, and
    what could be read before is as before.
   */
  ghost predicate ImageAdded(m: Mem, rs: Slots, m': Mem, rs': Slots, first: nat, n: nat, off: nat, s: seq<Byte>)
  {
    && (forall a: nat {:trigger UserByte(m', rs', a)} ::
          UserByte(m', rs', a) ==
            if 4096 * first <= a < 4096 * (first + n) then Some(ImageByte(s, off, a - 4096 * first))
            else UserByte(m, rs, a))
    && (forall a: nat {:trigger UserByte(m, rs, a)} :: 4096 * first <= a < 4096 * (first + n) ==>
        UserByte(m, rs, a) == None)
  }

  lemma FreshUnread(m: Mem, rs: Slots, first: nat, n: nat, a: nat)
    requires Vacant(rs, first, first + n) && 4096 * first <= a < 4096 * (first + n)
    ensures UserByte(m, rs, a) == None
  {
    NotInArea(first, n, a);
  }

  lemma OtherByte(m: Mem, own: Owners, id: nat, nodes: Nodes, rs: Slots, i: nat, off: nat, s: seq<Byte>, a: nat)
    requires SpaceOk(m, own, id, nodes, rs) && i < MAX_AREAS && rs[i].Some? && !rs[i].value.lazy
    requires off + |s| <= Size(Order(NPages(rs[i].value)))
    requires !Covers(rs[i].value, a / 4096)
    ensures UserByte(Store(m, rs[i].value.phys + off, s), rs, a) == UserByte(m, rs, a)
  {
    hide SpaceOk, PageOf, FindFrom, Disjoint, Order, Size;
    EagerBlock(m, own, id, nodes, rs, i);
    var m' := Store(m, rs[i].value.phys + off, s);
    UserByteAt(m, rs, a);
    UserByteAt(m', rs, a);
    if PageOf(rs, a / 4096).Some? {
      PageTag(m, own, id, nodes, rs, a / 4096, PageOf(rs, a / 4096).value + a % 4096);
      if FindFrom(rs, a / 4096, 0) == i { assert false; }
    }
  }

  /** Mapping and filling adds exactly the image. */
  lemma ImageExact(m: Mem, own: Owners, id: nat, nodes: Nodes, rs: Slots, m1: Mem, own1: Owners, nodes1: Nodes,
                   rs1: Slots, first: nat, n: nat, flags: PageFlags, off: nat, s: seq<Byte>)
    requires SpaceOk(m, own, id, nodes, rs) && SpaceOk(m1, own1, id, nodes1, rs1)
    requires Additive(id, own, m, own1, m1) && Vacant(rs, first, first + n)
    requires EagerAdded(m, nodes, rs, m1, nodes1, rs1, first, n, flags) && off + |s| <= Size(Order(n))
    ensures var m2 := Store(m1, rs1[FreeSlot(rs)].value.phys + off, s);
            ImageAdded(m, rs, m2, rs1, first, n, off, s)
  {
    hide SpaceOk, Additive, Vacant, LeavesMapped, UserByte, PageOf, Order, Size;
    var i := FreeSlot(rs);
    var phys := rs1[i].value.phys;
    var m2 := Store(m1, phys + off, s);
    EagerBlock(m1, own1, id, nodes1, rs1, i);
    forall a: nat
      ensures UserByte(m2, rs1, a) ==
                if 4096 * first <= a < 4096 * (first + n) then Some(ImageByte(s, off, a - 4096 * first))
                else UserByte(m, rs, a)
    {
      if 4096 * first <= a < 4096 * (first + n) {
        ImageByteAt(m1, rs1, i, a - 4096 * first, off, s);
      } else {
        NotInArea(first, n, a);
        OtherByte(m1, own1, id, nodes1, rs1, i, off, s, a);
        AddedByte(m, own, id, nodes, rs, m1, own1, rs1, i, a);
      }
    }
    forall a: nat | 4096 * first <= a < 4096 * (first + n)
      ensures UserByte(m, rs, a) == None
    {
      FreshUnread(m, rs, first, n, a);
    }
  }

  lemma ImageByteAt(m: Mem, rs: Slots, i: nat, k: nat, off: nat, s: seq<Byte>)
    requires Disjoint(rs) && i < MAX_AREAS && rs[i].Some? && !rs[i].value.lazy
    requires rs[i].value.first < rs[i].value.past && k < 4096 * NPages(rs[i].value)
    requires forall x :: rs[i].value.phys <= x < rs[i].value.phys + 4096 * NPages(rs[i].value) ==> m(x) == 0
    ensures UserByte(Store(m, rs[i].value.phys + off, s), rs, 4096 * rs[i].value.first + k) ==
              Some(ImageByte(s, off, k))
  {
    hide Disjoint, VirtToPhys;
    EagerByte(rs, i, k);
  }

  /** Reads outside the new area are unaffected by adding it. */
  lemma AddedByte(m: Mem, own: Owners, id: nat, nodes: Nodes, rs: Slots, m1: Mem, own1: Owners, rs1: Slots, i: nat,
                  a: nat)
    requires SpaceOk(m, own, id, nodes, rs) && Additive(id, own, m, own1, m1)
    requires i < MAX_AREAS && rs[i].None? && rs1[i].Some? && rs1 == rs[i := rs1[i]] && Disjoint(rs1)
    requires !Covers(rs1[i].value, a / 4096)
    ensures UserByte(m1, rs1, a) == UserByte(m, rs, a)
  {
    AdditiveReads(m, own, own1, m1, id, id, nodes, rs, a);
    hide Additive;
    SpaceAreas(m, own, id, nodes, rs);
    hide SpaceOk, AreaOk, AreaHeld;
    SlotReplaced(rs, i, rs1[i], a / 4096);
    hide PageOf, Disjoint;
    UserByteAt(m1, rs, a);
    UserByteAt(m1, rs1, a);
  }
}
