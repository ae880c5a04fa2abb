/**
  The mmap system call (kernel/src/syscall.rs): anonymous and file-backed mappings,
  with write-xor-execute restored after the temporarily writable file copy.
 */
module Mmap {
  import opened Words
  import opened Buddy
  import opened Paging
  import opened Areas
  import opened Space
  import opened Steps
  import opened Faults
  import opened Unmaps
  import opened Protects
  import opened Rights
  import opened Ledger
  import opened Vmm
  import opened Runs
  import opened UserMemory
  import opened Images
  import opened Elf

  const MAP_MAX_BYTES := 256 * 1024 * 1024
  const USER_SPACE_END := 0x8000_0000_0000
  const EINVAL := -22
  const ENOMEM := -12

  /** What the file server answers: an error code, or the bytes it put at the given address. */
  datatype FileRead = Failed(error: int) | Read(data: seq<Byte>)

  // ------------------------------------------------ the temporarily unsafe area

  /** The area of slot `i` may be writable and executable; nothing else is. */
  ghost predicate SafeBut(m: Mem, nodes: Nodes, rs: Slots, i: nat, first: nat, n: nat)
  {
    && SafeLeaves(m, nodes, first, first + n)
    && forall k :: 0 <= k < MAX_AREAS && k != i && rs[k].Some? ==> SafeFlags(rs[k].value.flags)
  }

  /** The area of slot `i` is exactly the range, and no other area touches it. */
  ghost predicate Alone(rs: Slots, i: nat, first: nat, n: nat)
  {
    && i < MAX_AREAS && rs[i].Some? && rs[i].value.first == first && rs[i].value.past == first + n && n > 0
    && forall k :: 0 <= k < MAX_AREAS && k != i && rs[k].Some? ==> !Overlaps(rs[k].value, first, first + n)
  }

  lemma AddedAlone(m: Mem, nodes: Nodes, rs: Slots, m': Mem, nodes': Nodes, rs': Slots, first: nat, n: nat,
                   flags: PageFlags)
    requires EagerAdded(m, nodes, rs, m', nodes', rs', first, n, flags) && Vacant(rs, first, first + n) && n > 0
    ensures Alone(rs', FreeSlot(rs), first, n) && rs'[FreeSlot(rs)].value.flags == flags
    ensures rs == rs'[FreeSlot(rs) := None]
  {
    hide LeavesMapped;
  }

  /** Removing the whole area puts the slots back and leaves nothing unsafe. */
  lemma RemovedAlone(rs: Slots, rs': Slots, i: nat, first: nat, n: nat)
    requires Alone(rs, i, first, n) && Trimmed(rs, rs', first, first + n)
    ensures rs' == rs[i := None]
  {
    hide CountNonZero, Zeroed;
    forall k | 0 <= k < MAX_AREAS
      ensures rs'[k] == rs[i := None][k]
    {
      assert rs'[k] == TrimSlot(rs[k], first, first + n);
    }
  }

  lemma AloneTrimmable(rs: Slots, i: nat, first: nat, n: nat)
    requires Alone(rs, i, first, n)
    ensures i < MAX_AREAS && forall k :: 0 <= k < MAX_AREAS && rs[k].Some? ==> Trimmable(rs[k].value, first, first + n)
  {
    hide Pow2, Order;
  }

  // ----------------------------------------------------------------- file-backed

  /** Every page of the range is mapped with exactly these flags, to its own frame. */
  ghost predicate MappedAs(m: Mem, nodes: Nodes, rs: Slots, first: nat, n: nat, f: PageFlags)
  {
    forall w: nat {:trigger Leaf(m, nodes, w)} :: first <= w < first + n ==>
      PageOf(rs, w).Some? && Leaf(m, nodes, w) == Some(LeafEntry(PageOf(rs, w).value, Translate(f)))
  }

  lemma MappedOpens(m: Mem, own: Owners, id: nat, nodes: Nodes, rs: Slots, first: nat, n: nat, f: PageFlags, x: Access)
    requires SpaceOk(m, own, id, nodes, rs) && MappedAs(m, nodes, rs, first, n, f) && Asks(f, x)
    ensures ROOT in nodes && OpenTo(m, nodes[ROOT], first, n, x)
  {
    var root := nodes[ROOT];
    forall w: nat | first <= w < first + n
      ensures Permits(HwWalk(m, root, w), x)
    {
      hide AreasOk, AgreeOutside, TableOk, Leaf, LeafEntry, PageOf, HwWalk, Permits, Asks;
      assert Leaf(m, nodes, w).Some?;
      FoundFrame(m, own, id, nodes, rs, w);
      WalkPermits(m, own, id, nodes, w, PageOf(rs, w).value, f, x);
    }
  }

  /** Every page of the range is reserved and will be open to exactly this access. */
  ghost predicate OpensTo(rs: Slots, first: nat, n: nat, x: Access)
  {
    forall w: nat :: first <= w < first + n ==> Covered(rs, w) && Asks(FlagsAt(rs, w), x)
  }

  lemma ReservedOpens(m: Mem, own: Owners, id: nat, nodes: Nodes, rs: Slots, rs': Slots, first: nat, n: nat,
                      f: PageFlags, x: Access)
    requires SpaceOk(m, own, id, nodes, rs') && LazyAdded(rs, rs', first, n, f) && Asks(f, x)
    ensures OpensTo(rs', first, n, x)
  {
    SpaceAreas(m, own, id, nodes, rs');
    hide SpaceOk, AreaOk, AreaHeld, Disjoint, PageOf;
    forall w: nat | first <= w < first + n
      ensures Covered(rs', w) && Asks(FlagsAt(rs', w), x)
    {
      FindUnique(rs', FreeSlot(rs), w);
    }
  }

  /** The area as mapped, before the file is read into it. */
  lemma MapTransient(m: Mem, own: Owners, id: nat, nodes: Nodes, rs: Slots, m1: Mem, own1: Owners, nodes1: Nodes,
                     rs1: Slots, first: nat, n: nat, flags: PageFlags)
    requires SpaceOk(m1, own1, id, nodes1, rs1) && WriteXorExecute(m, nodes, rs)
    requires EagerAdded(m, nodes, rs, m1, nodes1, rs1, first, n, flags) && n > 0
    ensures SafeBut(m1, nodes1, rs1, FreeSlot(rs), first, n) && MappedAs(m1, nodes1, rs1, first, n, flags)
  {
    MapSafe(m, own, id, nodes, rs, m1, own1, nodes1, rs1, first, n, flags);
    SpaceAreas(m1, own1, id, nodes1, rs1);
    hide SpaceOk, Leaf, LeafEntry, SafeEntry, AreaOk, AreaHeld, Disjoint;
    var i := FreeSlot(rs);
    forall w: nat | first <= w < first + n
      ensures PageOf(rs1, w) == Some(rs1[i].value.phys + 4096 * (w - first))
    {
      FindUnique(rs1, i, w);
    }
  }

  /** Leaves that do not change keep all of this. */
  lemma TransientKept(m: Mem, nodes: Nodes, m': Mem, rs: Slots, i: nat, first: nat, n: nat, f: PageFlags)
    requires SafeBut(m, nodes, rs, i, first, n) && MappedAs(m, nodes, rs, first, n, f)
             && SameLeavesBut(m, nodes, m', nodes, -1)
    requires first + n <= USER_PAGES
    ensures SafeBut(m', nodes, rs, i, first, n) && MappedAs(m', nodes, rs, first, n, f)
  {
    hide Leaf, LeafEntry, SafeEntry, PageOf;
    forall w: nat | first <= w < first + n
      ensures PageOf(rs, w).Some? && Leaf(m', nodes, w) == Some(LeafEntry(PageOf(rs, w).value, Translate(f)))
    {
      assert Leaf(m', nodes, w) == Leaf(m, nodes, w);
    }
  }

  /** Once the range has safe flags, so has everything. */
  lemma SafeAgain(m: Mem, own: Owners, id: nat, nodes: Nodes, rs: Slots, i: nat, first: nat, n: nat, f: PageFlags)
    requires SpaceOk(m, own, id, nodes, rs) && i < MAX_AREAS && rs[i].Some? && rs[i].value.flags == f && SafeFlags(f)
    requires SafeBut(m, nodes, rs, i, first, n) && MappedAs(m, nodes, rs, first, n, f)
    ensures WriteXorExecute(m, nodes, rs)
  {
    hide SpaceOk, Leaf, LeafEntry, SafeEntry, PageOf;
    forall w: nat | w < USER_PAGES && Leaf(m, nodes, w).Some?
      ensures SafeEntry(Leaf(m, nodes, w).value)
    {
      if first <= w < first + n {
        FoundFrame(m, own, id, nodes, rs, w);
        SafeLeaf(PageOf(rs, w).value, f);
      }
    }
  }

  /** A protection change of exactly the range gives its pages and its area the new flags. */
  lemma Downgraded(m: Mem, nodes: Nodes, rs: Slots, m': Mem, nodes': Nodes, rs': Slots, i: nat, first: nat, n: nat,
                   f: PageFlags, g: PageFlags)
    requires Alone(rs, i, first, n) && SafeBut(m, nodes, rs, i, first, n) && MappedAs(m, nodes, rs, first, n, f)
             && first + n <= USER_PAGES
    requires forall k :: 0 <= k < MAX_AREAS ==> rs'[k] == ReflagSlot(rs[k], first, first + n, g)
    requires Protected(m, nodes, rs, m', nodes', Translate(g), first, first + n)
    requires forall w: nat :: PageOf(rs', w) == PageOf(rs, w)
    ensures rs' == rs[i := Some(rs[i].value.(flags := g))]
    ensures SafeBut(m', nodes', rs', i, first, n) && MappedAs(m', nodes', rs', first, n, g)
  {
    hide Leaf, LeafEntry, SafeEntry, PageOf;
    forall k | 0 <= k < MAX_AREAS
      ensures rs'[k] == rs[i := Some(rs[i].value.(flags := g))][k]
    {
      assert rs'[k] == ReflagSlot(rs[k], first, first + n, g);
    }
    forall w: nat | first <= w < first + n
      ensures PageOf(rs', w).Some? && Leaf(m', nodes', w) == Some(LeafEntry(PageOf(rs', w).value, Translate(g)))
    {
      assert Leaf(m, nodes, w).Some?;
    }
  }

  lemma SameReads(m: Mem, rs: Slots, rs': Slots, a: nat)
    requires PageOf(rs', a / 4096) == PageOf(rs, a / 4096)
    ensures UserByte(m, rs', a) == UserByte(m, rs, a)
  {
    hide PageOf;
    UserByteAt(m, rs, a);
    UserByteAt(m, rs', a);
  }

  /** Areas that translate alike and memory that reads alike hold the same image. */
  lemma ImageKept(m: Mem, rs: Slots, m1: Mem, rs1: Slots, m2: Mem, rs2: Slots, own1: Owners, own2: Owners, id: nat,
                  nodes1: Nodes, first: nat, n: nat, s: seq<Byte>)
    requires ImageAdded(m, rs, m1, rs1, first, n, 0, s) && SpaceOk(m1, own1, id, nodes1, rs1)
             && Additive(id, own1, m1, own2, m2)
    requires forall w: nat :: PageOf(rs2, w) == PageOf(rs1, w)
    ensures ImageAdded(m, rs, m2, rs2, first, n, 0, s)
  {
    hide SpaceOk, Additive, PageOf, UserByte;
    forall a: nat
      ensures UserByte(m2, rs2, a) == UserByte(m1, rs1, a)
    {
      AdditiveReads(m1, own1, own2, m2, id, id, nodes1, rs1, a);
      SameReads(m2, rs1, rs2, a);
    }
  }

  /** The file's bytes stand in the new area, whose pages and slot have the flags `f`; all else is as before. */
  ghost predicate FileMapped(m: Mem, rs: Slots, m': Mem, nodes': Nodes, rs': Slots, first: nat, n: nat, f: PageFlags,
                             s: seq<Byte>)
  {
    && FreeSlot(rs) < MAX_AREAS && rs'[FreeSlot(rs)].Some?
    && rs' == rs[FreeSlot(rs) := Some(EagerArea(first, n, rs'[FreeSlot(rs)].value.phys, f))]
    && ImageAdded(m, rs, m', rs', first, n, 0, s)
    && MappedAs(m', nodes', rs', first, n, f)
  }

  lemma FileWritten(m: Mem, own: Owners, id: nat, nodes: Nodes, rs: Slots, m1: Mem, own1: Owners, nodes1: Nodes,
                    rs1: Slots, root: nat, first: nat, n: nat, f: PageFlags, s: seq<Byte>)
    requires SpaceOk(m, own, id, nodes, rs) && SpaceOk(m1, own1, id, nodes1, rs1) && ROOT in nodes1
             && nodes1[ROOT] == root
    requires Additive(id, own, m, own1, m1) && Vacant(rs, first, first + n) && UpperHalfSame(root, m, m1)
    requires EagerAdded(m, nodes, rs, m1, nodes1, rs1, first, n, f) && |s| <= 4096 * n && n > 0
             && first + n <= USER_PAGES
    requires WriteXorExecute(m, nodes, rs)
    ensures FreeSlot(rs) < MAX_AREAS && rs1[FreeSlot(rs)].Some?
    ensures var m2 := Store(m1, rs1[FreeSlot(rs)].value.phys, s);
            && SpaceOk(m2, own1, id, nodes1, rs1)
            && FileMapped(m, rs, m2, nodes1, rs1, first, n, f, s)
            && SafeBut(m2, nodes1, rs1, FreeSlot(rs), first, n)
            && Isolated(id, own, m, own1, m2) && UpperHalfSame(root, m, m2)
  {
    hide SpaceOk, Additive, Vacant, UserByte, PageOf, UpperHalfSame, WriteXorExecute, Isolated, ImageAdded, FreeSlot,
      NPages, SafeBut, DataWritten, SameLeavesBut, MappedAs, LeavesMapped;
    var i := FreeSlot(rs);
    NewArea(m, nodes, rs, m1, nodes1, rs1, first, n, f);
    var m2 := Store(m1, rs1[i].value.phys, s);
    assert rs1[i].value.phys + 0 == rs1[i].value.phys;
    OrderIsLeast(n);
    hide Order;
    ImageExact(m, own, id, nodes, rs, m1, own1, nodes1, rs1, first, n, f, 0, s);
    BlockStored(m1, own1, id, nodes1, rs1, i, 0, s);
    MapTransient(m, own, id, nodes, rs, m1, own1, nodes1, rs1, first, n, f);
    TransientKept(m1, nodes1, m2, rs1, i, first, n, f);
    AdditiveIsolated(id, own, m, own1, m1);
    WrittenIsolated(id, own1, m1, m2);
    IsolatedTrans(id, own, m, own1, m1, own1, m2);
    UpperTrans(root, m, m1, m2);
  }

  /** Restore read-only protection after the copy. */
  method Downgrade(a: AddressSpace, virt: nat, len: nat, exec: bool, ghost o0: Owners, ghost m0: Mem, ghost rs: Slots,
                   ghost s: seq<Byte>)
    requires a.Valid() && len > 0 && len % 4096 == 0 && virt / 4096 + len / 4096 <= USER_PAGES
    requires FileMapped(m0, rs, a.ram.mem, a.nodes, a.regions, virt / 4096, len / 4096, ProtFlags(true, exec), s)
    requires Alone(a.regions, FreeSlot(rs), virt / 4096, len / 4096)
    requires SafeBut(a.ram.mem, a.nodes, a.regions, FreeSlot(rs), virt / 4096, len / 4096)
    requires Isolated(a.id, o0, m0, a.ram.own, a.ram.mem) && UpperHalfSame(a.root, m0, a.ram.mem)
    modifies a`regions, a`nodes, a.ram`mem, a.ram`heads, a.ram`freePages, a.ram`own
    ensures a.Valid()
    ensures FileMapped(m0, rs, a.ram.mem, a.nodes, a.regions, virt / 4096, len / 4096, ProtFlags(false, exec), s)
    ensures Kept(a.id, a.root, o0, m0, a.ram.own, a.ram.mem, a.nodes, a.regions)
  {
    hide SpaceOk, ListsOk, TagsOk, Total, UpperHalfSame, Additive, Isolated, PageOf, Covered, Protected, Overlaps,
      ImageAdded, MappedAs, SafeBut, FreeSlot, WriteXorExecute, Alone, ReflagSlot, EagerArea;
    ghost var o1, m1, n1, r1 := a.ram.own, a.ram.mem, a.nodes, a.regions;
    var first, n := virt / 4096, len / 4096;
    var _ := a.Mprotect(virt, len, false, exec);
    RangeInHalf(first, n);
    ghost var i := FreeSlot(rs);
    Downgraded(m1, n1, r1, a.ram.mem, a.nodes, a.regions, i, first, n, ProtFlags(true, exec), ProtFlags(false, exec));
    ImageKept(m0, rs, m1, r1, a.ram.mem, a.regions, o1, a.ram.own, a.id, n1, first, n, s);
    SafeAgain(a.ram.mem, a.ram.own, a.id, a.nodes, a.regions, i, first, n, ProtFlags(false, exec));
    AdditiveIsolated(a.id, o1, m1, a.ram.own, a.ram.mem);
    IsolatedTrans(a.id, o0, m0, o1, m1, a.ram.own, a.ram.mem);
    UpperTrans(a.root, m0, m1, a.ram.mem);
    Relabelled(rs, r1, a.regions, i, first, n, exec);
  }

  lemma RangeInHalf(first: nat, n: nat)
    requires first + n <= USER_PAGES
    ensures 4096 * (first + n) < W64
  {
  }

  lemma Relabelled(rs: Slots, r1: Slots, r2: Slots, i: nat, first: nat, n: nat, exec: bool)
    requires i < MAX_AREAS && r1[i].Some?
             && r1 == rs[i := Some(EagerArea(first, n, r1[i].value.phys, ProtFlags(true, exec)))]
    requires r2 == r1[i := Some(r1[i].value.(flags := ProtFlags(false, exec)))]
    ensures r2 == rs[i := Some(EagerArea(first, n, r2[i].value.phys, ProtFlags(false, exec)))]
  {
  }

  /** Undo the mapping after the file could not be read. */
  method Abandon(a: AddressSpace, virt: nat, len: nat, ghost o0: Owners, ghost m0: Mem, ghost rs: Slots, ghost i: nat)
    requires a.Valid() && len > 0 && len % 4096 == 0 && virt / 4096 + len / 4096 <= USER_PAGES
    requires Alone(a.regions, i, virt / 4096, len / 4096) && rs == a.regions[i := None]
    requires SafeBut(a.ram.mem, a.nodes, a.regions, i, virt / 4096, len / 4096)
    requires Isolated(a.id, o0, m0, a.ram.own, a.ram.mem) && UpperHalfSame(a.root, m0, a.ram.mem)
    modifies a`regions, a.ram`mem, a.ram`heads, a.ram`freePages, a.ram`own, a.ram`lost
    ensures a.Valid() && a.regions == rs
    ensures Kept(a.id, a.root, o0, m0, a.ram.own, a.ram.mem, a.nodes, a.regions)
  {
    hide SpaceOk, ListsOk, TagsOk, Total, UpperHalfSame, UnmapStep, Isolated, Trimmed, PageOf, Covered, Trimmable,
      SafeBut, Alone, WriteXorExecute;
    ghost var o1, m1, r1 := a.ram.own, a.ram.mem, a.regions;
    var first, n := virt / 4096, len / 4096;
    AloneTrimmable(r1, i, first, n);
    RangeInHalf(first, n);
    a.UnmapRange(virt, len);
    RemovedAlone(r1, a.regions, i, first, n);
    UnmapIsolated(a.id, o1, m1, a.ram.own, a.ram.mem, a.nodes, first, first + n);
    IsolatedTrans(a.id, o0, m0, o1, m1, a.ram.own, a.ram.mem);
    UpperTrans(a.root, m0, m1, a.ram.mem);
    RestIsSafe(m1, a.nodes, r1, i, first, n);
    UnmapRepairs(m1, a.nodes, o1, a.ram.mem, a.ram.own, a.id, a.regions, first, first + n);
  }

  lemma RestIsSafe(m: Mem, nodes: Nodes, rs: Slots, i: nat, first: nat, n: nat)
    requires SafeBut(m, nodes, rs, i, first, n) && i < MAX_AREAS
    ensures SafeLeaves(m, nodes, first, first + n) && SafeAreas(rs[i := None])
  {
    hide SafeLeaves;
  }

  lemma MapTransientState(m: Mem, own: Owners, id: nat, nodes: Nodes, rs: Slots, m1: Mem, own1: Owners, nodes1: Nodes,
                          rs1: Slots, first: nat, n: nat, flags: PageFlags)
    requires SpaceOk(m1, own1, id, nodes1, rs1) && WriteXorExecute(m, nodes, rs) && Vacant(rs, first, first + n)
    requires EagerAdded(m, nodes, rs, m1, nodes1, rs1, first, n, flags) && n > 0 && Additive(id, own, m, own1, m1)
    ensures Alone(rs1, FreeSlot(rs), first, n) && rs == rs1[FreeSlot(rs) := None]
    ensures SafeBut(m1, nodes1, rs1, FreeSlot(rs), first, n) && Isolated(id, own, m, own1, m1)
  {
    hide SpaceOk, WriteXorExecute, Vacant, EagerAdded, Additive, SafeBut, MappedAs, Alone, Isolated, FreeSlot;
    AddedAlone(m, nodes, rs, m1, nodes1, rs1, first, n, flags);
    MapTransient(m, own, id, nodes, rs, m1, own1, nodes1, rs1, first, n, flags);
    AdditiveIsolated(id, own, m, own1, m1);
  }

  /**
    The protection a file mapping ends with. Removing the temporary write permission is
    left to the mprotect call, which refuses address 0; its answer is not looked at.
   */
  function FinalFlags(virt: nat, write: bool, exec: bool): PageFlags
  {
    ProtFlags(write || virt == 0, exec)
  }

  /** Nothing of another space, and no kernel translation, was touched. */
  ghost predicate Contained(id: nat, root: nat, o0: Owners, m0: Mem, own: Owners, m: Mem)
  {
    Isolated(id, o0, m0, own, m) && UpperHalfSame(root, m0, m)
  }

  lemma KeptContained(id: nat, root: nat, o0: Owners, m0: Mem, own: Owners, m: Mem, nodes: Nodes, rs: Slots)
    requires Kept(id, root, o0, m0, own, m, nodes, rs)
    ensures WriteXorExecute(m, nodes, rs) && Contained(id, root, o0, m0, own, m)
  {
    hide WriteXorExecute, Isolated, UpperHalfSame;
  }

  lemma ContainedTrans(id: nat, root: nat, o0: Owners, m0: Mem, o1: Owners, m1: Mem, o2: Owners, m2: Mem)
    requires Contained(id, root, o0, m0, o1, m1) && Contained(id, root, o1, m1, o2, m2)
    ensures Contained(id, root, o0, m0, o2, m2)
  {
    hide Isolated;
    IsolatedTrans(id, o0, m0, o1, m1, o2, m2);
    UpperTrans(root, m0, m1, m2);
  }

  /** An area left writable and executable breaks write-xor-execute. */
  lemma LeftUnsafe(m: Mem, rs: Slots, m': Mem, nodes': Nodes, rs': Slots, first: nat, n: nat, s: seq<Byte>)
    requires FileMapped(m, rs, m', nodes', rs', first, n, ProtFlags(true, true), s)
    ensures !WriteXorExecute(m', nodes', rs')
  {
    hide ImageAdded, MappedAs, SafeLeaves;
    var i := FreeSlot(rs);
    assert rs'[i].Some? && !SafeFlags(rs'[i].value.flags);
  }

  /** There is a slot and an empty range for `n` bytes at `virt`. */
  predicate Place(rs: Slots, virt: nat, n: nat)
  {
    FreeSlot(rs) < MAX_AREAS && Vacant(rs, virt / 4096, virt / 4096 + n / 4096)
  }

  /** The answer to a file mapping, given the areas, the tables and the reachable pages. */
  ghost function FileAnswer(rs: Slots, nodes: Nodes, pages: nat, virt: nat, n: nat, file: FileRead): int
  {
    if !Place(rs, virt, n) || pages < Pow2(Order(n / 4096)) + Missing(nodes, RangeTables(virt / 4096, n / 4096))
    then ENOMEM
    else if file.Failed? then file.error else virt
  }

  /**
    Map a file: eagerly and writable, copy, then drop the write permission if it was not
    asked for. On return nothing is writable and executable, whatever happens in between,
    except that an executable mapping at address 0 stays writable.
   */
  method MmapFile(a: AddressSpace, virt: nat, len: nat, write: bool, exec: bool, file: FileRead) returns (r: int)
    requires a.Valid() && WriteXorExecute(a.ram.mem, a.nodes, a.regions) && !(write && exec)
    requires 0 < len <= 4096 * 1024 && len % 4096 == 0 && virt + len <= USER_SPACE_END
    requires file.Failed? ==> file.error < 0
    requires file.Read? ==> |file.data| <= len
    modifies a`regions, a`nodes, a.ram`mem, a.ram`heads, a.ram`freePages, a.ram`own, a.ram`lost
    ensures a.Valid()
    ensures Contained(a.id, a.root, old(a.ram.own), old(a.ram.mem), a.ram.own, a.ram.mem)
    ensures WriteXorExecute(a.ram.mem, a.nodes, a.regions) <==> !(r >= 0 && virt == 0 && exec)
    ensures r == FileAnswer(old(a.regions), old(a.nodes), Total(old(a.ram.heads)), virt, len, file)
    ensures r >= 0 ==>
              && r == virt && file.Read?
              && FileMapped(old(a.ram.mem), old(a.regions), a.ram.mem, a.nodes, a.regions, virt / 4096, len / 4096,
                            FinalFlags(virt, write, exec), file.data)
              && OpenTo(a.ram.mem, a.root, virt / 4096, len / 4096, Access(true, write || virt == 0, exec))
    ensures r < 0 ==> a.regions == old(a.regions)
  {
    hide SpaceOk, ListsOk, TagsOk, Total, Additive, UpperHalfSame, EagerAdded, SameLeavesBut, WriteXorExecute, Isolated,
      Vacant, ImageAdded, Kept, FileMapped, SafeBut, Alone, FreeSlot, Missing, RangeTables, Order, Pow2, Contained,
      OpenTo, HwWalk, Permits;
    ghost var o0, m0, n0, rs := a.ram.own, a.ram.mem, a.nodes, a.regions;
    var first, n := virt / 4096, len / 4096;
    assert (len + 4095) / 4096 == n;
    var flags := ProtFlags(true, exec);
    var ok := a.Map(virt, len, flags);
    if !ok {
      NothingMapped(a.id, a.root, o0, m0, n0, rs, a.ram.own, a.ram.mem, a.nodes);
      KeptContained(a.id, a.root, o0, m0, a.ram.own, a.ram.mem, a.nodes, a.regions);
      return ENOMEM;
    }
    var i := Find(a.regions, first);
    FoundNew(a.ram.mem, a.ram.own, a.id, m0, n0, a.nodes, rs, a.regions, first, n, flags);
    MapTransientState(m0, o0, a.id, n0, rs, a.ram.mem, a.ram.own, a.nodes, a.regions, first, n, flags);
    if file.Failed? {
      Abandon(a, virt, len, o0, m0, rs, i);
      KeptContained(a.id, a.root, o0, m0, a.ram.own, a.ram.mem, a.nodes, a.regions);
      return file.error;
    }
    FileWritten(m0, o0, a.id, n0, rs, a.ram.mem, a.ram.own, a.nodes, a.regions, a.root, first, n, flags, file.data);
    a.ram.mem := Store(a.ram.mem, a.regions[i].value.phys, file.data);
    FinishFile(a, virt, len, write, exec, o0, m0, rs, file.data);
    return virt;
  }

  lemma FileSafe(m: Mem, rs: Slots, m': Mem, own': Owners, id: nat, nodes': Nodes, rs': Slots, first: nat, n: nat,
                 f: PageFlags, s: seq<Byte>)
    requires SpaceOk(m', own', id, nodes', rs') && FileMapped(m, rs, m', nodes', rs', first, n, f, s) && SafeFlags(f)
    requires SafeBut(m', nodes', rs', FreeSlot(rs), first, n)
    ensures WriteXorExecute(m', nodes', rs')
  {
    hide SpaceOk, MappedAs, ImageAdded, SafeBut, WriteXorExecute, FreeSlot;
    SafeAgain(m', own', id, nodes', rs', FreeSlot(rs), first, n, f);
  }

  lemma FileOpens(m: Mem, rs: Slots, m': Mem, own': Owners, id: nat, nodes': Nodes, rs': Slots, first: nat, n: nat,
                  f: PageFlags, s: seq<Byte>, x: Access)
    requires SpaceOk(m', own', id, nodes', rs') && FileMapped(m, rs, m', nodes', rs', first, n, f, s) && Asks(f, x)
    ensures ROOT in nodes' && OpenTo(m', nodes'[ROOT], first, n, x)
  {
    hide SpaceOk, OpenTo, MappedAs, ImageAdded, Asks;
    MappedOpens(m', own', id, nodes', rs', first, n, f, x);
  }

  method FinishFile(a: AddressSpace, virt: nat, len: nat, write: bool, exec: bool,
                    ghost o0: Owners, ghost m0: Mem, ghost rs: Slots, ghost s: seq<Byte>)
    requires a.Valid() && len > 0 && len % 4096 == 0 && virt / 4096 + len / 4096 <= USER_PAGES && !(write && exec)
    requires FileMapped(m0, rs, a.ram.mem, a.nodes, a.regions, virt / 4096, len / 4096, ProtFlags(true, exec), s)
    requires Alone(a.regions, FreeSlot(rs), virt / 4096, len / 4096)
    requires SafeBut(a.ram.mem, a.nodes, a.regions, FreeSlot(rs), virt / 4096, len / 4096)
    requires Isolated(a.id, o0, m0, a.ram.own, a.ram.mem) && UpperHalfSame(a.root, m0, a.ram.mem)
    modifies a`regions, a`nodes, a.ram`mem, a.ram`heads, a.ram`freePages, a.ram`own
    ensures a.Valid()
    ensures FileMapped(m0, rs, a.ram.mem, a.nodes, a.regions, virt / 4096, len / 4096, FinalFlags(virt, write, exec), s)
    ensures Contained(a.id, a.root, o0, m0, a.ram.own, a.ram.mem)
    ensures WriteXorExecute(a.ram.mem, a.nodes, a.regions) <==> !(virt == 0 && exec)
    ensures OpenTo(a.ram.mem, a.root, virt / 4096, len / 4096, Access(true, write || virt == 0, exec))
  {
    hide SpaceOk, ListsOk, TagsOk, Total, UpperHalfSame, Isolated, WriteXorExecute, ImageAdded, SafeBut, Alone,
      FreeSlot, MappedAs, FileMapped, OpenTo;
    if !write && virt != 0 {
      Downgrade(a, virt, len, exec, o0, m0, rs, s);
    } else if exec {
      LeftUnsafe(m0, rs, a.ram.mem, a.nodes, a.regions, virt / 4096, len / 4096, s);
    } else {
      FileSafe(m0, rs, a.ram.mem, a.ram.own, a.id, a.nodes, a.regions, virt / 4096, len / 4096, ProtFlags(true, exec),
               s);
    }
    FileOpens(m0, rs, a.ram.mem, a.ram.own, a.id, a.nodes, a.regions, virt / 4096, len / 4096,
              FinalFlags(virt, write, exec), s, Access(true, write || virt == 0, exec));
  }

  // -------------------------------------------------------------- the system call

  /** Round the length up to pages. */
  function Rounded(len: nat): (n: nat)
    ensures n % 4096 == 0 && len <= n < len + 4096
  {
    4096 * ((len + 4095) / 4096)
  }

  /** Memory, areas and reachable pages once MAP_FIXED has made room. */
  datatype Cleared = Cleared(m: Mem, rs: Slots, pages: nat)

  /** The pages [v, end) are gone, all else reads as before, and what came back is on the lists. */
  ghost predicate MadeRoom(m: Mem, rs: Slots, h: Lists, mid: Cleared, v: nat, end: nat)
  {
    && v < end
    && (forall k :: 0 <= k < MAX_AREAS && rs[k].Some? ==> rs[k].value.first <= rs[k].value.past)
    && Trimmed(rs, mid.rs, v, end) && mid.pages == Total(UnmapLists(h, rs, v, end, MAX_AREAS))
    && forall x: nat {:trigger UserByte(mid.m, mid.rs, x)} ::
         UserByte(mid.m, mid.rs, x) == if v <= x / 4096 < end then None else UserByte(m, rs, x)
  }

  /** Reads outside an unmapped range are as before. */
  lemma UnmapReads(m: Mem, own: Owners, id: nat, nodes: Nodes, rs: Slots, m': Mem, own': Owners, rs': Slots, v: nat,
                   end: nat, x: nat)
    requires SpaceOk(m, own, id, nodes, rs) && UnmapStep(id, own, m, own', m', nodes, v, end)
    requires PageOf(rs', x / 4096) == if v <= x / 4096 < end then None else PageOf(rs, x / 4096)
    ensures UserByte(m', rs', x) == if v <= x / 4096 < end then None else UserByte(m, rs, x)
  {
    hide SpaceOk, PageOf, FindFrom, SameOutside;
    UserByteAt(m, rs, x);
    UserByteAt(m', rs', x);
    if PageOf(rs', x / 4096).Some? {
      PageTag(m, own, id, nodes, rs, x / 4096, PageOf(rs, x / 4096).value + x % 4096);
    }
  }

  /** Make room for MAP_FIXED. */
  method ClearFixed(a: AddressSpace, virt: nat, len: nat, fixed: bool)
    requires a.Valid() && WriteXorExecute(a.ram.mem, a.nodes, a.regions)
    requires fixed ==> Admissible(a.regions, a.heapStart, OpUnmap(virt, len))
    requires len > 0 && len % 4096 == 0 && virt + len <= USER_SPACE_END
    modifies a`regions, a.ram`mem, a.ram`heads, a.ram`freePages, a.ram`own, a.ram`lost
    ensures a.Valid()
    ensures Kept(a.id, a.root, old(a.ram.own), old(a.ram.mem), a.ram.own, a.ram.mem, a.nodes, a.regions)
    ensures if fixed then
              MadeRoom(old(a.ram.mem), old(a.regions), old(a.ram.heads),
                       Cleared(a.ram.mem, a.regions, Total(a.ram.heads)), virt / 4096, virt / 4096 + len / 4096)
            else
              && a.regions == old(a.regions) && a.ram.mem == old(a.ram.mem)
              && a.ram.heads == old(a.ram.heads) && a.ram.own == old(a.ram.own)
  {
    hide SpaceOk, ListsOk, TagsOk, Total, Kept, WriteXorExecute, Trimmable, Trimmed, UnmapLists, UnmapStep, PageOf,
      UserByte, Tidy;
    assert (len + 4095) / 4096 == len / 4096;
    KeptRefl(a.id, a.root, a.ram.own, a.ram.mem, a.nodes, a.regions);
    if fixed {
      ghost var o0, m0, rs := a.ram.own, a.ram.mem, a.regions;
      RunUnmap(a, virt, len);
      forall x: nat
        ensures UserByte(a.ram.mem, a.regions, x) ==
                  if virt / 4096 <= x / 4096 < virt / 4096 + len / 4096 then None else UserByte(m0, rs, x)
      {
        UnmapReads(m0, o0, a.id, a.nodes, rs, a.ram.mem, a.ram.own, a.regions, virt / 4096, virt / 4096 + len / 4096,
                   x);
      }
    }
  }

  method MmapAnonymous(a: AddressSpace, virt: nat, len: nat, flags: PageFlags) returns (ok: bool)
    requires a.Valid() && WriteXorExecute(a.ram.mem, a.nodes, a.regions) && flags.present && SafeFlags(flags)
    requires len > 0 && len % 4096 == 0 && virt + len <= USER_SPACE_END
    modifies a`regions
    ensures a.Valid()
    ensures Kept(a.id, a.root, a.ram.own, a.ram.mem, a.ram.own, a.ram.mem, a.nodes, a.regions)
    ensures ok <==> Place(old(a.regions), virt, len)
    ensures ok ==> LazyAdded(old(a.regions), a.regions, virt / 4096, len / 4096, flags)
    ensures !ok ==> a.regions == old(a.regions)
  {
    hide SpaceOk, ListsOk, TagsOk, Total, LazyAdded, WriteXorExecute, Vacant, FreeSlot, Kept, SafeFlags;
    ghost var rs := a.regions;
    ok := a.MapLazy(virt, len, flags);
    if ok { LazySafe(a.ram.mem, a.nodes, rs, a.regions, virt / 4096, len / 4096, flags); }
    KeptRefl(a.id, a.root, a.ram.own, a.ram.mem, a.nodes, a.regions);
  }

  /** What the caller of mmap passes besides the range. */
  datatype Request = Request(write: bool, exec: bool, fixed: bool, anonymous: bool, off: nat)

  /** The address mmap goes for. */
  function Target(addr: nat, bump: nat, fixed: bool): nat
  {
    if fixed || addr != 0 then addr else bump
  }

  /** A request that is refused before anything is touched. */
  predicate Refused(addr: nat, len: nat, bump: nat, q: Request)
  {
    || len == 0 || Rounded(len) > MAP_MAX_BYTES || (q.write && q.exec) || (q.fixed && addr == 0)
    || Target(addr, bump, q.fixed) + Rounded(len) > USER_SPACE_END
  }

  /** A register value read as a signed number. */
  function Signed(v: nat): (r: int)
    ensures v < W64 ==> -0x8000_0000_0000_0000 <= r < 0x8000_0000_0000_0000 && (r == v || r == v - W64)
  {
    if v >= 0x8000_0000_0000_0000 then v - W64 else v
  }

  /**
    The hint is taken and the fallback address lies beyond the user half: it is not
    checked, and an area is recorded there.
   */
  predicate Escapes(rs: Slots, addr: nat, len: nat, bump: nat, q: Request)
  {
    var n := Rounded(len);
    && !Refused(addr, len, bump, q) && q.anonymous && !q.fixed && addr != 0
    && FreeSlot(rs) < MAX_AREAS && !Vacant(rs, addr / 4096, addr / 4096 + n / 4096)
    && USER_SPACE_END < bump + n < W64 && Vacant(rs, bump / 4096, bump / 4096 + n / 4096)
  }

  /** The answer to an anonymous mapping of `n` bytes among the areas `rs`. */
  function AnonymousAnswer(rs: Slots, addr: nat, n: nat, bump: nat, q: Request): int
  {
    if Place(rs, Target(addr, bump, q.fixed), n) then Target(addr, bump, q.fixed)
    else if !q.fixed && addr != 0 && bump + n < W64 && Place(rs, bump, n) then Signed(bump)
    else ENOMEM
  }

  /** The file server refuses to go to the offset asked for: nothing is touched. */
  predicate SeekFails(q: Request, seek: int)
  {
    !q.anonymous && q.off != 0 && seek < 0
  }

  /**
    mmap. `bump` is the next address of the bump allocator, `seek` and `file` what the
    file server would answer. Write together with execute is refused. MAP_FIXED first
    unmaps the range; otherwise nothing that is mapped changes. The answer is determined
    by what is there then, `mid`; a failed mapping leaves that.
    Write-xor-execute fails exactly for executable file mappings at address 0, where the
    wrapped bump allocator may lead, and the space stays well-formed exactly unless the
    fallback of a hint escapes from the user half.
   */
  method MmapCall(a: AddressSpace, bump: nat, addr: nat, len: nat, q: Request, seek: int, file: FileRead)
    returns (r: int, bump': nat, ghost mid: Cleared)
    requires a.Valid() && WriteXorExecute(a.ram.mem, a.nodes, a.regions) && bump < W64 && bump % 4096 == 0
    requires !Refused(addr, len, bump, q) && q.fixed ==> Admissible(a.regions, a.heapStart, OpUnmap(addr, Rounded(len)))
    requires !q.anonymous ==> len <= 4096 * 1024
    requires file.Failed? ==> file.error < 0
    requires file.Read? ==> |file.data| <= Rounded(len)
    modifies a`regions, a`nodes, a.ram`mem, a.ram`heads, a.ram`freePages, a.ram`own, a.ram`lost
    ensures a.Valid() <==> !Escapes(old(a.regions), addr, len, bump, q)
    ensures Contained(a.id, a.root, old(a.ram.own), old(a.ram.mem), a.ram.own, a.ram.mem)
    ensures WriteXorExecute(a.ram.mem, a.nodes, a.regions)
            <==> !(r >= 0 && !q.anonymous && q.exec && Target(addr, bump, q.fixed) == 0)
    ensures if q.fixed && !Refused(addr, len, bump, q) && !SeekFails(q, seek)
            then MadeRoom(old(a.ram.mem), old(a.regions), old(a.ram.heads), mid, addr / 4096,
                          addr / 4096 + Rounded(len) / 4096)
            else mid == Cleared(old(a.ram.mem), old(a.regions), Total(old(a.ram.heads)))
    ensures r == if Refused(addr, len, bump, q) then EINVAL
                 else if SeekFails(q, seek) then seek
                 else if q.anonymous then AnonymousAnswer(mid.rs, addr, Rounded(len), bump, q)
                 else FileAnswer(mid.rs, old(a.nodes), mid.pages, Target(addr, bump, q.fixed), Rounded(len), file)
    ensures Refused(addr, len, bump, q) || SeekFails(q, seek) ==>
              && a.ram.mem == old(a.ram.mem) && a.ram.own == old(a.ram.own) && a.ram.heads == old(a.ram.heads)
              && a.nodes == old(a.nodes)
    ensures q.anonymous ==> a.ram.mem == mid.m && (!q.fixed ==> a.ram.own == old(a.ram.own))
    ensures bump' == (if UsesBump(old(a.regions), addr, len, bump, q) then (bump + Rounded(len)) % W64 else bump)
    ensures Escapes(old(a.regions), addr, len, bump, q) ==>
              a.regions == old(a.regions)[FreeSlot(old(a.regions)) :=
                Some(LazyArea(bump / 4096, Rounded(len) / 4096, ProtFlags(q.write, q.exec)))]
    ensures !Escapes(old(a.regions), addr, len, bump, q) ==>
              if r < 0 then a.regions == mid.rs
              else if q.anonymous then
                LazyAdded(mid.rs, a.regions, r / 4096, Rounded(len) / 4096, ProtFlags(q.write, q.exec))
              else
                file.Read? && FileMapped(mid.m, mid.rs, a.ram.mem, a.nodes, a.regions,
                                         r / 4096, Rounded(len) / 4096, FinalFlags(r, q.write, q.exec), file.data)
    ensures r >= 0 && !q.anonymous ==>
              OpenTo(a.ram.mem, a.root, r / 4096, Rounded(len) / 4096, Access(true, q.write || r == 0, q.exec))
    ensures r >= 0 && q.anonymous && !Escapes(old(a.regions), addr, len, bump, q) ==>
              OpensTo(a.regions, r / 4096, Rounded(len) / 4096, Access(true, q.write, q.exec))
  {
    hide SpaceOk, ListsOk, TagsOk, Total, WriteXorExecute, Kept, Vacant, FreeSlot, FileMapped, LazyAdded, Admissible,
      SafeFlags, Contained, MadeRoom, FileAnswer, Place, OpenTo, OpensTo;
    bump' := bump;
    ghost var o0, m0 := a.ram.own, a.ram.mem;
    mid := Cleared(m0, a.regions, Total(a.ram.heads));
    KeptRefl(a.id, a.root, o0, m0, a.nodes, a.regions);
    KeptContained(a.id, a.root, o0, m0, o0, m0, a.nodes, a.regions);
    if len == 0 { return EINVAL, bump', mid; }
    var n := Rounded(len);
    if n > MAP_MAX_BYTES || (q.write && q.exec) || (q.fixed && addr == 0) { return EINVAL, bump', mid; }
    var virt := addr;
    if !q.fixed && addr == 0 {
      virt, bump' := bump, (bump + n) % W64;
    }
    if virt + n > USER_SPACE_END { return EINVAL, bump', mid; }
    if q.anonymous {
      r, bump', mid := AnonymousCall(a, bump, bump', addr, len, virt, q);
      if r >= 0 && !Escapes(old(a.regions), addr, len, bump, q) {
        ReservedOpens(a.ram.mem, a.ram.own, a.id, a.nodes, mid.rs, a.regions, r / 4096, n / 4096,
                      ProtFlags(q.write, q.exec), Access(true, q.write, q.exec));
      }
    } else if q.off != 0 && seek < 0 {
      r := seek;
    } else {
      r, mid := FileCall(a, virt, n, q, file);
    }
  }

  /** The calls that take an address from the bump allocator: also some that are refused. */
  predicate UsesBump(rs: Slots, addr: nat, len: nat, bump: nat, q: Request)
  {
    var n := Rounded(len);
    && len != 0 && n <= MAP_MAX_BYTES && !(q.write && q.exec) && !q.fixed
    && (addr == 0
        || (q.anonymous && addr + n <= USER_SPACE_END
            && !(FreeSlot(rs) < MAX_AREAS && Vacant(rs, addr / 4096, addr / 4096 + n / 4096))))
  }

  method AnonymousCall(a: AddressSpace, bump: nat, bump1: nat, addr: nat, len: nat, virt: nat, q: Request)
    returns (r: int, bump': nat, ghost mid: Cleared)
    requires a.Valid() && WriteXorExecute(a.ram.mem, a.nodes, a.regions) && q.anonymous && bump < W64
             && bump % 4096 == 0
    requires len > 0 && virt == Target(addr, bump, q.fixed) && !Refused(addr, len, bump, q)
    requires q.fixed ==> Admissible(a.regions, a.heapStart, OpUnmap(virt, Rounded(len)))
    requires bump1 == if !q.fixed && addr == 0 then (bump + Rounded(len)) % W64 else bump
    modifies a`regions, a.ram`mem, a.ram`heads, a.ram`freePages, a.ram`own, a.ram`lost
    ensures a.Valid() <==> !Escapes(old(a.regions), addr, len, bump, q)
    ensures Contained(a.id, a.root, old(a.ram.own), old(a.ram.mem), a.ram.own, a.ram.mem)
    ensures WriteXorExecute(a.ram.mem, a.nodes, a.regions)
    ensures bump' == (if UsesBump(old(a.regions), addr, len, bump, q) then (bump + Rounded(len)) % W64 else bump)
    ensures if q.fixed then
              MadeRoom(old(a.ram.mem), old(a.regions), old(a.ram.heads), mid, addr / 4096,
                       addr / 4096 + Rounded(len) / 4096)
            else mid == Cleared(old(a.ram.mem), old(a.regions), Total(old(a.ram.heads)))
    ensures r == AnonymousAnswer(mid.rs, addr, Rounded(len), bump, q)
    ensures a.ram.mem == mid.m && (!q.fixed ==> a.ram.own == old(a.ram.own))
    ensures Escapes(old(a.regions), addr, len, bump, q) ==>
              a.regions == old(a.regions)[FreeSlot(old(a.regions)) :=
                Some(LazyArea(bump / 4096, Rounded(len) / 4096, ProtFlags(q.write, q.exec)))]
    ensures !Escapes(old(a.regions), addr, len, bump, q) ==>
              if r < 0 then a.regions == mid.rs
              else LazyAdded(mid.rs, a.regions, r / 4096, Rounded(len) / 4096, ProtFlags(q.write, q.exec))
  {
    hide SpaceOk, ListsOk, TagsOk, Total, WriteXorExecute, Isolated, UpperHalfSame, Vacant, FreeSlot, LazyAdded,
      Admissible, Contained, Kept, MadeRoom;
    var n := Rounded(len);
    bump' := bump1;
    ghost var o0, m0 := a.ram.own, a.ram.mem;
    ClearFixed(a, virt, n, q.fixed);
    mid := Cleared(a.ram.mem, a.regions, Total(a.ram.heads));
    KeptContained(a.id, a.root, o0, m0, a.ram.own, a.ram.mem, a.nodes, a.regions);
    ghost var o1, m1 := a.ram.own, a.ram.mem;
    var ok := MmapAnonymous(a, virt, n, ProtFlags(q.write, q.exec));
    KeptContained(a.id, a.root, o1, m1, o1, m1, a.nodes, a.regions);
    r := if ok then virt else ENOMEM;
    if !ok && !q.fixed && addr != 0 {
      bump' := (bump + n) % W64;
      if bump + n <= USER_SPACE_END {
        ok := MmapAnonymous(a, bump, n, ProtFlags(q.write, q.exec));
        KeptContained(a.id, a.root, o1, m1, o1, m1, a.nodes, a.regions);
        r := if ok then bump else ENOMEM;
      } else if bump + n < W64 {
        r := MapBeyond(a, bump, n, ProtFlags(q.write, q.exec));
      }
    }
  }

  /** Record a lazy area that reaches beyond the user half, as the unchecked fallback does. */
  method MapBeyond(a: AddressSpace, virt: nat, n: nat, flags: PageFlags) returns (r: int)
    requires a.Valid() && WriteXorExecute(a.ram.mem, a.nodes, a.regions) && SafeFlags(flags)
    requires virt % 4096 == 0 && n % 4096 == 0 && USER_SPACE_END < virt + n < W64
    modifies a`regions
    ensures WriteXorExecute(a.ram.mem, a.nodes, a.regions)
    ensures if Place(old(a.regions), virt, n) then
              && r == Signed(virt) && !a.Valid()
              && a.regions == old(a.regions)[FreeSlot(old(a.regions)) := Some(LazyArea(virt / 4096, n / 4096, flags))]
            else
              r == ENOMEM && a.regions == old(a.regions) && a.Valid()
  {
    hide ListsOk, TagsOk, Total, TableOk, AgreeOutside, SafeLeaves, AreaHeld, Disjoint, FreeSlot, Vacant;
    var slot := FirstFree(a.regions);
    if slot == MAX_AREAS { return ENOMEM; }
    var vacant := IsVacant(a.regions, virt / 4096, virt / 4096 + n / 4096);
    if !vacant { return ENOMEM; }
    a.regions := a.regions[slot := Some(LazyArea(virt / 4096, n / 4096, flags))];
    assert a.regions[slot].Some? && !AreaOk(a.regions[slot].value);
    return Signed(virt);
  }

  method FileCall(a: AddressSpace, virt: nat, n: nat, q: Request, file: FileRead)
    returns (r: int, ghost mid: Cleared)
    requires a.Valid() && WriteXorExecute(a.ram.mem, a.nodes, a.regions) && !(q.write && q.exec)
    requires 0 < n <= 4096 * 1024 && n % 4096 == 0 && virt + n <= USER_SPACE_END
    requires q.fixed ==> Admissible(a.regions, a.heapStart, OpUnmap(virt, n))
    requires file.Failed? ==> file.error < 0
    requires file.Read? ==> |file.data| <= n
    modifies a`regions, a`nodes, a.ram`mem, a.ram`heads, a.ram`freePages, a.ram`own, a.ram`lost
    ensures a.Valid()
    ensures Contained(a.id, a.root, old(a.ram.own), old(a.ram.mem), a.ram.own, a.ram.mem)
    ensures WriteXorExecute(a.ram.mem, a.nodes, a.regions) <==> !(r >= 0 && virt == 0 && q.exec)
    ensures if q.fixed then
              MadeRoom(old(a.ram.mem), old(a.regions), old(a.ram.heads), mid, virt / 4096, virt / 4096 + n / 4096)
            else mid == Cleared(old(a.ram.mem), old(a.regions), Total(old(a.ram.heads)))
    ensures r == FileAnswer(mid.rs, old(a.nodes), mid.pages, virt, n, file)
    ensures r < 0 ==> a.regions == mid.rs
    ensures r >= 0 ==>
              && r == virt && file.Read?
              && FileMapped(mid.m, mid.rs, a.ram.mem, a.nodes, a.regions, virt / 4096, n / 4096,
                            FinalFlags(virt, q.write, q.exec), file.data)
              && OpenTo(a.ram.mem, a.root, virt / 4096, n / 4096, Access(true, q.write || virt == 0, q.exec))
  {
    hide SpaceOk, ListsOk, TagsOk, Total, WriteXorExecute, Isolated, UpperHalfSame, Vacant, FileMapped, Admissible,
      Contained, Kept, FreeSlot, Missing, RangeTables, Order, Pow2, MadeRoom, FileAnswer, OpenTo;
    ghost var o0, m0 := a.ram.own, a.ram.mem;
    ClearFixed(a, virt, n, q.fixed);
    mid := Cleared(a.ram.mem, a.regions, Total(a.ram.heads));
    KeptContained(a.id, a.root, o0, m0, a.ram.own, a.ram.mem, a.nodes, a.regions);
    ghost var o1, m1 := a.ram.own, a.ram.mem;
    r := MmapFile(a, virt, n, q.write, q.exec, file);
    ContainedTrans(a.id, a.root, o0, m0, o1, m1, a.ram.own, a.ram.mem);
  }

  lemma StillOpens(m: Mem, own: Owners, id: nat, nodes: Nodes, rs: Slots, m': Mem, own': Owners, nodes': Nodes,
                   rs': Slots, v: nat, first: nat, n: nat, x: Access)
    requires SpaceOk(m, own, id, nodes, rs) && SpaceOk(m', own', id, nodes', rs')
    requires FaultHandled(m, nodes, rs, m', nodes', rs', v) && OpensTo(rs, first, n, x)
    ensures OpensTo(rs', first, n, x)
  {
    SpaceAreas(m, own, id, nodes, rs);
    SpaceAreas(m', own', id, nodes', rs');
    hide SpaceOk, AreaOk, AreaHeld, Disjoint, PageOf, Leaf, LeafEntry, Recorded, SameLeavesBut;
    forall w: nat | first <= w < first + n
      ensures Covered(rs', w) && Asks(FlagsAt(rs', w), x)
    {
      var i, j := FindFrom(rs, v, 0), FindFrom(rs, w, 0);
      assert Covered(rs, w);
      assert rs'[j].Some? && Covers(rs'[j].value, w) && rs'[j].value.flags == rs[j].value.flags;
      FindUnique(rs', j, w);
    }
  }

  /**
    The first touch of a page of an anonymous mapping opens it to exactly the access that
    was asked for, if there is memory for it, and the other pages still wait for theirs.
   */
  method Touch(a: AddressSpace, va: nat, first: nat, n: nat, x: Access) returns (ok: bool)
    requires a.Valid() && OpensTo(a.regions, first, n, x) && first <= va / 4096 < first + n
    modifies a`regions, a`nodes, a.ram`mem, a.ram`heads, a.ram`freePages, a.ram`own, a.ram`lost
    ensures a.Valid() && OpensTo(a.regions, first, n, x)
    ensures ok ==> Permits(HwWalk(a.ram.mem, a.root, va / 4096), x)
    ensures PageOf(old(a.regions), va / 4096) == None ==>
              (ok <==> Total(old(a.ram.heads)) >= 1 + Missing(old(a.nodes), PathTables(va / 4096)))
  {
    hide SpaceOk, ListsOk, TagsOk, Total, Additive, UpperHalfSame, SameLeavesBut, FaultHandled, Missing, PathTables,
      HwWalk, FindFrom, OpensTo;
    ghost var o0, m0, n0, rs := a.ram.own, a.ram.mem, a.nodes, a.regions;
    OpensAt(m0, o0, a.id, n0, rs, first, n, x, va / 4096);
    ok := a.HandlePageFault(va);
    if ok {
      StillOpens(m0, o0, a.id, n0, rs, a.ram.mem, a.ram.own, a.nodes, a.regions, va / 4096, first, n, x);
    }
  }

  lemma OpensAt(m: Mem, own: Owners, id: nat, nodes: Nodes, rs: Slots, first: nat, n: nat, x: Access, w: nat)
    requires SpaceOk(m, own, id, nodes, rs) && OpensTo(rs, first, n, x) && first <= w < first + n
    ensures var i := FindFrom(rs, w, 0);
            && i < MAX_AREAS && Asks(rs[i].value.flags, x)
            && (PageOf(rs, w) == None ==> Demandable(rs[i].value, w))
  {
    assert Covered(rs, w) && Asks(FlagsAt(rs, w), x);
    hide SpaceOk;
  }

  // --------------------------------------------------------- where the counter leads

  /** The counter after `k` requests of 4 MiB. */
  function Advanced(bump: nat, k: nat): nat
  {
    if k == 0 then bump else (Advanced(bump, k - 1) + 4096 * 1024) % W64
  }

  lemma {:induction false} AdvancedIs(bump: nat, k: nat)
    requires bump < W64
    ensures Advanced(bump, k) == (bump + k * (4096 * 1024)) % W64
  {
    if k > 0 {
      AdvancedIs(bump, k - 1);
      var before := bump + (k - 1) * (4096 * 1024);
      assert bump + k * (4096 * 1024) == before + 4096 * 1024;
      assert (before % W64 + 4096 * 1024) % W64 == (before + 4096 * 1024) % W64;
    }
  }

  /** The counter starts at 0x1000_0000, which is 64 times 4 MiB, and wraps to 0 after the remaining 2^42 - 64. */
  lemma BumpWraps()
    ensures Advanced(0x1000_0000, 0x400_0000_0000 - 64) == 0
  {
    hide Advanced;
    AdvancedIs(0x1000_0000, 0x400_0000_0000 - 64);
  }

  /** A file mapping of 4 MiB at an offset that the file server refuses. */
  const BAD_SEEK := Request(false, false, false, false, 4096)

  /**
    Requests that fail before anything is mapped move the counter all the same, and
    nothing else.
   */
  method WasteAddresses(a: AddressSpace, bump: nat, k: nat) returns (bump': nat)
    requires a.Valid() && WriteXorExecute(a.ram.mem, a.nodes, a.regions) && bump < W64 && bump % 4096 == 0
    modifies a`regions, a`nodes, a.ram`mem, a.ram`heads, a.ram`freePages, a.ram`own, a.ram`lost
    ensures a.Valid() && WriteXorExecute(a.ram.mem, a.nodes, a.regions)
    ensures bump' == Advanced(bump, k)
    ensures a.regions == old(a.regions) && a.nodes == old(a.nodes) && a.ram.heads == old(a.ram.heads)
  {
    hide SpaceOk, ListsOk, TagsOk, Total, WriteXorExecute, Vacant, FreeSlot, FileMapped, Contained, LazyAdded,
      FileAnswer, MadeRoom, Escapes;
    bump' := bump;
    for i := 0 to k
      invariant a.Valid() && WriteXorExecute(a.ram.mem, a.nodes, a.regions) && bump' < W64 && bump' % 4096 == 0
      invariant bump' == Advanced(bump, i)
      invariant a.regions == old(a.regions) && a.nodes == old(a.nodes) && a.ram.heads == old(a.ram.heads)
    {
      assert Rounded(4096 * 1024) == 4096 * 1024;
      NotEscaping(a.regions, 4096 * 1024, bump');
      var r;
      ghost var mid;
      r, bump', mid := MmapCall(a, bump', 0, 4096 * 1024, BAD_SEEK, -9, Read([]));
    }
  }

  lemma NotEscaping(rs: Slots, len: nat, bump: nat)
    ensures !Escapes(rs, 0, len, bump, BAD_SEEK)
  {
  }

  /**
    The failing run: from the counter's start, 2^42 - 64 failing requests lead it to 0.
    Then mapping one page of a file for reading and executing succeeds in any space with a
    free slot, page 0 vacant and a few pages left, and leaves page 0 writable and executable.
   */
  method PageZeroUnsafe(a: AddressSpace, data: seq<Byte>) returns (r: int)
    requires a.Valid() && WriteXorExecute(a.ram.mem, a.nodes, a.regions) && |data| <= 4096
    requires FreeSlot(a.regions) < MAX_AREAS && Vacant(a.regions, 0, 1)
    requires Total(a.ram.heads) >= 1 + Missing(a.nodes, RangeTables(0, 1))
    modifies a`regions, a`nodes, a.ram`mem, a.ram`heads, a.ram`freePages, a.ram`own, a.ram`lost
    ensures r == 0 && !WriteXorExecute(a.ram.mem, a.nodes, a.regions)
  {
    hide SpaceOk, ListsOk, TagsOk, Total, WriteXorExecute, Vacant, FreeSlot, FileMapped, Contained, Missing,
      RangeTables, Advanced, MadeRoom, LazyAdded;
    var bump := WasteAddresses(a, 0x1000_0000, 0x400_0000_0000 - 64);
    BumpWraps();
    assert Order(1) == 0 && Pow2(0) == 1;
    ghost var mid;
    r, bump, mid := MmapCall(a, bump, 0, 4096, Request(false, true, false, false, 0), 0, Read(data));
  }
}
