/**
  The ELF64 loader (elf/src/lib.rs): header parsing against the file layout, and
  loading of every PT_LOAD segment into an address space.
 */
module Elf {
  import opened Words
  import opened Buddy
  import opened Paging
  import opened Areas
  import opened Space
  import opened Steps
  import opened Faults
  import opened Rights
  import opened Vmm
  import opened Runs
  import opened Costs
  import opened UserMemory
  import opened Images

  datatype ElfError =
    | TooShort | BadMagic | NotElf64 | NotLittleEndian | NotExecutable | UnsupportedArch
    | BadProgramHeader | MappingFailed | SegmentOverflow

  datatype Result<T> = Ok(value: T) | Err(error: ElfError)

  const ET_EXEC := 2
  const ET_DYN := 3
  const EM_X86_64 := 62
  const PT_LOAD := 1

  // ------------------------------------------------------------------- fields

  /** A little-endian field of `n` bytes, if it lies inside the file. */
  function ReadLe(b: seq<Byte>, off: nat, n: nat): Option<nat>
  {
    if off + n > |b| then None else Some(FromLe(b[off..off + n]))
  }

  /** The file stores `v` at `off`, in `n` bytes. */
  predicate Stores(b: seq<Byte>, off: nat, n: nat, v: nat)
  {
    off + n <= |b| && b[off..off + n] == LeBytes(v, n) && v < Pow256(n)
  }

  /** Reading a field is the inverse of storing it. */
  lemma ReadStores(b: seq<Byte>, off: nat, n: nat, v: nat)
    ensures ReadLe(b, off, n) == Some(v) <==> Stores(b, off, n, v)
  {
    hide LeBytes, FromLe, Pow256;
    if off + n <= |b| {
      LeInverse(b[off..off + n]);
      FromLeBound(b[off..off + n]);
      if Stores(b, off, n, v) { LeRoundTrip(v, n); }
    }
  }

  // ------------------------------------------------------------------ headers

  datatype Ehdr = Ehdr(kind: nat, machine: nat, entry: nat, phoff: nat, phentsize: nat, phnum: nat)

  datatype Phdr = Phdr(kind: nat, flags: nat, offset: nat, vaddr: nat, filesz: nat, memsz: nat)

  function ParseEhdr(b: seq<Byte>): Result<Ehdr>
  {
    if |b| < 64 then Err(TooShort)
    else if b[0..4] != [0x7f, 0x45, 0x4c, 0x46] then Err(BadMagic)
    else if b[4] != 2 then Err(NotElf64)
    else if b[5] != 1 then Err(NotLittleEndian)
    else
      var h := Ehdr(FromLe(b[16..18]), FromLe(b[18..20]), FromLe(b[24..32]), FromLe(b[32..40]), FromLe(b[54..56]),
                    FromLe(b[56..58]));
      if h.kind != ET_EXEC && h.kind != ET_DYN then Err(NotExecutable)
      else if h.machine != EM_X86_64 then Err(UnsupportedArch)
      else Ok(h)
  }

  function ParsePhdr(b: seq<Byte>, off: nat): Result<Phdr>
  {
    var kind, flags, offset := ReadLe(b, off, 4), ReadLe(b, off + 4, 4), ReadLe(b, off + 8, 8);
    var vaddr, filesz, memsz := ReadLe(b, off + 16, 8), ReadLe(b, off + 32, 8), ReadLe(b, off + 40, 8);
    if kind.Some? && flags.Some? && offset.Some? && vaddr.Some? && filesz.Some? && memsz.Some?
    then Ok(Phdr(kind.value, flags.value, offset.value, vaddr.value, filesz.value, memsz.value))
    else Err(BadProgramHeader)
  }

  /** The file starts with the header `h`, laid out as the ELF-64 format says. */
  predicate EhdrLayout(b: seq<Byte>, h: Ehdr)
  {
    && |b| >= 64 && b[0..4] == [0x7f, 0x45, 0x4c, 0x46] && b[4] == 2 && b[5] == 1
    && Stores(b, 16, 2, h.kind) && Stores(b, 18, 2, h.machine) && Stores(b, 24, 8, h.entry)
    && Stores(b, 32, 8, h.phoff) && Stores(b, 54, 2, h.phentsize) && Stores(b, 56, 2, h.phnum)
  }

  predicate PhdrLayout(b: seq<Byte>, off: nat, p: Phdr)
  {
    && Stores(b, off, 4, p.kind) && Stores(b, off + 4, 4, p.flags) && Stores(b, off + 8, 8, p.offset)
    && Stores(b, off + 16, 8, p.vaddr) && Stores(b, off + 32, 8, p.filesz) && Stores(b, off + 40, 8, p.memsz)
  }

  /** Parsing accepts exactly the x86-64 executables, and finds the header they were written with. */
  lemma EhdrExact(b: seq<Byte>, h: Ehdr)
    ensures ParseEhdr(b) == Ok(h) <==> EhdrLayout(b, h) && h.kind in {ET_EXEC, ET_DYN} && h.machine == EM_X86_64
  {
    hide FromLe, Stores;
    if |b| >= 64 {
      ReadStores(b, 16, 2, h.kind);
      ReadStores(b, 18, 2, h.machine);
      ReadStores(b, 24, 8, h.entry);
      ReadStores(b, 32, 8, h.phoff);
      ReadStores(b, 54, 2, h.phentsize);
      ReadStores(b, 56, 2, h.phnum);
    }
  }

  lemma PhdrExact(b: seq<Byte>, off: nat, p: Phdr)
    ensures ParsePhdr(b, off) == Ok(p) <==> PhdrLayout(b, off, p)
  {
    hide ReadLe, Stores;
    ReadStores(b, off, 4, p.kind);
    ReadStores(b, off + 4, 4, p.flags);
    ReadStores(b, off + 8, 8, p.offset);
    ReadStores(b, off + 16, 8, p.vaddr);
    ReadStores(b, off + 32, 8, p.filesz);
    ReadStores(b, off + 40, 8, p.memsz);
  }

  // ----------------------------------------------------------------- segments

  /** Write is granted only when execute is not asked for. */
  function SegmentFlags(flags: nat): (f: PageFlags)
    ensures f.present && SafeFlags(f)
  {
    var x, w := flags % 2 == 1, flags / 2 % 2 == 1;
    PageFlags(true, w && !x, true, x, false)
  }

  /** The segment that program header `i` asks to load, if it does. */
  function SegmentAt(b: seq<Byte>, h: Ehdr, i: nat): Option<Phdr>
  {
    var p := ParsePhdr(b, h.phoff + i * h.phentsize);
    if p.Ok? && p.value.kind == PT_LOAD && p.value.memsz != 0 then Some(p.value) else None
  }

  function SegmentPages(p: Phdr): nat
  {
    (p.memsz + p.vaddr % 4096 + 4095) / 4096
  }

  /** The file part of the segment stays inside the block allocated for it. */
  predicate FileFits(p: Phdr)
  {
    p.vaddr % 4096 + p.filesz <= Size(Order(SegmentPages(p)))
  }

  /** A file part no larger than the segment fits. */
  lemma UsualFits(p: Phdr)
    requires p.filesz <= p.memsz
    ensures FileFits(p)
  {
    OrderIsLeast(SegmentPages(p));
    hide Order;
  }

  /** A byte outside the block is written exactly when the file part does not fit. */
  lemma CopyContained(p: Phdr, phys: nat)
    requires p.filesz > 0
    ensures var at := phys + p.vaddr % 4096;
            FileFits(p) <==> forall x :: at <= x < at + p.filesz ==> Inside(x, phys, Order(SegmentPages(p)))
  {
    hide Order, Size;
    var x := phys + p.vaddr % 4096 + p.filesz - 1;
    assert Inside(x, phys, Order(SegmentPages(p))) ==> FileFits(p);
  }

  /** One byte of memory, a page and a byte of file. */
  const OVERGROWN := Phdr(PT_LOAD, 4, 0, 0, 4097, 1)

  /**
    Whatever is right behind the block of such a segment is overwritten: with the block at
    `phys` held by space `id`, memory of somebody else changes.
   */
  lemma Overgrows(id: nat, slot: nat, phys: nat) returns (own: Owners, m: Mem, s: seq<Byte>)
    requires Aligned(phys, 0) && phys + Size(0) <= PHYS_LIMIT
    ensures !FileFits(OVERGROWN) && SegmentPages(OVERGROWN) == 1 && |s| == OVERGROWN.filesz
    ensures BlockHeld(own, id, slot, phys, Order(1)) && !DataWritten(id, own, m, Store(m, phys, s))
  {
    own := x => if Inside(x, phys, 0) then Held(id, Extent(slot)) else Kernel;
    m, s := _ => 0, seq(4097, _ => 1);
    assert Order(1) == 0 && Size(0) == 4096;
    var x := phys + 4096;
    assert Store(m, phys, s)(x) == 1 && m(x) == 0 && own(x) == Kernel;
  }

  /** What the loader takes for granted of a segment. */
  predicate Loadable(p: Phdr)
  {
    FileFits(p) && SegmentPages(p) <= 1024 && p.vaddr / 4096 + SegmentPages(p) <= USER_PAGES
  }

  /** Every byte of the segment reads as the file says, or zero beyond the file's part. */
  ghost predicate SegmentLoaded(m: Mem, rs: Slots, b: seq<Byte>, p: Phdr)
  {
    && p.offset + p.filesz <= |b|
    && forall x: nat {:trigger UserByte(m, rs, x)} :: p.vaddr <= x < p.vaddr + p.memsz ==>
         UserByte(m, rs, x) == Some(if x < p.vaddr + p.filesz then b[p.offset + (x - p.vaddr)] else 0)
  }

  lemma SegmentSpan(p: Phdr)
    requires p.memsz != 0
    ensures SegmentPages(p) > 0 && p.vaddr % 4096 + p.memsz <= 4096 * SegmentPages(p) < p.vaddr % 4096 + p.memsz + 4096
    ensures p.vaddr == 4096 * (p.vaddr / 4096) + p.vaddr % 4096
  {
  }

  lemma SegmentNow(m: Mem, rs: Slots, m': Mem, rs': Slots, b: seq<Byte>, p: Phdr)
    requires p.memsz != 0 && p.offset + p.filesz <= |b|
    requires ImageAdded(m, rs, m', rs', p.vaddr / 4096, SegmentPages(p), p.vaddr % 4096,
                        b[p.offset..p.offset + p.filesz])
    ensures SegmentLoaded(m', rs', b, p)
  {
    hide UserByte;
    SegmentSpan(p);
    var s, off := b[p.offset..p.offset + p.filesz], p.vaddr % 4096;
    forall x: nat | p.vaddr <= x < p.vaddr + p.memsz
      ensures UserByte(m', rs', x) == Some(if x < p.vaddr + p.filesz then b[p.offset + (x - p.vaddr)] else 0)
    {
      assert x - 4096 * (p.vaddr / 4096) == off + (x - p.vaddr);
    }
  }

  /** A segment loaded earlier is not disturbed by a later one. */
  lemma SegmentKept(m: Mem, rs: Slots, m': Mem, rs': Slots, b: seq<Byte>, p: Phdr, first: nat, n: nat, off: nat,
                    s: seq<Byte>)
    requires SegmentLoaded(m, rs, b, p) && ImageAdded(m, rs, m', rs', first, n, off, s)
    ensures SegmentLoaded(m', rs', b, p)
  {
    hide UserByte;
    forall x: nat | p.vaddr <= x < p.vaddr + p.memsz
      ensures UserByte(m', rs', x) == Some(if x < p.vaddr + p.filesz then b[p.offset + (x - p.vaddr)] else 0)
    {
      assert UserByte(m, rs, x).Some?;
    }
  }

  /** What mapping and filling one segment keeps and adds. */
  lemma SegmentStep(m: Mem, own: Owners, id: nat, nodes: Nodes, rs: Slots, m1: Mem, own1: Owners, nodes1: Nodes,
                    rs1: Slots, root: nat, first: nat, n: nat, flags: PageFlags, off: nat, s: seq<Byte>)
    requires SpaceOk(m, own, id, nodes, rs) && SpaceOk(m1, own1, id, nodes1, rs1) && ROOT in nodes1
             && nodes1[ROOT] == root
    requires Additive(id, own, m, own1, m1) && Vacant(rs, first, first + n) && UpperHalfSame(root, m, m1)
    requires EagerAdded(m, nodes, rs, m1, nodes1, rs1, first, n, flags) && off + |s| <= Size(Order(n))
    requires WriteXorExecute(m, nodes, rs) && SafeFlags(flags)
    ensures FreeSlot(rs) < MAX_AREAS && rs1[FreeSlot(rs)].Some?
    ensures var m2 := Store(m1, rs1[FreeSlot(rs)].value.phys + off, s);
            && ImageAdded(m, rs, m2, rs1, first, n, off, s)
            && SpaceOk(m2, own1, id, nodes1, rs1) && SameLeavesBut(m1, nodes1, m2, nodes1, -1)
            && Kept(id, root, own, m, own1, m2, nodes1, rs1)
  {
    hide SpaceOk, Additive, Vacant, UserByte, PageOf, UpperHalfSame, WriteXorExecute, Isolated, ImageAdded, EagerAdded,
      FreeSlot, NPages, SafeLeaves, Kept, DataWritten, SameLeavesBut;
    var i := FreeSlot(rs);
    NewArea(m, nodes, rs, m1, nodes1, rs1, first, n, flags);
    ImageExact(m, own, id, nodes, rs, m1, own1, nodes1, rs1, first, n, flags, off, s);
    BlockStored(m1, own1, id, nodes1, rs1, i, off, s);
    MapSafe(m, own, id, nodes, rs, m1, own1, nodes1, rs1, first, n, flags);
    StoredKept(m, own, id, m1, own1, nodes1, rs1, root, Store(m1, rs1[i].value.phys + off, s));
  }

  /**
    Every page that a byte of the segment lies in is open to user code: executable if and
    only if bit 0 of the header's flags is set, writable if and only if bit 1 is and bit 0
    is not.
   */
  ghost predicate SegmentOpen(m: Mem, root: nat, p: Phdr)
  {
    forall w: nat :: p.vaddr / 4096 <= w && 4096 * w < p.vaddr + p.memsz ==>
      && w < USER_PAGES
      && Permits(HwWalk(m, root, w), Access(true, p.flags / 2 % 2 == 1 && p.flags % 2 == 0, p.flags % 2 == 1))
  }

  /** The pages of a segment, as mapped and after its bytes are written; other pages keep their translation. */
  lemma SegmentOpens(m: Mem, own: Owners, id: nat, nodes: Nodes, rs: Slots, m1: Mem, own1: Owners, nodes1: Nodes,
                     rs1: Slots, m2: Mem, p: Phdr)
    requires SpaceOk(m, own, id, nodes, rs) && SpaceOk(m1, own1, id, nodes1, rs1) && SpaceOk(m2, own1, id, nodes1, rs1)
    requires nodes1[ROOT] == nodes[ROOT] && p.memsz != 0 && Loadable(p)
    requires Vacant(rs, p.vaddr / 4096, p.vaddr / 4096 + SegmentPages(p))
    requires EagerAdded(m, nodes, rs, m1, nodes1, rs1, p.vaddr / 4096, SegmentPages(p), SegmentFlags(p.flags))
    requires SameLeavesBut(m1, nodes1, m2, nodes1, -1)
    ensures SegmentOpen(m2, nodes[ROOT], p) && WalksKept(m, nodes[ROOT], m2)
  {
    var root, first, n := nodes[ROOT], p.vaddr / 4096, SegmentPages(p);
    hide AreasOk, AgreeOutside, TableOk, HwWalk, Permits, EagerAdded, Vacant, SameLeavesBut, Order, Size;
    EagerKeepsWalks(m, own, id, nodes, rs, m1, own1, nodes1, rs1, first, n, SegmentFlags(p.flags));
    EagerWalks(m, nodes, rs, m1, own1, id, nodes1, rs1, first, n, SegmentFlags(p.flags));
    QuietWalks(m1, own1, nodes1, m2, own1, id, nodes1);
    SegmentSpan(p);
    hide SpaceOk;
  }

  lemma NewArea(m: Mem, nodes: Nodes, rs: Slots, m': Mem, nodes': Nodes, rs': Slots, first: nat, n: nat,
                flags: PageFlags)
    requires EagerAdded(m, nodes, rs, m', nodes', rs', first, n, flags)
    ensures FreeSlot(rs) < MAX_AREAS && rs'[FreeSlot(rs)].Some?
    ensures !rs'[FreeSlot(rs)].value.lazy && NPages(rs'[FreeSlot(rs)].value) == n
  {
    hide LeavesMapped, FreeSlot;
  }

  lemma StoredKept(m: Mem, own: Owners, id: nat, m1: Mem, own1: Owners, nodes: Nodes, rs: Slots, root: nat, m2: Mem)
    requires Additive(id, own, m, own1, m1) && UpperHalfSame(root, m, m1) && WriteXorExecute(m1, nodes, rs)
    requires DataWritten(id, own1, m1, m2) && SameLeavesBut(m1, nodes, m2, nodes, -1) && UpperHalfSame(root, m1, m2)
    ensures Kept(id, root, own, m, own1, m2, nodes, rs)
  {
    hide WriteXorExecute, Isolated, Additive, DataWritten, SameLeavesBut;
    QuietSafe(m1, nodes, rs, m2, nodes);
    AdditiveIsolated(id, own, m, own1, m1);
    WrittenIsolated(id, own1, m1, m2);
    IsolatedTrans(id, own, m, own1, m1, own1, m2);
  }

  lemma WrittenIsolated(id: nat, own: Owners, m: Mem, m': Mem)
    requires DataWritten(id, own, m, m')
    ensures Isolated(id, own, m, own, m')
  {
  }

  /** How loading ends, and the room it leaves. */
  datatype Outcome = Loaded(room: Room) | Refused(error: ElfError)

  /** What becomes of a segment, given the room there is. */
  ghost function SegmentOutcome(b: seq<Byte>, p: Phdr, q: Room): Outcome
  {
    if p.offset + p.filesz >= W64 then Refused(SegmentOverflow)
    else if p.offset + p.filesz > |b| then Refused(BadProgramHeader)
    else if RoomFor(q, p.vaddr / 4096, SegmentPages(p)) then Loaded(Taking(q, p.vaddr / 4096, SegmentPages(p)))
    else Refused(MappingFailed)
  }

  /** The answer and the state are those of the outcome. */
  ghost predicate EndsAs(r: Result<nat>, rs: Slots, nodes: Nodes, h: Lists, o: Outcome)
  {
    match o
    case Loaded(q) => r.Ok? && RoomIs(rs, nodes, h, q)
    case Refused(e) => r == Err(e)
  }

  /** Load one segment, or leave areas and translations as they are. */
  method LoadSegment(a: AddressSpace, b: seq<Byte>, p: Phdr, ghost q: Room) returns (r: Result<nat>)
    requires a.Valid() && p.memsz != 0 && Loadable(p) && WriteXorExecute(a.ram.mem, a.nodes, a.regions)
    requires RoomIs(a.regions, a.nodes, a.ram.heads, q)
    modifies a`regions, a`nodes, a.ram`mem, a.ram`heads, a.ram`freePages, a.ram`own, a.ram`lost
    ensures a.Valid()
    ensures Kept(a.id, a.root, old(a.ram.own), old(a.ram.mem), a.ram.own, a.ram.mem, a.nodes, a.regions)
    ensures r.Ok? ==>
              && r.value == p.vaddr + p.memsz && p.offset + p.filesz <= |b|
              && ImageAdded(old(a.ram.mem), old(a.regions), a.ram.mem, a.regions,
                            p.vaddr / 4096, SegmentPages(p), p.vaddr % 4096, b[p.offset..p.offset + p.filesz])
              && SegmentOpen(a.ram.mem, a.root, p)
    ensures WalksKept(old(a.ram.mem), a.root, a.ram.mem)
    ensures r.Err? ==>
              a.regions == old(a.regions) && SameLeavesBut(old(a.ram.mem), old(a.nodes), a.ram.mem, a.nodes, -1)
    ensures EndsAs(r, a.regions, a.nodes, a.ram.heads, SegmentOutcome(b, p, q))
  {
    hide RoomIs, RoomFor, Taking, RangeTables, Missing, Order, Pow2;
    hide SpaceOk, ListsOk, TagsOk, Total, Additive, UpperHalfSame, EagerAdded, SameLeavesBut, WriteXorExecute, Isolated,
      Vacant, ImageAdded, Kept, OpenTo, SegmentOpen, WalksKept;
    ghost var o0, m0, n0, rs := a.ram.own, a.ram.mem, a.nodes, a.regions;
    SpaceRefl(m0, o0, a.id, n0, rs);
    KeptRefl(a.id, a.root, o0, m0, n0, rs);
    WalksKeptRefl(m0, a.root);
    if p.offset + p.filesz >= W64 { return Err(SegmentOverflow); }
    if p.offset + p.filesz > |b| { return Err(BadProgramHeader); }
    var flags := SegmentFlags(p.flags);
    var pageVaddr := p.vaddr - p.vaddr % 4096;
    SegmentSpan(p);
    RoomDecides(rs, n0, a.ram.heads, q, p.vaddr / 4096, SegmentPages(p));
    ghost var h0 := a.ram.heads;
    var ok := a.Map(pageVaddr, p.memsz + p.vaddr % 4096, flags);
    if !ok {
      NothingMapped(a.id, a.root, o0, m0, n0, rs, a.ram.own, a.ram.mem, a.nodes);
      QuietKeepsWalks(m0, o0, a.id, n0, rs, a.ram.mem, a.ram.own, a.nodes, a.regions);
      return Err(MappingFailed);
    }
    RoomTaken(m0, n0, rs, h0, q, a.ram.mem, a.nodes, a.regions, a.ram.heads, p.vaddr / 4096, SegmentPages(p), flags);
    var i := Find(a.regions, pageVaddr / 4096);
    FoundNew(a.ram.mem, a.ram.own, a.id, m0, n0, a.nodes, rs, a.regions, p.vaddr / 4096, SegmentPages(p), flags);
    var s := b[p.offset..p.offset + p.filesz];
    SegmentStep(m0, o0, a.id, n0, rs, a.ram.mem, a.ram.own, a.nodes, a.regions, a.root, p.vaddr / 4096, SegmentPages(p),
                flags, p.vaddr % 4096, s);
    ghost var m1 := a.ram.mem;
    a.ram.mem := Store(a.ram.mem, a.regions[i].value.phys + p.vaddr % 4096, s);
    SegmentOpens(m0, o0, a.id, n0, rs, m1, a.ram.own, a.nodes, a.regions, a.ram.mem, p);
    return Ok(p.vaddr + p.memsz);
  }

  lemma NothingMapped(id: nat, root: nat, o0: Owners, m0: Mem, n0: Nodes, rs: Slots, own: Owners, m: Mem, nodes: Nodes)
    requires WriteXorExecute(m0, n0, rs) && Additive(id, o0, m0, own, m) && UpperHalfSame(root, m0, m)
             && SameLeavesBut(m0, n0, m, nodes, -1)
    ensures Kept(id, root, o0, m0, own, m, nodes, rs)
  {
    hide Additive, WriteXorExecute, Isolated, SameLeavesBut;
    QuietSafe(m0, n0, rs, m, nodes);
    AdditiveIsolated(id, o0, m0, own, m);
  }

  /** The area just mapped is the one found at its first page. */
  lemma FoundNew(m: Mem, own: Owners, id: nat, m0: Mem, n0: Nodes, nodes: Nodes, rs: Slots, rs': Slots, first: nat,
                 n: nat, flags: PageFlags)
    requires SpaceOk(m, own, id, nodes, rs') && EagerAdded(m0, n0, rs, m, nodes, rs', first, n, flags) && n > 0
    ensures FindFrom(rs', first, 0) == FreeSlot(rs) < MAX_AREAS && rs'[FreeSlot(rs)].Some?
  {
    SpaceAreas(m, own, id, nodes, rs');
    hide SpaceOk, AreaOk, AreaHeld, LeavesMapped, Disjoint;
    FindUnique(rs', FreeSlot(rs), first);
  }

  // ------------------------------------------------------------------ the image

  /** The program header table lies inside the file. */
  predicate TableFits(b: seq<Byte>, h: Ehdr)
  {
    h.phoff + h.phentsize * h.phnum <= |b|
  }

  /** Every segment of the file is one the loader can handle. */
  predicate LoadableFile(b: seq<Byte>)
  {
    var h := ParseEhdr(b);
    h.Ok? ==> forall i: nat {:trigger SegmentAt(b, h.value, i)} ::
      i < h.value.phnum && SegmentAt(b, h.value, i).Some? ==> Loadable(SegmentAt(b, h.value, i).value)
  }

  /** The first `n` program headers have been loaded. */
  ghost predicate ImageLoaded(m: Mem, rs: Slots, b: seq<Byte>, h: Ehdr, n: nat)
  {
    forall i: nat {:trigger SegmentAt(b, h, i)} ::
      i < n && SegmentAt(b, h, i).Some? ==> SegmentLoaded(m, rs, b, SegmentAt(b, h, i).value)
  }

  /** The pages of the segments of the first `n` program headers are open as the headers say. */
  ghost predicate ImageOpen(m: Mem, root: nat, b: seq<Byte>, h: Ehdr, n: nat)
  {
    forall i: nat {:trigger SegmentAt(b, h, i)} ::
      i < n && SegmentAt(b, h, i).Some? ==> SegmentOpen(m, root, SegmentAt(b, h, i).value)
  }

  lemma SegmentStaysOpen(m: Mem, root: nat, m': Mem, p: Phdr)
    requires SegmentOpen(m, root, p) && WalksKept(m, root, m')
    ensures SegmentOpen(m', root, p)
  {
    hide HwWalk;
  }

  /** Pages opened earlier stay as they are. */
  lemma ImageStaysOpen(m: Mem, root: nat, m': Mem, b: seq<Byte>, h: Ehdr, n: nat)
    requires ImageOpen(m, root, b, h, n) && WalksKept(m, root, m')
    ensures ImageOpen(m', root, b, h, n)
  {
    hide SegmentAt, SegmentOpen, WalksKept;
    forall i: nat | i < n && SegmentAt(b, h, i).Some?
      ensures SegmentOpen(m', root, SegmentAt(b, h, i).value)
    {
      SegmentStaysOpen(m, root, m', SegmentAt(b, h, i).value);
    }
  }

  /** One header more. */
  lemma ImageOpens(m: Mem, root: nat, m': Mem, b: seq<Byte>, h: Ehdr, n: nat)
    requires ImageOpen(m, root, b, h, n) && WalksKept(m, root, m')
    requires SegmentAt(b, h, n).Some? ==> SegmentOpen(m', root, SegmentAt(b, h, n).value)
    ensures ImageOpen(m', root, b, h, n + 1)
  {
    ImageStaysOpen(m, root, m', b, h, n);
    hide SegmentAt, SegmentOpen, WalksKept;
  }

  /** The end of the highest segment among the first `n` headers; 0 if there is none. */
  function HighestEnd(b: seq<Byte>, h: Ehdr, n: nat): nat
  {
    if n == 0 then 0 else
      var e, p := HighestEnd(b, h, n - 1), SegmentAt(b, h, n - 1);
      if p.Some? && p.value.vaddr + p.value.memsz > e then p.value.vaddr + p.value.memsz else e
  }

  lemma {:induction false} HighestIsMax(b: seq<Byte>, h: Ehdr, n: nat, i: nat)
    requires i < n && SegmentAt(b, h, i).Some?
    ensures SegmentAt(b, h, i).value.vaddr + SegmentAt(b, h, i).value.memsz <= HighestEnd(b, h, n)
  {
    if i < n - 1 { HighestIsMax(b, h, n - 1, i); }
  }

  lemma {:induction false} HighestIsEnd(b: seq<Byte>, h: Ehdr, n: nat)
    ensures HighestEnd(b, h, n) == 0 ||
            exists i: nat :: i < n && SegmentAt(b, h, i).Some?
                   && SegmentAt(b, h, i).value.vaddr + SegmentAt(b, h, i).value.memsz == HighestEnd(b, h, n)
  {
    if n > 0 { HighestIsEnd(b, h, n - 1); }
  }

  /** Where the heap starts: past the page-rounded end of the image, and a page of gap. */
  function HeapBase(highest: nat): nat
  {
    4096 * ((highest + 4095) / 4096) + 4096
  }

  /** The heap starts on a page, at least one full page above every loaded byte. */
  lemma HeapAboveImage(b: seq<Byte>, h: Ehdr, n: nat, i: nat)
    requires i < n && SegmentAt(b, h, i).Some?
    ensures HighestEnd(b, h, n) > 0 && HeapBase(HighestEnd(b, h, n)) % 4096 == 0
    ensures SegmentAt(b, h, i).value.vaddr + SegmentAt(b, h, i).value.memsz + 4096 <= HeapBase(HighestEnd(b, h, n))
  {
    hide SegmentAt;
    HighestIsMax(b, h, n, i);
    assert SegmentAt(b, h, i).value.memsz > 0 by { MemszPositive(b, h, i); }
  }

  /** No lower page address is one full page above every loaded byte. */
  lemma HeapIsLeast(b: seq<Byte>, h: Ehdr, n: nat, q: nat)
    requires HighestEnd(b, h, n) > 0 && q % 4096 == 0
    requires forall i: nat {:trigger SegmentAt(b, h, i)} :: i < n && SegmentAt(b, h, i).Some? ==>
               SegmentAt(b, h, i).value.vaddr + SegmentAt(b, h, i).value.memsz + 4096 <= q
    ensures HeapBase(HighestEnd(b, h, n)) <= q
  {
    hide SegmentAt;
    HighestIsEnd(b, h, n);
  }

  lemma MemszPositive(b: seq<Byte>, h: Ehdr, i: nat)
    requires SegmentAt(b, h, i).Some?
    ensures SegmentAt(b, h, i).value.memsz > 0
  {
  }

  lemma ImageStep(m: Mem, rs: Slots, m': Mem, rs': Slots, b: seq<Byte>, h: Ehdr, n: nat, p: Phdr)
    requires ImageLoaded(m, rs, b, h, n) && SegmentAt(b, h, n) == Some(p) && p.offset + p.filesz <= |b|
    requires ImageAdded(m, rs, m', rs', p.vaddr / 4096, SegmentPages(p), p.vaddr % 4096,
                        b[p.offset..p.offset + p.filesz])
    ensures ImageLoaded(m', rs', b, h, n + 1)
  {
    MemszPositive(b, h, n);
    hide ImageAdded, SegmentLoaded, SegmentAt;
    SegmentNow(m, rs, m', rs', b, p);
    forall i: nat | i < n && SegmentAt(b, h, i).Some?
      ensures SegmentLoaded(m', rs', b, SegmentAt(b, h, i).value)
    {
      SegmentKept(m, rs, m', rs', b, SegmentAt(b, h, i).value, p.vaddr / 4096, SegmentPages(p), p.vaddr % 4096,
                  b[p.offset..p.offset + p.filesz]);
    }
  }

  lemma ImageSkip(m: Mem, rs: Slots, b: seq<Byte>, h: Ehdr, n: nat)
    requires ImageLoaded(m, rs, b, h, n) && SegmentAt(b, h, n).None?
    ensures ImageLoaded(m, rs, b, h, n + 1) && HighestEnd(b, h, n + 1) == HighestEnd(b, h, n)
  {
    hide SegmentLoaded, SegmentAt;
  }

  /** What becomes of program header `i`, and of the headers from `i` on. */
  ghost function HeaderOutcome(b: seq<Byte>, h: Ehdr, i: nat, q: Room): Outcome
  {
    if ParsePhdr(b, h.phoff + i * h.phentsize).Err? then Refused(BadProgramHeader)
    else if SegmentAt(b, h, i).None? then Loaded(q)
    else SegmentOutcome(b, SegmentAt(b, h, i).value, q)
  }

  ghost function ImageOutcome(b: seq<Byte>, h: Ehdr, i: nat, q: Room): Outcome
    decreases h.phnum - i
  {
    if i >= h.phnum then Loaded(q) else
      match HeaderOutcome(b, h, i, q)
      case Refused(e) => Refused(e)
      case Loaded(q') => ImageOutcome(b, h, i + 1, q')
  }

  /**
    One round of the loader's loop: skip program header `i`, load its segment, or give up.
    `highest` follows the end of the highest segment.
   */
  method LoadHeader(a: AddressSpace, b: seq<Byte>, h: Ehdr, i: nat, highest: nat, ghost q: Room)
    returns (r: Result<nat>)
    requires a.Valid() && WriteXorExecute(a.ram.mem, a.nodes, a.regions) && RoomIs(a.regions, a.nodes, a.ram.heads, q)
    requires SegmentAt(b, h, i).Some? ==> Loadable(SegmentAt(b, h, i).value)
    requires ImageLoaded(a.ram.mem, a.regions, b, h, i) && ImageOpen(a.ram.mem, a.root, b, h, i)
             && highest == HighestEnd(b, h, i)
    modifies a`regions, a`nodes, a.ram`mem, a.ram`heads, a.ram`freePages, a.ram`own, a.ram`lost
    ensures a.Valid()
    ensures Kept(a.id, a.root, old(a.ram.own), old(a.ram.mem), a.ram.own, a.ram.mem, a.nodes, a.regions)
    ensures r.Ok? ==>
              && r.value == HighestEnd(b, h, i + 1) && ImageLoaded(a.ram.mem, a.regions, b, h, i + 1)
              && ImageOpen(a.ram.mem, a.root, b, h, i + 1)
    ensures EndsAs(r, a.regions, a.nodes, a.ram.heads, HeaderOutcome(b, h, i, q))
  {
    hide SpaceOk, ListsOk, TagsOk, Total, WriteXorExecute, ImageAdded, Kept, ImageLoaded, ParsePhdr, Loadable,
      SegmentPages, RoomIs, SegmentOutcome, ImageOpen, SegmentOpen, WalksKept;
    KeptRefl(a.id, a.root, a.ram.own, a.ram.mem, a.nodes, a.regions);
    WalksKeptRefl(a.ram.mem, a.root);
    var ph := ParsePhdr(b, h.phoff + i * h.phentsize);
    if ph.Err? { return Err(BadProgramHeader); }
    var p := ph.value;
    if p.kind != PT_LOAD || p.memsz == 0 {
      ImageSkip(a.ram.mem, a.regions, b, h, i);
      ImageOpens(a.ram.mem, a.root, a.ram.mem, b, h, i);
      return Ok(highest);
    }
    ghost var m0, rs := a.ram.mem, a.regions;
    assert SegmentAt(b, h, i) == Some(p);
    hide SegmentAt;
    var end := LoadSegment(a, b, p, q);
    if end.Err? { return end; }
    ImageStep(m0, rs, a.ram.mem, a.regions, b, h, i, p);
    ImageOpens(m0, a.root, a.ram.mem, b, h, i);
    return Ok(if end.value > highest then end.value else highest);
  }

  ghost function FileOutcome(b: seq<Byte>, q: Room): Outcome
  {
    if ParseEhdr(b).Err? then Refused(ParseEhdr(b).error)
    else if !TableFits(b, ParseEhdr(b).value) then Refused(BadProgramHeader)
    else ImageOutcome(b, ParseEhdr(b).value, 0, q)
  }

  /** The page ranges that the headers from `i` on ask for. */
  function Spans(b: seq<Byte>, h: Ehdr, i: nat): seq<Span>
    decreases h.phnum - i
  {
    if i >= h.phnum then []
    else if SegmentAt(b, h, i).None? then Spans(b, h, i + 1)
    else
      var p := SegmentAt(b, h, i).value;
      [Span(p.vaddr / 4096, SegmentPages(p))] + Spans(b, h, i + 1)
  }

  /** Header `i` can be read and, if it asks for a segment, the file holds its bytes. */
  predicate HeaderSound(b: seq<Byte>, h: Ehdr, i: nat)
  {
    && ParsePhdr(b, h.phoff + i * h.phentsize).Ok?
    && (SegmentAt(b, h, i).Some? ==>
          var p := SegmentAt(b, h, i).value; p.offset + p.filesz <= |b| && p.offset + p.filesz < W64)
  }

  lemma {:induction false} ImageFills(b: seq<Byte>, h: Ehdr, i: nat, q: Room)
    requires i <= h.phnum
    ensures ImageOutcome(b, h, i, q).Loaded? <==>
              (forall j: nat :: i <= j < h.phnum ==> HeaderSound(b, h, j)) && Fill(q, Spans(b, h, i)).Some?
    ensures ImageOutcome(b, h, i, q).Loaded? ==> Fill(q, Spans(b, h, i)) == Some(ImageOutcome(b, h, i, q).room)
    decreases h.phnum - i
  {
    hide ParsePhdr, SegmentAt, RoomFor, Taking, SegmentPages;
    if i < h.phnum {
      var o, ss := HeaderOutcome(b, h, i, q), Spans(b, h, i);
      SpansFirst(b, h, i);
      if o.Loaded? {
        assert HeaderSound(b, h, i) && Fill(q, ss) == Fill(o.room, Spans(b, h, i + 1));
        ImageFills(b, h, i + 1, o.room);
      } else {
        assert HeaderSound(b, h, i) ==> Fill(q, ss).None?;
      }
    }
  }

  lemma SpansFirst(b: seq<Byte>, h: Ehdr, i: nat)
    requires i < h.phnum
    ensures SegmentAt(b, h, i).None? ==> Spans(b, h, i) == Spans(b, h, i + 1)
    ensures SegmentAt(b, h, i).Some? ==>
              var p, ss := SegmentAt(b, h, i).value, Spans(b, h, i);
              && ss != [] && ss[0] == Span(p.vaddr / 4096, SegmentPages(p)) && ss[1..] == Spans(b, h, i + 1)
  {
    hide SegmentAt, SegmentPages;
  }

  /**
    A file loads exactly when its header is that of an x86-64 executable, the header table
    and every segment lie inside the file, and all segments fit into the space together:
    none shares a page with another or with an area, and slots and memory suffice.
   */
  lemma LoadsWhen(b: seq<Byte>, q: Room)
    ensures FileOutcome(b, q).Loaded? <==>
              && ParseEhdr(b).Ok?
              && var h := ParseEhdr(b).value;
                 && h.phoff + h.phentsize * h.phnum <= |b|
                 && (forall i: nat :: i < h.phnum ==> HeaderSound(b, h, i))
                 && AllFit(q, Spans(b, h, 0))
  {
    hide ParseEhdr, HeaderSound, AllFit, ImageOutcome, Spans;
    if ParseEhdr(b).Ok? {
      ImageFills(b, ParseEhdr(b).value, 0, q);
      FillExact(q, Spans(b, ParseEhdr(b).value, 0));
    }
  }

  /**
    Load an executable. On success every PT_LOAD segment reads as the file prescribes, its
    pages are open as its header says, and the heap starts above the image; always, the
    space stays well-formed, nothing is both writable and executable, and no other space
    changes.
   */
  method LoadImage(a: AddressSpace, b: seq<Byte>) returns (r: Result<nat>)
    requires a.Valid() && WriteXorExecute(a.ram.mem, a.nodes, a.regions) && LoadableFile(b)
    modifies a`regions, a`nodes, a`heapStart, a`heapEnd, a.ram`mem, a.ram`heads, a.ram`freePages, a.ram`own, a.ram`lost
    ensures a.Valid()
    ensures Kept(a.id, a.root, old(a.ram.own), old(a.ram.mem), a.ram.own, a.ram.mem, a.nodes, a.regions)
    ensures r.Ok? ==>
              && ParseEhdr(b).Ok? && TableFits(b, ParseEhdr(b).value) && r.value == ParseEhdr(b).value.entry
              && var h := ParseEhdr(b).value; var e := HighestEnd(b, h, h.phnum);
                 && ImageLoaded(a.ram.mem, a.regions, b, h, h.phnum)
                 && ImageOpen(a.ram.mem, a.root, b, h, h.phnum)
                 && (if e > 0 then a.heapStart == a.heapEnd == HeapBase(e)
                     else a.heapStart == old(a.heapStart) && a.heapEnd == old(a.heapEnd))
    ensures r.Err? ==> a.heapStart == old(a.heapStart) && a.heapEnd == old(a.heapEnd)
    ensures EndsAs(r, a.regions, a.nodes, a.ram.heads,
                   FileOutcome(b, RoomOf(old(a.regions), old(a.nodes), old(a.ram.heads))))
  {
    hide RoomIs, HeaderOutcome, RoomOf;
    hide SpaceOk, ListsOk, TagsOk, Total, WriteXorExecute, Kept, ImageLoaded, ParseEhdr, Loadable, SegmentAt,
      HighestEnd, TableFits, ImageOpen;
    ghost var o0, m0 := a.ram.own, a.ram.mem;
    KeptRefl(a.id, a.root, o0, m0, a.nodes, a.regions);
    var eh := ParseEhdr(b);
    if eh.Err? { return Err(eh.error); }
    var h := eh.value;
    if !TableFits(b, h) { return Err(BadProgramHeader); }
    var highest := 0;
    LoadStart(a.ram.mem, a.root, a.regions, b, h);
    ghost var start := RoomOf(a.regions, a.nodes, a.ram.heads);
    ghost var q := start;
    for i := 0 to h.phnum
      invariant a.Valid() && highest == HighestEnd(b, h, i) && ImageLoaded(a.ram.mem, a.regions, b, h, i)
      invariant ImageOpen(a.ram.mem, a.root, b, h, i)
      invariant Kept(a.id, a.root, o0, m0, a.ram.own, a.ram.mem, a.nodes, a.regions)
      invariant a.heapStart == old(a.heapStart) && a.heapEnd == old(a.heapEnd)
      invariant RoomIs(a.regions, a.nodes, a.ram.heads, q) && ImageOutcome(b, h, i, q) == ImageOutcome(b, h, 0, start)
    {
      var step := LoadNext(a, b, h, i, highest, q, o0, m0);
      if step.Err? { return step; }
      q := HeaderOutcome(b, h, i, q).room;
      highest := step.value;
    }
    if highest > 0 {
      a.heapStart := HeapBase(highest);
      a.heapEnd := a.heapStart;
    }
    return Ok(h.entry);
  }

  lemma LoadStart(m: Mem, root: nat, rs: Slots, b: seq<Byte>, h: Ehdr)
    ensures ImageLoaded(m, rs, b, h, 0) && ImageOpen(m, root, b, h, 0) && HighestEnd(b, h, 0) == 0
  {
  }

  method LoadNext(a: AddressSpace, b: seq<Byte>, h: Ehdr, i: nat, highest: nat, ghost q: Room, ghost o0: Owners,
                  ghost m0: Mem) returns (r: Result<nat>)
    requires a.Valid() && Kept(a.id, a.root, o0, m0, a.ram.own, a.ram.mem, a.nodes, a.regions)
    requires SegmentAt(b, h, i).Some? ==> Loadable(SegmentAt(b, h, i).value)
    requires ImageLoaded(a.ram.mem, a.regions, b, h, i) && ImageOpen(a.ram.mem, a.root, b, h, i)
             && highest == HighestEnd(b, h, i)
    requires RoomIs(a.regions, a.nodes, a.ram.heads, q)
    modifies a`regions, a`nodes, a.ram`mem, a.ram`heads, a.ram`freePages, a.ram`own, a.ram`lost
    ensures a.Valid()
    ensures Kept(a.id, a.root, o0, m0, a.ram.own, a.ram.mem, a.nodes, a.regions)
    ensures r.Ok? ==>
              && r.value == HighestEnd(b, h, i + 1) && ImageLoaded(a.ram.mem, a.regions, b, h, i + 1)
              && ImageOpen(a.ram.mem, a.root, b, h, i + 1)
    ensures EndsAs(r, a.regions, a.nodes, a.ram.heads, HeaderOutcome(b, h, i, q))
  {
    hide SpaceOk, ListsOk, TagsOk, Total, WriteXorExecute, ImageLoaded, Loadable, SegmentAt, HighestEnd, Isolated,
      UpperHalfSame, RoomIs, HeaderOutcome, ImageOpen;
    ghost var o1, m1, n1, r1 := a.ram.own, a.ram.mem, a.nodes, a.regions;
    r := LoadHeader(a, b, h, i, highest, q);
    hide Kept;
    KeptTrans(a.id, a.root, o0, m0, o1, m1, n1, r1, a.ram.own, a.ram.mem, a.nodes, a.regions);
  }
}
