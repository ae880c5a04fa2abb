/**
  The whole life of an address space: any run of operations, then the drop.
 */
module Lifetimes {
  import opened Words
  import opened Buddy
  import opened Paging
  import opened Areas
  import opened Space
  import opened Steps
  import opened Strays
  import opened Costs
  import opened Drops
  import opened Vmm
  import opened Runs

  lemma RootIsReal(m: Mem, own: Owners, id: nat, nodes: Nodes, rs: Slots)
    requires SpaceOk(m, own, id, nodes, rs) && own(0) == Kernel
    ensures ROOT in nodes && nodes[ROOT] != 0
  {
    hide AreasOk, AgreeOutside, Linked;
    assert own(nodes[ROOT]) == Held(id, Table(4, 0));
  }

  lemma DropIsolated(id: nat, o0: Owners, m0: Mem, own: Owners, m: Mem, own': Owners)
    requires Isolated(id, o0, m0, own, m) && GivenUp(id, own, own')
    ensures Isolated(id, o0, m0, own', m)
  {
  }

  /**
    No run leaks: whatever a process does to its memory, short of wasteful cuts of eager
    areas, dropping its space afterwards returns every frame and block it ever held, and
    its root. All it still holds are inner page tables, which the drop does not free: the
    free pages are all the pages there were on the books, but for those tables. Nobody
    else's memory has changed.
   */
  method Lifetime(a: AddressSpace, ops: seq<Op>)
    requires a.Valid() && a.Tight()
    requires WriteXorExecute(a.ram.mem, a.nodes, a.regions) && KernelReserved(a.ram.mem, a.ram.own, a.root)
    modifies a`regions, a`nodes, a`heapEnd, a.ram`mem, a.ram`heads, a.ram`freePages, a.ram`own, a.ram`lost
    ensures a.ram.Valid()
    ensures forall x :: Ours(a.ram.own(x), a.id) ==> a.ram.own(x).use.Table?
    ensures Released(a.ram.own, a.root)
    ensures |a.nodes| >= 1 && a.ram.freePages + (|a.nodes| - 1) == old(a.Pages())
    ensures Isolated(a.id, old(a.ram.own), old(a.ram.mem), a.ram.own, a.ram.mem)
  {
    hide SpaceOk, ListsOk, TagsOk, Total, WriteXorExecute, KernelReserved, HwWalk, PageOf, NoStray, Isolated, TableOk,
      AreasOk, FramesReleased, Released, GivenUp, DataPages;
    ghost var o0, m0 := a.ram.own, a.ram.mem;
    Run(a, ops, true);
    ghost var o1, m1 := a.ram.own, a.ram.mem;
    RootIsReal(m1, o1, a.id, a.nodes, a.regions);
    SpaceAgrees(m1, o1, a.id, a.nodes, a.regions);
    DropSpace(a.ram, a.regions, a.root, a.id, a.nodes);
    NothingLeft(o1, a.ram.own, a.id, a.regions);
    DropIsolated(a.id, o0, m0, o1, m1, a.ram.own);
  }
}
