/**
  What an address space costs in pages: its data, and the tables below its root.
 */
module Costs {
  import opened Words
  import opened Buddy
  import opened Paging
  import opened Areas
  import opened Space
  import opened Steps

  // -------------------------------------------------------------- data pages

  /** Pages held for the area in a slot: one per faulted-in page, or the whole block. */
  function SlotPages(slot: Option<Area>): nat
  {
    if slot.None? then 0
    else if slot.value.lazy then slot.value.lazyCount
    else Pow2(Order(NPages(slot.value)))
  }

  /** Pages held for the first `n` slots. */
  function PagesIn(rs: Slots, n: nat): nat
    requires n <= MAX_AREAS
  {
    if n == 0 then 0 else PagesIn(rs, n - 1) + SlotPages(rs[n - 1])
  }

  function DataPages(rs: Slots): nat
  {
    PagesIn(rs, MAX_AREAS)
  }

  lemma {:induction false} PagesInUpdate(rs: Slots, n: nat, i: nat, slot: Option<Area>)
    requires n <= MAX_AREAS && i < MAX_AREAS
    ensures PagesIn(rs[i := slot], n) == PagesIn(rs, n) + if i < n then SlotPages(slot) - SlotPages(rs[i]) else 0
  {
    hide SlotPages;
    if n > 0 { PagesInUpdate(rs, n - 1, i, slot); }
  }

  lemma DataUpdate(rs: Slots, i: nat, slot: Option<Area>)
    requires i < MAX_AREAS
    ensures DataPages(rs[i := slot]) == DataPages(rs) + SlotPages(slot) - SlotPages(rs[i])
  {
    hide SlotPages;
    PagesInUpdate(rs, MAX_AREAS, i, slot);
  }

  lemma {:induction false} PagesInMono(rs: Slots, rs': Slots, n: nat)
    requires n <= MAX_AREAS && forall k :: 0 <= k < n ==> SlotPages(rs[k]) <= SlotPages(rs'[k])
    ensures PagesIn(rs, n) <= PagesIn(rs', n)
  {
    hide SlotPages;
    if n > 0 { PagesInMono(rs, rs', n - 1); }
  }

  lemma {:induction false} NoPagesIn(rs: Slots, n: nat)
    requires n <= MAX_AREAS && forall k :: 0 <= k < n ==> SlotPages(rs[k]) == 0
    ensures PagesIn(rs, n) == 0
  {
    hide SlotPages;
    if n > 0 { NoPagesIn(rs, n - 1); }
  }

  predicate NonZeroAt(s: seq<nat>, j: nat)
  {
    j < |s| && s[j] != 0
  }

  /** Whoever has fewer entries that are not zero counts fewer. */
  lemma {:induction false} CountMono(s: seq<nat>, t: seq<nat>)
    requires forall j :: NonZeroAt(s, j) ==> NonZeroAt(t, j)
    ensures CountNonZero(s) <= CountNonZero(t)
    decreases |s| + |t|
  {
    if s != [] {
      var n := |s| - 1;
      if |s| <= |t| {
        var k := |t| - 1;
        if |s| == |t| {
          assert NonZeroAt(s, n) ==> NonZeroAt(t, n);
          CountLess(s, t);
        } else {
          assert forall j :: NonZeroAt(s, j) ==> NonZeroAt(t[..k], j) by {
            forall j | NonZeroAt(s, j) ensures NonZeroAt(t[..k], j) { assert NonZeroAt(t, j); }
          }
          CountMono(s, t[..k]);
        }
      } else {
        assert !NonZeroAt(t, n) && !NonZeroAt(s, n);
        forall j | NonZeroAt(s[..n], j)
          ensures NonZeroAt(t, j)
        {
          assert NonZeroAt(s, j);
        }
        CountMono(s[..n], t);
      }
    }
  }

  lemma {:induction false} CountLess(s: seq<nat>, t: seq<nat>)
    requires |s| == |t| > 0 && forall j :: NonZeroAt(s, j) ==> NonZeroAt(t, j)
    ensures CountNonZero(s) <= CountNonZero(t)
    decreases |s| + |t|, 0
  {
    var n := |s| - 1;
    forall j | NonZeroAt(s[..n], j)
      ensures NonZeroAt(t[..n], j)
    {
      assert NonZeroAt(s, j);
    }
    CountMono(s[..n], t[..n]);
    assert NonZeroAt(s, n) ==> NonZeroAt(t, n);
  }

  // ------------------------------------------------------------------ tables

  /** The tables below the root that the backed pages of `rs` need. */
  ghost function TablesOf(rs: Slots): set<Pos>
  {
    set w: nat, n: nat | w < USER_PAGES && 1 <= n <= 3 && PageOf(rs, w).Some? :: OnPath(w, n)
  }

  lemma InTablesOf(rs: Slots, w: nat, n: nat)
    requires w < USER_PAGES && 1 <= n <= 3 && PageOf(rs, w).Some?
    ensures OnPath(w, n) in TablesOf(rs)
  {
    hide OnPath, PageOf;
  }

  lemma PathInTables(rs: Slots, w: nat)
    requires w < USER_PAGES && PageOf(rs, w).Some?
    ensures PathTables(w) <= TablesOf(rs)
  {
    InTablesOf(rs, w, 1);
    InTablesOf(rs, w, 2);
    InTablesOf(rs, w, 3);
    hide OnPath, PageOf, TablesOf;
  }

  /** More backed pages need no fewer tables. */
  lemma TablesMono(rs: Slots, rs': Slots)
    requires forall w: nat :: w < USER_PAGES && PageOf(rs, w).Some? ==> PageOf(rs', w).Some?
    ensures TablesOf(rs) <= TablesOf(rs')
  {
    hide OnPath, PageOf;
  }

  /** `s` holds the tables of every page in [v0, v0 + n). */
  lemma {:induction false} RangeWithin(rs: Slots, v0: nat, n: nat)
    requires v0 + n <= USER_PAGES && forall w: nat :: v0 <= w < v0 + n ==> PageOf(rs, w).Some?
    ensures RangeTables(v0, n) <= TablesOf(rs)
  {
    hide PathTables, TablesOf, PageOf;
    if n > 0 {
      RangeWithin(rs, v0, n - 1);
      PathInTables(rs, v0 + n - 1);
    }
  }

  lemma {:induction false} PathInRange(v0: nat, n: nat, w: nat)
    requires v0 <= w < v0 + n
    ensures PathTables(w) <= RangeTables(v0, n)
  {
    hide PathTables;
    if w < v0 + n - 1 { PathInRange(v0, n - 1, w); }
  }

  lemma TableNeeded(rs: Slots, c: Pos) returns (w: nat, l: nat)
    requires c in TablesOf(rs)
    ensures w < USER_PAGES && 1 <= l <= 3 && PageOf(rs, w).Some? && c == OnPath(w, l)
  {
    hide OnPath, PageOf;
    w, l :| w < USER_PAGES && 1 <= l <= 3 && PageOf(rs, w).Some? && c == OnPath(w, l);
  }

  lemma OnItsPath(w: nat, l: nat)
    requires 1 <= l <= 3
    ensures OnPath(w, l) in PathTables(w)
  {
    hide OnPath;
  }

  /** Backing the pages [v0, v0 + n) as well adds exactly their tables. */
  lemma TablesAdded(rs: Slots, rs': Slots, v0: nat, n: nat)
    requires v0 + n <= USER_PAGES
    requires forall w: nat :: w < USER_PAGES ==> (PageOf(rs', w).Some? <==> PageOf(rs, w).Some? || v0 <= w < v0 + n)
    ensures TablesOf(rs') == TablesOf(rs) + RangeTables(v0, n)
  {
    hide PageOf, RangeTables, OnPath, TablesOf, PathTables;
    TablesMono(rs, rs');
    RangeWithin(rs', v0, n);
    forall c | c in TablesOf(rs')
      ensures c in TablesOf(rs) + RangeTables(v0, n)
    {
      var w, l := TableNeeded(rs', c);
      if PageOf(rs, w).Some? {
        InTablesOf(rs, w, l);
      } else {
        PathInRange(v0, n, w);
        OnItsPath(w, l);
      }
    }
  }

  lemma RangeOfOne(v: nat)
    ensures RangeTables(v, 1) == PathTables(v)
  {
    hide PathTables;
    assert RangeTables(v, 0) == {};
  }

  // ------------------------------------------------- tables that ran out, or not

  /**
    The tables `need` were all added to `n0`, or (`all` is false) the lists are empty
    and some of them are missing.
   */
  ghost predicate Stocked(h: Lists, n0: Nodes, nodes: Nodes, need: set<Pos>, all: bool)
  {
    if all then nodes.Keys == n0.Keys + need
    else Total(h) == 0 && n0.Keys <= nodes.Keys <= n0.Keys + need && !(need <= nodes.Keys)
  }

  lemma SameSize(a: set<Pos>, b: set<Pos>)
    requires a <= b && |b| <= |a|
    ensures a == b
  {
    if c :| c in b && c !in a { ProperSmaller(a, b, c); }
  }

  /** One more page mapped, or not: the lists tell which. */
  lemma StockedStep(h: Lists, n0: Nodes, n1: Nodes, need: set<Pos>, all: bool, h': Lists, n2: Nodes, more: set<Pos>,
                    ok: bool)
    requires Stocked(h, n0, n1, need, all) && TablesPaid(h, n1, h', n2) && n1.Keys <= n2.Keys
    requires if ok then n2.Keys == n1.Keys + more else Total(h') == 0 && n2.Keys <= n1.Keys + more && !(more <= n2.Keys)
    ensures Stocked(h', n0, n2, need + more, all && ok)
  {
    hide Total;
    if !all {
      assert |n1| == |n1.Keys| && |n2| == |n2.Keys|;
      ProperOrEqual(n1.Keys, n2.Keys);
      SameSize(n1.Keys, n2.Keys);
    }
  }

  lemma ProperOrEqual(a: set<Pos>, b: set<Pos>)
    requires a <= b
    ensures |a| <= |b|
  {
    UnionSize(a, b);
    assert a + b == b;
  }

  /** The pages that data and tables of `rs` take beyond the tables `n0`. */
  ghost function Need(n0: Nodes, rs: Slots): nat
  {
    DataPages(rs) + Missing(n0, TablesOf(rs))
  }

  /** The lists `h` have paid for the data of `rs` and for the tables added to `n0`. */
  ghost predicate Paid(h0: Lists, n0: Nodes, h: Lists, nodes: Nodes, rs: Slots)
  {
    Total(h0) + |n0| == Total(h) + |nodes| + DataPages(rs)
  }

  /** At the end the lists sufficed exactly if every table could be had. */
  lemma PaidInFull(h0: Lists, n0: Nodes, h: Lists, nodes: Nodes, rs: Slots, all: bool)
    requires Paid(h0, n0, h, nodes, rs) && Stocked(h, n0, nodes, TablesOf(rs), all)
    ensures all <==> Total(h0) >= Need(n0, rs)
  {
    hide Total, TablesOf, DataPages;
    var need := TablesOf(rs);
    UnionSize(n0.Keys, need);
    assert |n0| == |n0.Keys| && |nodes| == |nodes.Keys|;
    if !all {
      var c :| c in need && c !in nodes.Keys;
      ProperSmaller(nodes.Keys, n0.Keys + need, c);
    }
  }

  /** A block that cannot be had means that the whole could not have been paid for. */
  lemma CutShort(h0: Lists, n0: Nodes, h: Lists, nodes: Nodes, rs: Slots, rsP: Slots, all: bool, more: nat)
    requires Paid(h0, n0, h, nodes, rs) && Stocked(h, n0, nodes, TablesOf(rs), all)
    requires Total(h) < more && DataPages(rs) + more <= DataPages(rsP) && TablesOf(rs) <= TablesOf(rsP)
    ensures Total(h0) < Need(n0, rsP)
  {
    hide Total, TablesOf, DataPages;
    UnionSize(n0.Keys, TablesOf(rsP));
    assert |n0| == |n0.Keys| && |nodes| == |nodes.Keys|;
    ProperOrEqual(nodes.Keys, n0.Keys + TablesOf(rsP));
  }

  // -------------------------------------------------------------- room for areas

  /** What maps draw on: slots and page ranges, the tables that exist, and the reachable pages. */
  datatype Room = Room(rs: Slots, tables: set<Pos>, pages: nat)

  /** The areas have the same ranges, slot by slot. */
  ghost predicate SameShape(rs: Slots, rs': Slots)
  {
    forall k :: 0 <= k < MAX_AREAS ==>
      && (rs[k].Some? <==> rs'[k].Some?)
      && (rs[k].Some? ==> rs'[k].value.first == rs[k].value.first && rs'[k].value.past == rs[k].value.past)
  }

  /** `q` says what is left in a space with these areas, tables and free lists. */
  ghost predicate RoomIs(rs: Slots, nodes: Nodes, h: Lists, q: Room)
  {
    SameShape(rs, q.rs) && nodes.Keys == q.tables && Total(h) == q.pages
  }

  ghost function RoomOf(rs: Slots, nodes: Nodes, h: Lists): (q: Room)
    ensures RoomIs(rs, nodes, h, q)
  {
    hide Total;
    Room(rs, nodes.Keys, Total(h))
  }

  /** An eager area of `n` pages at page `first` can be mapped. */
  ghost predicate RoomFor(q: Room, first: nat, n: nat)
  {
    && FreeSlot(q.rs) < MAX_AREAS && Vacant(q.rs, first, first + n)
    && q.pages >= Pow2(Order(n)) + |RangeTables(first, n) - q.tables|
  }

  /** What is left after mapping it. */
  ghost function Taking(q: Room, first: nat, n: nat): Room
    requires RoomFor(q, first, n)
  {
    Room(q.rs[FreeSlot(q.rs) := Some(EagerArea(first, n, 0, PLAIN))],
         q.tables + RangeTables(first, n), q.pages - Pow2(Order(n)) - |RangeTables(first, n) - q.tables|)
  }

  const PLAIN := PageFlags(true, false, true, false, false)

  lemma {:induction false} SameFree(rs: Slots, rs': Slots, i: nat)
    requires SameShape(rs, rs') && i <= MAX_AREAS
    ensures FreeFrom(rs', i) == FreeFrom(rs, i)
    decreases MAX_AREAS - i
  {
    if i < MAX_AREAS { SameFree(rs, rs', i + 1); }
  }

  lemma SameVacant(rs: Slots, rs': Slots, first: nat, past: nat)
    requires SameShape(rs, rs')
    ensures Vacant(rs', first, past) <==> Vacant(rs, first, past)
    ensures FreeSlot(rs') == FreeSlot(rs)
  {
    SameFree(rs, rs', 0);
  }

  /** A map succeeds exactly when there is room for it. */
  lemma RoomDecides(rs: Slots, nodes: Nodes, h: Lists, q: Room, first: nat, n: nat)
    requires RoomIs(rs, nodes, h, q)
    ensures RoomFor(q, first, n) <==>
              && FreeSlot(rs) < MAX_AREAS && Vacant(rs, first, first + n)
              && Total(h) >= Pow2(Order(n)) + Missing(nodes, RangeTables(first, n))
  {
    hide Total, Order, Pow2, RangeTables, Vacant, FreeSlot;
    SameVacant(rs, q.rs, first, first + n);
  }

  lemma RoomTaken(m: Mem, nodes: Nodes, rs: Slots, h: Lists, q: Room, m': Mem, nodes': Nodes, rs': Slots, h': Lists,
                  first: nat, n: nat, flags: PageFlags)
    requires RoomIs(rs, nodes, h, q) && RoomFor(q, first, n)
             && EagerAdded(m, nodes, rs, m', nodes', rs', first, n, flags)
    requires nodes'.Keys == nodes.Keys + RangeTables(first, n)
    requires Total(h') == Total(h) - Pow2(Order(n)) - Missing(nodes, RangeTables(first, n))
    ensures RoomIs(rs', nodes', h', Taking(q, first, n))
  {
    hide Total, Order, Pow2, RangeTables, LeavesMapped, Vacant;
    SameVacant(rs, q.rs, first, first + n);
  }

  // -------------------------------------------------------------- many areas at once

  datatype Span = Span(first: nat, n: nat)

  /** What is left after mapping the spans in order, if each finds room. */
  ghost function Fill(q: Room, ss: seq<Span>): Option<Room>
    decreases |ss|
  {
    if ss == [] then Some(q)
    else if RoomFor(q, ss[0].first, ss[0].n) then Fill(Taking(q, ss[0].first, ss[0].n), ss[1..])
    else None
  }

  function FreeIn(rs: Slots, n: nat): nat
    requires n <= MAX_AREAS
  {
    if n == 0 then 0 else FreeIn(rs, n - 1) + if rs[n - 1].None? then 1 else 0
  }

  function Blocks(ss: seq<Span>): nat
  {
    if ss == [] then 0 else Pow2(Order(ss[0].n)) + Blocks(ss[1..])
  }

  function SpanTables(ss: seq<Span>): set<Pos>
  {
    if ss == [] then {} else RangeTables(ss[0].first, ss[0].n) + SpanTables(ss[1..])
  }

  predicate Apart(s: Span, t: Span)
  {
    s.first + s.n <= t.first || t.first + t.n <= s.first
  }

  /** A slot for each, ranges apart from each other and from all areas, pages for blocks and tables. */
  ghost predicate AllFit(q: Room, ss: seq<Span>)
  {
    && |ss| <= FreeIn(q.rs, MAX_AREAS)
    && (forall i :: 0 <= i < |ss| ==> Vacant(q.rs, ss[i].first, ss[i].first + ss[i].n))
    && (forall i, j :: 0 <= i < j < |ss| ==> Apart(ss[i], ss[j]))
    && q.pages >= Blocks(ss) + |SpanTables(ss) - q.tables|
  }

  lemma {:induction false} FreeInUpdate(rs: Slots, n: nat, i: nat, slot: Option<Area>)
    requires n <= MAX_AREAS && i < MAX_AREAS && rs[i].None? && slot.Some?
    ensures FreeIn(rs[i := slot], n) == FreeIn(rs, n) - if i < n then 1 else 0
  {
    if n > 0 { FreeInUpdate(rs, n - 1, i, slot); }
  }

  lemma {:induction false} FreeInSome(rs: Slots, n: nat)
    requires n <= MAX_AREAS
    ensures FreeIn(rs, n) > 0 <==> exists k :: 0 <= k < n && rs[k].None?
  {
    if n > 0 { FreeInSome(rs, n - 1); }
  }

  lemma SlotLeft(rs: Slots)
    ensures FreeSlot(rs) < MAX_AREAS <==> FreeIn(rs, MAX_AREAS) > 0
  {
    FreeInSome(rs, MAX_AREAS);
  }

  lemma VacantTaking(q: Room, s: Span, t: Span)
    requires RoomFor(q, s.first, s.n)
    ensures Vacant(Taking(q, s.first, s.n).rs, t.first, t.first + t.n) <==>
              Vacant(q.rs, t.first, t.first + t.n) && Apart(s, t)
  {
    hide RangeTables, Order, Pow2, FreeFrom;
    var i, rs := FreeSlot(q.rs), Taking(q, s.first, s.n).rs;
    assert rs[i].Some? && forall k :: 0 <= k < MAX_AREAS && k != i ==> rs[k] == q.rs[k];
  }

  lemma TablesSplit(t: set<Pos>, u: set<Pos>, k: set<Pos>)
    ensures |(t + u) - k| == |t - k| + |u - (k + t)|
  {
    UnionSize(t - k, u - k);
    assert (t + u) - k == (t - k) + (u - k) && (u - k) - (t - k) == u - (k + t);
  }

  /** One span first, then the rest: the same as all together. */
  lemma FitStep(q: Room, ss: seq<Span>)
    requires ss != [] && RoomFor(q, ss[0].first, ss[0].n)
    ensures AllFit(Taking(q, ss[0].first, ss[0].n), ss[1..]) <==> AllFit(q, ss)
  {
    hide Order, Pow2, FreeFrom, RangeTables, Vacant, Apart, FreeIn;
    var s, rest := ss[0], ss[1..];
    var q' := Taking(q, s.first, s.n);
    FreeInUpdate(q.rs, MAX_AREAS, FreeSlot(q.rs), Some(EagerArea(s.first, s.n, 0, PLAIN)));
    TablesSplit(RangeTables(s.first, s.n), SpanTables(rest), q.tables);
    forall i | 0 <= i < |rest|
      ensures Vacant(q'.rs, rest[i].first, rest[i].first + rest[i].n) <==>
                Vacant(q.rs, rest[i].first, rest[i].first + rest[i].n) && Apart(s, rest[i])
    {
      VacantTaking(q, s, rest[i]);
    }
    assert AllFit(q, ss) ==> AllFit(q', rest);
    assert AllFit(q', rest) ==> AllFit(q, ss);
  }

  lemma FitFirst(q: Room, ss: seq<Span>)
    requires ss != [] && AllFit(q, ss)
    ensures RoomFor(q, ss[0].first, ss[0].n)
  {
    hide RangeTables, Order, Pow2, FreeFrom, FreeSlot, FreeIn, Vacant;
    SlotLeft(q.rs);
    TablesSplit(RangeTables(ss[0].first, ss[0].n), SpanTables(ss[1..]), q.tables);
  }

  /** Mapping one after the other succeeds exactly when all fit together. */
  lemma {:induction false} FillExact(q: Room, ss: seq<Span>)
    ensures Fill(q, ss).Some? <==> AllFit(q, ss)
    decreases |ss|
  {
    hide RoomFor, Taking, AllFit;
    if ss == [] {
      NoneFit(q);
    } else if RoomFor(q, ss[0].first, ss[0].n) {
      FillExact(Taking(q, ss[0].first, ss[0].n), ss[1..]);
      FitStep(q, ss);
    } else if AllFit(q, ss) {
      FitFirst(q, ss);
    }
  }

  lemma {:induction false} FillLast(q: Room, ss: seq<Span>, s: Span)
    ensures Fill(q, ss + [s]).Some? <==> Fill(q, ss).Some? && RoomFor(Fill(q, ss).value, s.first, s.n)
    decreases |ss|
  {
    hide RoomFor, Taking;
    if ss != [] {
      assert (ss + [s])[0] == ss[0] && (ss + [s])[1..] == ss[1..] + [s];
      if RoomFor(q, ss[0].first, ss[0].n) { FillLast(Taking(q, ss[0].first, ss[0].n), ss[1..], s); }
    } else {
      assert ss + [s] == [s] && [s][1..] == [];
    }
  }

  lemma NoneFit(q: Room)
    ensures AllFit(q, [])
  {
    hide FreeIn;
  }
}
