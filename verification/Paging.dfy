/**
  The x86-64 four-level page table (arch/x86_64/src/paging.rs).

  Tables are pages of 512 eight-byte entries in physical memory. `HwWalk` is the
  processor's walk (section 4.5 of the Intel SDM, volume 3A). The ghost map
  `Nodes` names every table by its place in the tree, which turns the radix tree
  into a flat map from page numbers to leaf entries.
 */
module Paging {
  import opened Words
  import opened Buddy

  // --------------------------------------------------------------- entries

  predicate Present(e: nat) { e % 2 == 1 }

  predicate Writable(e: nat) { e / 2 % 2 == 1 }

  predicate User(e: nat) { e / 4 % 2 == 1 }

  predicate Huge(e: nat) { e / 128 % 2 == 1 }

  predicate NoExec(e: nat) { e / 0x8000_0000_0000_0000 % 2 == 1 }

  /** The physical address field, bits 12 to 51. */
  function Addr(e: nat): nat { e / 4096 % 0x100_0000_0000 * 4096 }

  /** What the kernel masks out of an intermediate entry: everything above bit 11. */
  function NextTable(e: nat): nat { e / 4096 * 4096 }

  datatype PtFlags = PtFlags(present: bool, writable: bool, user: bool, noCache: bool, noExec: bool)

  function Bit(b: bool, v: nat): nat { if b then v else 0 }

  function LowBits(f: PtFlags): nat
  {
    Bit(f.present, 1) + Bit(f.writable, 2) + Bit(f.user, 4)
  }

  function Bits(f: PtFlags): nat
  {
    LowBits(f) + Bit(f.noCache, 16) + Bit(f.noExec, 0x8000_0000_0000_0000)
  }

  /** Entry `e` has the W and U bits that a mapping with flags `f` needs. */
  predicate Allows(e: nat, f: PtFlags)
  {
    && Present(e)
    && (f.writable ==> Writable(e))
    && (f.user ==> User(e))
  }

  /** The three low bits of a word, given as digits. */
  lemma Digits(q: nat, r: nat, b0: nat, b1: nat, b2: nat)
    requires b0 < 2 && b1 < 2 && b2 < 2 && r == 8 * q + 4 * b2 + 2 * b1 + b0
    ensures r % 2 == b0 && r / 2 % 2 == b1 && r / 4 % 2 == b2 && r / 8 == q
  {
    assert r / 2 == 4 * q + 2 * b2 + b1;
    assert r / 4 == 2 * q + b2;
  }

  lemma HasDigits(r: nat)
    ensures r == 8 * (r / 8) + 4 * (r / 4 % 2) + 2 * (r / 2 % 2) + r % 2
  {
    assert r / 2 == 2 * (r / 4) + r / 2 % 2;
    assert r / 4 == 2 * (r / 8) + r / 4 % 2;
  }

  lemma OrDigits(q: nat, a0: nat, a1: nat, a2: nat, b0: nat, b1: nat, b2: nat)
    requires a0 < 2 && a1 < 2 && a2 < 2 && b0 < 2 && b1 < 2 && b2 < 2
    ensures Or(8 * q + 4 * a2 + 2 * a1 + a0, 4 * b2 + 2 * b1 + b0)
            == 8 * q + 4 * Or(a2, b2) + 2 * Or(a1, b1) + Or(a0, b0)
  {
    hide Or;
    OrStep(4 * q + 2 * a2 + a1, a0, 2 * b2 + b1, b0);
    OrStep(2 * q + a2, a1, b2, b1);
    OrStep(q, a2, 0, b2);
    OrZero(q);
    assert 2 * (4 * q + 2 * a2 + a1) + a0 == 8 * q + 4 * a2 + 2 * a1 + a0;
  }

  /** Or-ing three low bits into a word leaves the rest of it alone. */
  lemma OrLow(e: nat, b: nat)
    requires b < 8
    ensures var c := Or(e, b);
            && c / 8 == e / 8
            && (c % 2 == 1 <==> e % 2 == 1 || b % 2 == 1)
            && (c / 2 % 2 == 1 <==> e / 2 % 2 == 1 || b / 2 % 2 == 1)
            && (c / 4 % 2 == 1 <==> e / 4 % 2 == 1 || b / 4 % 2 == 1)
  {
    hide Or;
    var q, a0, a1, a2, b0, b1, b2 := e / 8, e % 2, e / 2 % 2, e / 4 % 2, b % 2, b / 2 % 2, b / 4 % 2;
    HasDigits(e);
    HasDigits(b);
    OrDigits(q, a0, a1, a2, b0, b1, b2);
    OrBit(a0, b0);
    OrBit(a1, b1);
    OrBit(a2, b2);
    Digits(q, Or(e, b), Or(a0, b0), Or(a1, b1), Or(a2, b2));
  }

  lemma LowBitsAre(f: PtFlags)
    ensures var b := LowBits(f);
            && b < 8
            && (b % 2 == 1 <==> f.present)
            && (b / 2 % 2 == 1 <==> f.writable)
            && (b / 4 % 2 == 1 <==> f.user)
  {
  }

  lemma LowPart(e: nat, e': nat)
    requires e / 8 == e' / 8
    ensures NextTable(e) == NextTable(e') && Addr(e) == Addr(e') && (Huge(e) <==> Huge(e'))
            && (NoExec(e) <==> NoExec(e'))
    ensures e < W64 ==> e' < W64
  {
    assert e / 4096 == e / 8 / 512 && e' / 4096 == e' / 8 / 512;
    assert e / 128 == e / 8 / 16 && e' / 128 == e' / 8 / 16;
    assert e / 0x8000_0000_0000_0000 == e / 8 / 0x1000_0000_0000_0000;
    assert e' / 0x8000_0000_0000_0000 == e' / 8 / 0x1000_0000_0000_0000;
  }

  /** Widening an intermediate entry adds the requested bits and changes nothing else. */
  lemma Widened(e: nat, f: PtFlags)
    requires e < W64 && f.present
    ensures var e' := Or(e, LowBits(f));
            && e' < W64 && Allows(e', f)
            && NextTable(e') == NextTable(e) && (Huge(e') <==> Huge(e)) && (NoExec(e') <==> NoExec(e))
            && (Writable(e) ==> Writable(e')) && (User(e) ==> User(e'))
            && (Writable(e') ==> Writable(e) || f.writable) && (User(e') ==> User(e) || f.user)
  {
    LowBitsAre(f);
    OrLow(e, LowBits(f));
    hide Or, LowBits;
    LowPart(e, Or(e, LowBits(f)));
  }

  lemma Pow2Values()
    ensures Pow2(12) == 4096 && Pow2(51) == 0x8_0000_0000_0000
  {
    assert Pow2(3) == 8 && Pow2(6) == 64;
    hide Pow2;
    Pow2Add(6, 6);
    Pow2Add(12, 12);
    Pow2Add(24, 24);
    Pow2Add(48, 3);
  }

  /** The leaf entry stored for a frame and flags. */
  function LeafEntry(phys: nat, f: PtFlags): nat
  {
    Or(phys, Bits(f))
  }

  lemma OrPageParts(a: nat, c: nat, d: nat)
    requires d < 4096
    ensures Or(a * 4096, c * 4096 + d) == Or(a, c) * 4096 + d
  {
    Pow2Values();
    hide Or, Pow2;
    OrSplit(12, a, 0, c, d);
    OrZero(d);
  }

  lemma OrTopBit(q: nat, n: nat)
    requires q < 0x8_0000_0000_0000
    ensures Or(q, n * 0x8_0000_0000_0000) == q + n * 0x8_0000_0000_0000
  {
    Pow2Values();
    hide Or, Pow2;
    OrSplit(51, 0, q, n, 0);
    OrZero(n);
    OrZero(q);
  }

  lemma LeafEntrySum(phys: nat, f: PtFlags)
    requires phys % 4096 == 0 && phys < PHYS_LIMIT
    ensures LeafEntry(phys, f) == phys + Bits(f)
  {
    hide Or;
    var q, lo, n := phys / 4096, LowBits(f) + Bit(f.noCache, 16), Bit(f.noExec, 1);
    OrTopBit(q, n);
    OrPageParts(q, n * 0x8_0000_0000_0000, lo);
  }

  lemma SumFields(q: nat, lo: nat, n: nat)
    requires q < 0x100_0000_0000 && lo < 32 && n < 2 && lo / 8 != 1
    ensures var e := 4096 * q + lo + n * 0x8000_0000_0000_0000;
            && e < W64 && Addr(e) == 4096 * q && !Huge(e) && (NoExec(e) <==> n == 1)
            && e / 8 * 8 == e - lo % 8 && e % 8 == lo % 8
  {
    var e := 4096 * q + lo + n * 0x8000_0000_0000_0000;
    assert e / 4096 == q + n * 0x8_0000_0000_0000;
    assert e / 128 == 32 * q + n * 0x100_0000_0000_0000;
    assert e / 0x8000_0000_0000_0000 == n;
  }

  /** A leaf entry decodes to the frame and flags it was made from. */
  lemma LeafEntryFields(phys: nat, f: PtFlags)
    requires phys % 4096 == 0 && phys < PHYS_LIMIT
    ensures var e := LeafEntry(phys, f);
            && e < W64 && Addr(e) == phys && !Huge(e)
            && (Present(e) <==> f.present) && (Writable(e) <==> f.writable)
            && (User(e) <==> f.user) && (NoExec(e) <==> f.noExec)
  {
    hide Or, LeafEntry, LowBits, Addr, Huge, NoExec, Present, Writable, User;
    var q, n, c := phys / 4096, Bit(f.noExec, 1), Bit(f.noCache, 1);
    LeafEntrySum(phys, f);
    LowBitsAre(f);
    assert Bits(f) == LowBits(f) + 16 * c + n * 0x8000_0000_0000_0000;
    assert LeafEntry(phys, f) == 4096 * q + (LowBits(f) + 16 * c) + n * 0x8000_0000_0000_0000;
    SumFields(q, LowBits(f) + 16 * c, n);
    LowThree(LeafEntry(phys, f), LowBits(f));
  }

  /** The lowest three bits decide about presence and access. */
  lemma LowThree(e: nat, b: nat)
    requires e % 8 == b
    ensures (Present(e) <==> b % 2 == 1) && (Writable(e) <==> b / 2 % 2 == 1) && (User(e) <==> b / 4 % 2 == 1)
  {
    var k := e / 8;
    assert e == 8 * k + b;
    assert e / 2 == 4 * k + b / 2 && e / 4 == 2 * k + b / 4;
  }

  /** The entry that links a new table into its parent. */
  lemma LinkEntryFields(table: nat, f: PtFlags)
    requires table % 4096 == 0 && table < PHYS_LIMIT && f.present
    ensures var e := Or(table, LowBits(f));
            && e < W64 && NextTable(e) == table && !Huge(e) && Allows(e, f)
            && (Writable(e) ==> f.writable) && (User(e) ==> f.user)
  {
    hide Or;
    var g := f.(noCache := false, noExec := false);
    assert Bits(g) == LowBits(f);
    LeafEntryFields(table, g);
    LeafEntrySum(table, g);
    var e := Or(table, LowBits(f));
    assert e / 4096 == table / 4096 by { assert LowBits(f) < 8; }
  }

  // ------------------------------------------------------------- the tree

  /**
    A place in the tree. Level 4 is the root; a level-`n` table with prefix p
    translates the page numbers whose quotient by 512^n is p; level 0 is a page.
   */
  datatype Pos = Pos(level: nat, prefix: nat)

  const ROOT := Pos(4, 0)

  /** Pages of the user half: the first 2^47 bytes. */
  const USER_PAGES := 0x8_0000_0000

  type Nodes = map<Pos, nat>

  predicate ValidPos(c: Pos)
  {
    match c.level
    case 0 => c.prefix < 0x8_0000_0000
    case 1 => c.prefix < 0x400_0000
    case 2 => c.prefix < 0x2_0000
    case 3 => c.prefix < 0x100
    case 4 => c.prefix < 1
    case _ => false
  }

  function Parent(c: Pos): Pos
  {
    Pos(c.level + 1, c.prefix / 512)
  }

  /** The physical address of the entry that describes place `c`. */
  function Slot(nodes: Nodes, c: Pos): nat
  {
    (if Parent(c) in nodes then nodes[Parent(c)] else 0) + 8 * (c.prefix % 512)
  }

  function Entry(m: Mem, nodes: Nodes, c: Pos): nat
  {
    Load64(m, Slot(nodes, c))
  }

  predicate IsTable(o: Owner, id: nat)
  {
    o.Held? && o.space == id && o.use.Table?
  }

  /** Tables are page-aligned, parents are present, and each table's bytes carry its tag. */
  ghost predicate Placed(own: Owners, id: nat, nodes: Nodes)
  {
    && ROOT in nodes
    && (forall k :: k in nodes ==> 1 <= k.level && ValidPos(k) && nodes[k] % 4096 == 0 && nodes[k] < PHYS_LIMIT)
    && (forall k :: k in nodes && k.level < 4 ==> Parent(k) in nodes)
    && (forall k, x :: k in nodes && nodes[k] <= x < nodes[k] + 4096 ==>
          own(x) == Held(id, Table(k.level, k.prefix)))
  }

  /**
    An entry of a present table. An intermediate entry is present exactly when the
    table below exists, and then points to it; any present entry is no more
    permissive than the entry above it.
   */
  ghost predicate GoodEntry(m: Mem, nodes: Nodes, c: Pos)
  {
    var e := Entry(m, nodes, c);
    && (c.level >= 1 ==>
          && (Present(e) <==> c in nodes)
          && (c in nodes ==> NextTable(e) == nodes[c] && !Huge(e)))
    && (c.level <= 2 && Present(e) ==>
          var p := Entry(m, nodes, Parent(c));
          (Writable(e) ==> Writable(p)) && (User(e) ==> User(p)))
  }

  ghost predicate Linked(m: Mem, nodes: Nodes)
  {
    forall c {:trigger GoodEntry(m, nodes, c)} ::
      ValidPos(c) && c.level <= 3 && Parent(c) in nodes ==> GoodEntry(m, nodes, c)
  }

  ghost predicate TableOk(m: Mem, own: Owners, id: nat, nodes: Nodes)
  {
    Placed(own, id, nodes) && Linked(m, nodes)
  }

  /** The leaf entry of page `v`, if the page is mapped. */
  function Leaf(m: Mem, nodes: Nodes, v: nat): Option<nat>
  {
    if Pos(1, v / 512) in nodes && Present(Entry(m, nodes, Pos(0, v)))
    then Some(Entry(m, nodes, Pos(0, v))) else None
  }

  /** Every page but `v` translates as before. */
  ghost predicate SameLeavesBut(m: Mem, nodes: Nodes, m': Mem, nodes': Nodes, v: int)
  {
    forall w: nat {:trigger Leaf(m', nodes', w)} ::
      w < USER_PAGES && w != v ==> Leaf(m', nodes', w) == Leaf(m, nodes, w)
  }

  /** Distinct places have disjoint entries. */
  lemma SlotsApart(own: Owners, id: nat, nodes: Nodes, c: Pos, d: Pos)
    requires Placed(own, id, nodes) && Parent(c) in nodes && Parent(d) in nodes && c != d
    ensures Slot(nodes, c) + 8 <= Slot(nodes, d) || Slot(nodes, d) + 8 <= Slot(nodes, c)
  {
    var p, q := nodes[Parent(c)], nodes[Parent(d)];
    assert own(p) == Held(id, Table(c.level + 1, c.prefix / 512));
    assert own(q) == Held(id, Table(d.level + 1, d.prefix / 512));
    if Parent(c) == Parent(d) {
      assert c.prefix % 512 != d.prefix % 512;
    } else if p < q {
      PageGap(p, q);
    } else {
      PageGap(q, p);
    }
  }

  lemma SlotTag(own: Owners, id: nat, nodes: Nodes, c: Pos)
    requires Placed(own, id, nodes) && Parent(c) in nodes
    ensures var s := Slot(nodes, c);
            && nodes[Parent(c)] <= s && s + 8 <= nodes[Parent(c)] + 4096
            && forall x :: s <= x < s + 8 ==> own(x) == Held(id, Table(c.level + 1, c.prefix / 512))
  {
  }

  lemma PageGap(a: nat, b: nat)
    requires a % 4096 == 0 && b % 4096 == 0 && a < b
    ensures a + 4096 <= b
  {
  }

  /** Writing one entry changes that entry only. */
  lemma EntryWritten(m: Mem, own: Owners, id: nat, nodes: Nodes, c: Pos, v: nat, d: Pos)
    requires Placed(own, id, nodes) && Parent(c) in nodes && Parent(d) in nodes && v < W64
    ensures Entry(Store64(m, Slot(nodes, c), v), nodes, d) == if d == c then v else Entry(m, nodes, d)
  {
    var s := Slot(nodes, c);
    if d == c {
      Load64Stored(m, s, v);
    } else {
      SlotsApart(own, id, nodes, c, d);
      Load64Same(m, Store64(m, s, v), Slot(nodes, d));
    }
  }

  /** `v` may replace the entry of `c`: it keeps the links and the permission order. */
  ghost predicate Replaces(m: Mem, nodes: Nodes, c: Pos, v: nat)
  {
    && v < W64
    && (c.level >= 1 ==> c in nodes && Present(v) && NextTable(v) == nodes[c] && !Huge(v))
    && (c.level >= 1 ==>
          var e := Entry(m, nodes, c);
          (Writable(e) ==> Writable(v)) && (User(e) ==> User(v)))
    && (c.level <= 2 && Present(v) ==>
          var p := Entry(m, nodes, Parent(c));
          (Writable(v) ==> Writable(p)) && (User(v) ==> User(p)))
  }

  lemma ReplaceEntry(m: Mem, own: Owners, id: nat, nodes: Nodes, c: Pos, v: nat)
    requires TableOk(m, own, id, nodes)
    requires ValidPos(c) && c.level <= 3 && Parent(c) in nodes && Replaces(m, nodes, c, v)
    ensures Linked(Store64(m, Slot(nodes, c), v), nodes)
  {
    hide Entry, Placed, GoodEntry, Replaces;
    var m' := Store64(m, Slot(nodes, c), v);
    forall d | ValidPos(d) && d.level <= 3 && Parent(d) in nodes
      ensures GoodEntry(m', nodes, d)
    {
      ReplaceEntryAt(m, own, id, nodes, c, v, d);
    }
  }

  lemma ReplaceEntryAt(m: Mem, own: Owners, id: nat, nodes: Nodes, c: Pos, v: nat, d: Pos)
    requires TableOk(m, own, id, nodes)
    requires ValidPos(c) && c.level <= 3 && Parent(c) in nodes && Replaces(m, nodes, c, v)
    requires ValidPos(d) && d.level <= 3 && Parent(d) in nodes
    ensures GoodEntry(Store64(m, Slot(nodes, c), v), nodes, d)
  {
    assert GoodEntry(m, nodes, d);
    EntryWritten(m, own, id, nodes, c, v, d);
    if d.level <= 2 {
      assert Parent(Parent(d)) in nodes;
      EntryWritten(m, own, id, nodes, c, v, Parent(d));
    }
    hide Entry, Placed, Linked, Present, Writable, User, Huge, NextTable;
  }

  /** Page `t` is free under `own` and holds the table at `c` under `own'`. */
  ghost predicate NewTable(own: Owners, own': Owners, id: nat, c: Pos, t: nat)
  {
    && t % 4096 == 0 && t < PHYS_LIMIT
    && (forall x :: t <= x < t + 4096 ==> own(x).Free? && own'(x) == Held(id, Table(c.level, c.prefix)))
    && (forall x :: own(x).Held? ==> own'(x) == own(x))
  }

  /** Memory after linking a zeroed table `t` at place `c` through entry `v`. */
  function Grown(m: Mem, nodes: Nodes, c: Pos, t: nat, v: nat): Mem
  {
    Store64(Clear(m, t, 4096), Slot(nodes, c), v)
  }

  lemma PlacedGrown(own: Owners, own': Owners, id: nat, nodes: Nodes, c: Pos, t: nat)
    requires Placed(own, id, nodes) && NewTable(own, own', id, c, t)
    requires ValidPos(c) && 1 <= c.level <= 3 && Parent(c) in nodes && c !in nodes
    ensures Placed(own', id, nodes[c := t])
  {
  }

  lemma EntryGrown(m: Mem, own: Owners, own': Owners, id: nat, nodes: Nodes, c: Pos, t: nat, v: nat, d: Pos)
    requires Placed(own, id, nodes) && NewTable(own, own', id, c, t)
    requires ValidPos(c) && 1 <= c.level <= 3 && Parent(c) in nodes && c !in nodes && v < W64
    requires Parent(d) in nodes[c := t]
    ensures Entry(Grown(m, nodes, c, t, v), nodes[c := t], d)
            == if d == c then v else if Parent(d) == c then 0 else Entry(m, nodes, d)
  {
    var nodes', m1 := nodes[c := t], Clear(m, t, 4096);
    PlacedGrown(own, own', id, nodes, c, t);
    assert Slot(nodes', c) == Slot(nodes, c);
    EntryWritten(m1, own', id, nodes', c, v, d);
    if Parent(d) == c {
      Load64Zero(m1, Slot(nodes', d));
    } else {
      assert Slot(nodes', d) == Slot(nodes, d);
      SlotTag(own, id, nodes, d);
      var s := Slot(nodes, d);
      forall x | s <= x < s + 8
        ensures m(x) == m1(x)
      {
        assert own(x).Held?;
      }
      Load64Same(m, m1, Slot(nodes, d));
    }
  }

  lemma GrowAt(m: Mem, own: Owners, own': Owners, id: nat, nodes: Nodes, c: Pos, t: nat, v: nat, d: Pos)
    requires TableOk(m, own, id, nodes) && NewTable(own, own', id, c, t)
    requires ValidPos(c) && 1 <= c.level <= 3 && Parent(c) in nodes && c !in nodes
    requires v < W64 && NextTable(v) == t && !Huge(v) && Present(v)
    requires c.level <= 2 ==>
               var p := Entry(m, nodes, Parent(c));
               (Writable(v) ==> Writable(p)) && (User(v) ==> User(p))
    requires ValidPos(d) && d.level <= 3 && Parent(d) in nodes[c := t]
    ensures GoodEntry(Grown(m, nodes, c, t, v), nodes[c := t], d)
  {
    var nodes' := nodes[c := t];
    PlacedGrown(own, own', id, nodes, c, t);
    EntryGrown(m, own, own', id, nodes, c, t, v, d);
    if Parent(d) == c {
      assert d !in nodes';
    } else {
      assert GoodEntry(m, nodes, d);
    }
    if d.level <= 2 {
      assert Parent(Parent(d)) in nodes';
      EntryGrown(m, own, own', id, nodes, c, t, v, Parent(d));
    }
    hide Entry, Placed, Linked, Writable, User, Huge, NextTable, NewTable, Grown;
  }

  /** Linking a zeroed table keeps the tree well-formed and maps no page. */
  lemma Grow(m: Mem, own: Owners, own': Owners, id: nat, nodes: Nodes, c: Pos, t: nat, v: nat)
    requires TableOk(m, own, id, nodes) && NewTable(own, own', id, c, t)
    requires ValidPos(c) && 1 <= c.level <= 3 && Parent(c) in nodes && c !in nodes
    requires v < W64 && NextTable(v) == t && !Huge(v) && Present(v)
    requires c.level <= 2 ==>
               var p := Entry(m, nodes, Parent(c));
               (Writable(v) ==> Writable(p)) && (User(v) ==> User(p))
    ensures TableOk(Grown(m, nodes, c, t, v), own', id, nodes[c := t])
  {
    var m', nodes' := Grown(m, nodes, c, t, v), nodes[c := t];
    PlacedGrown(own, own', id, nodes, c, t);
    hide Entry, Placed, GoodEntry, NewTable, Grown;
    forall d | ValidPos(d) && d.level <= 3 && Parent(d) in nodes'
      ensures GoodEntry(m', nodes', d)
    {
      GrowAt(m, own, own', id, nodes, c, t, v, d);
    }
  }

  lemma GrowLeaves(m: Mem, own: Owners, own': Owners, id: nat, nodes: Nodes, c: Pos, t: nat, v: nat)
    requires Placed(own, id, nodes) && NewTable(own, own', id, c, t)
    requires ValidPos(c) && 1 <= c.level <= 3 && Parent(c) in nodes && c !in nodes && v < W64
    ensures SameLeavesBut(m, nodes, Grown(m, nodes, c, t, v), nodes[c := t], -1)
  {
    var m', nodes' := Grown(m, nodes, c, t, v), nodes[c := t];
    forall w: nat | w < USER_PAGES
      ensures Leaf(m', nodes', w) == Leaf(m, nodes, w)
    {
      if Pos(1, w / 512) in nodes' {
        EntryGrown(m, own, own', id, nodes, c, t, v, Pos(0, w));
      }
      hide Entry, Placed, NewTable, Grown;
    }
  }

  // ------------------------------------------------------ the hardware walk

  datatype Translation =
    | Fault
    | Mapped(addr: nat, writable: bool, user: bool, noExec: bool)
    | Large(level: nat, addr: nat, writable: bool, user: bool, noExec: bool)

  /** The index of page `v` into a table of the given level. */
  function Index(v: nat, level: nat): (i: nat)
    ensures i < 512
  {
    match level
    case 1 => v % 512
    case 2 => v / 512 % 512
    case 3 => v / 512 / 512 % 512
    case _ => v / 512 / 512 / 512 % 512
  }

  /**
    The processor's walk from a table of the given level. Access is the conjunction
    of the W and U bits, and the disjunction of the NX bits, over all levels.
   */
  function WalkFrom(m: Mem, table: nat, level: nat, v: nat, w: bool, u: bool, x: bool): Translation
    requires 1 <= level <= 4
    decreases level
  {
    var e := Load64(m, table + 8 * Index(v, level));
    var w', u', x' := w && Writable(e), u && User(e), x || NoExec(e);
    if !Present(e) then Fault
    else if level == 1 then Mapped(Addr(e), w', u', x')
    else if level <= 3 && Huge(e) then Large(level, Addr(e), w', u', x')
    else WalkFrom(m, Addr(e), level - 1, v, w', u', x')
  }

  function HwWalk(m: Mem, root: nat, v: nat): Translation
  {
    WalkFrom(m, root, 4, v, true, true, false)
  }

  function Decode(e: Option<nat>): Translation
  {
    match e
    case None => Fault
    case Some(e) => Mapped(Addr(e), Writable(e), User(e), NoExec(e))
  }

  /** What user or kernel code may do with a page, apart from reading it. */
  datatype Access = Access(user: bool, write: bool, exec: bool)

  /** The translation leads to a page, with exactly this access. */
  predicate Permits(t: Translation, x: Access)
  {
    && t.Mapped?
    && (t.user <==> x.user)
    && (t.writable <==> x.write)
    && (t.noExec <==> !x.exec)
  }

  lemma NextTableIsAddr(e: nat)
    requires NextTable(e) < PHYS_LIMIT
    ensures Addr(e) == NextTable(e) && !NoExec(e)
  {
    assert e / 4096 < 0x100_0000_0000;
  }

  /** One step of the walk along a path of the tree. */
  lemma WalkStep(m: Mem, own: Owners, id: nat, nodes: Nodes, c: Pos, v: nat, w: bool, u: bool)
    requires TableOk(m, own, id, nodes) && ValidPos(c) && 1 <= c.level <= 3 && Parent(c) in nodes
    requires Index(v, c.level + 1) == c.prefix % 512
    ensures var e := Entry(m, nodes, c);
            WalkFrom(m, nodes[Parent(c)], c.level + 1, v, w, u, false)
            == if c in nodes then WalkFrom(m, nodes[c], c.level, v, w && Writable(e), u && User(e), false) else Fault
  {
    assert GoodEntry(m, nodes, c);
    var e := Entry(m, nodes, c);
    if c in nodes { NextTableIsAddr(e); }
    assert e == Load64(m, nodes[Parent(c)] + 8 * Index(v, c.level + 1));
    hide Load64, Index, Addr, NextTable, Writable, User, Huge, NoExec, Placed, Linked;
  }

  /**
    The tree refines the flat map: the processor's walk of any user page finds its
    leaf entry, with exactly the leaf's own access bits.
   */
  lemma WalkIsLeaf(m: Mem, own: Owners, id: nat, nodes: Nodes, v: nat)
    requires TableOk(m, own, id, nodes) && v < USER_PAGES
    ensures HwWalk(m, nodes[ROOT], v) == Decode(Leaf(m, nodes, v))
  {
    var c1 := Pos(1, v / 512);
    var c2 := Parent(c1);
    var c3 := Parent(c2);
    assert Parent(c3) == ROOT && ValidPos(c3) && ValidPos(c2) && ValidPos(c1);
    WalkStep(m, own, id, nodes, c3, v, true, true);
    if c3 in nodes {
      var w3, u3 := Writable(Entry(m, nodes, c3)), User(Entry(m, nodes, c3));
      WalkStep(m, own, id, nodes, c2, v, w3, u3);
      if c2 in nodes {
        var w2, u2 := w3 && Writable(Entry(m, nodes, c2)), u3 && User(Entry(m, nodes, c2));
        WalkStep(m, own, id, nodes, c1, v, w2, u2);
        if c1 in nodes { LeafStep(m, own, id, nodes, v); }
      }
    }
    hide Load64, Index, Addr, Writable, User, Huge, NoExec, Linked, Entry, WalkFrom;
  }

  lemma LeafStep(m: Mem, own: Owners, id: nat, nodes: Nodes, v: nat)
    requires TableOk(m, own, id, nodes) && v < USER_PAGES && Pos(1, v / 512) in nodes
    ensures var c1 := Pos(1, v / 512); var c2 := Parent(c1); var c3 := Parent(c2);
            var e1, e2, e3 := Entry(m, nodes, c1), Entry(m, nodes, c2), Entry(m, nodes, c3);
            WalkFrom(m, nodes[c1], 1, v, Writable(e3) && Writable(e2) && Writable(e1),
                     User(e3) && User(e2) && User(e1), false)
            == Decode(Leaf(m, nodes, v))
  {
    var c0 := Pos(0, v);
    var c1 := Parent(c0);
    var c2 := Parent(c1);
    assert GoodEntry(m, nodes, c0) && GoodEntry(m, nodes, c1) && GoodEntry(m, nodes, c2);
    assert Entry(m, nodes, c0) == Load64(m, nodes[c1] + 8 * Index(v, 1));
    hide Load64, Index, Addr, Writable, User, Huge, NoExec, Linked, Entry;
  }

  // --------------------------------------------------------- the kernel half

  /** Every table the walk visits from here on is reserved for the kernel. */
  ghost predicate KernelPath(m: Mem, own: Owners, table: nat, level: nat, v: nat)
    requires 1 <= level <= 3
    decreases level
  {
    && (forall x :: table <= x < table + 4096 ==> own(x) == Kernel)
    && var e := Load64(m, table + 8 * Index(v, level));
       (Present(e) && level > 1 && !Huge(e) ==> KernelPath(m, own, Addr(e), level - 1, v))
  }

  predicate KernelPage(v: nat)
  {
    USER_PAGES <= v < 2 * USER_PAGES
  }

  ghost predicate KernelReserved(m: Mem, own: Owners, root: nat)
  {
    forall v :: KernelPage(v) ==>
      var e := Load64(m, root + 8 * Index(v, 4));
      Present(e) ==> KernelPath(m, own, Addr(e), 3, v)
  }

  /** Kernel bytes and the upper half of the root are as before. */
  ghost predicate KernelBytesSame(own: Owners, m: Mem, own': Owners, m': Mem, root: nat)
  {
    && (forall x :: own(x) == Kernel ==> own'(x) == Kernel && m'(x) == m(x))
    && (forall x :: root + 2048 <= x < root + 4096 ==> m'(x) == m(x))
  }

  lemma {:induction false} KernelPathSame(m: Mem, own: Owners, m': Mem, own': Owners, table: nat, level: nat, v: nat,
                                          w: bool, u: bool, n: bool)
    requires 1 <= level <= 3 && KernelPath(m, own, table, level, v)
    requires forall x :: own(x) == Kernel ==> own'(x) == Kernel && m'(x) == m(x)
    ensures KernelPath(m', own', table, level, v)
    ensures WalkFrom(m', table, level, v, w, u, n) == WalkFrom(m, table, level, v, w, u, n)
    decreases level
  {
    var a := table + 8 * Index(v, level);
    hide Load64, Index, Addr, Writable, User, Huge, NoExec;
    Load64Same(m, m', a);
    var e := Load64(m, a);
    if Present(e) && level > 1 && !Huge(e) {
      KernelPathSame(m, own, m', own', Addr(e), level - 1, v, w && Writable(e), u && User(e), n || NoExec(e));
    }
  }

  /** No operation on the user half alters a kernel translation. */
  lemma KernelHalfFixed(m: Mem, own: Owners, m': Mem, own': Owners, root: nat, v: nat)
    requires KernelReserved(m, own, root) && KernelBytesSame(own, m, own', m', root) && KernelPage(v)
    ensures HwWalk(m', root, v) == HwWalk(m, root, v)
    ensures var e := Load64(m', root + 8 * Index(v, 4));
            Present(e) ==> KernelPath(m', own', Addr(e), 3, v)
  {
    var a := root + 8 * Index(v, 4);
    assert 256 <= Index(v, 4) < 512;
    Load64Same(m, m', a);
    var e := Load64(m, a);
    hide Load64;
    if Present(e) {
      KernelPathSame(m, own, m', own', Addr(e), 3, v, Writable(e), User(e), NoExec(e));
    }
  }

  // ------------------------------------------------------------ operations

  /** Only free bytes change owner, becoming tables of space `id`; only its tables are written. */
  ghost predicate Confined(id: nat, own: Owners, m: Mem, own': Owners, m': Mem)
  {
    && (forall x :: !own(x).Free? ==> own'(x) == own(x))
    && (forall x :: own(x).Free? ==> own'(x).Free? || IsTable(own'(x), id))
    && (forall x :: m'(x) != m(x) ==> IsTable(own'(x), id))
  }

  ghost predicate UpperHalfSame(root: nat, m: Mem, m': Mem)
  {
    forall x :: root + 2048 <= x < root + 4096 ==> m'(x) == m(x)
  }

  /** What every table operation keeps. */
  ghost predicate TableStep(id: nat, own: Owners, m: Mem, nodes: Nodes, own': Owners, m': Mem, nodes': Nodes)
  {
    && TableOk(m', own', id, nodes')
    && Confined(id, own, m, own', m')
    && (forall k :: k in nodes ==> k in nodes' && nodes'[k] == nodes[k])
    && ROOT in nodes && UpperHalfSame(nodes[ROOT], m, m')
  }

  lemma TableStepTrans(id: nat, o0: Owners, m0: Mem, n0: Nodes, o1: Owners, m1: Mem, n1: Nodes, o2: Owners, m2: Mem,
                       n2: Nodes)
    requires TableStep(id, o0, m0, n0, o1, m1, n1) && TableStep(id, o1, m1, n1, o2, m2, n2)
    ensures TableStep(id, o0, m0, n0, o2, m2, n2)
  {
    hide TableOk;
    assert forall x :: m2(x) != m0(x) ==> m2(x) != m1(x) || m1(x) != m0(x);
  }

  /** The entry of a user place never lies in the upper half of the root. */
  lemma SlotBelowKernelHalf(own: Owners, id: nat, nodes: Nodes, c: Pos)
    requires Placed(own, id, nodes) && ValidPos(c) && c.level <= 3 && Parent(c) in nodes
    ensures var s, r := Slot(nodes, c), nodes[ROOT]; s + 8 <= r + 2048 || r + 4096 <= s
  {
    var p, r := nodes[Parent(c)], nodes[ROOT];
    if Parent(c) == ROOT {
      assert c.prefix < 256;
    } else {
      assert own(p) == Held(id, Table(c.level + 1, c.prefix / 512)) && own(r) == Held(id, Table(4, 0));
      if p < r { PageGap(p, r); } else { PageGap(r, p); }
    }
  }

  lemma WriteConfined(m: Mem, own: Owners, id: nat, nodes: Nodes, c: Pos, v: nat)
    requires Placed(own, id, nodes) && ValidPos(c) && c.level <= 3 && Parent(c) in nodes
    ensures Confined(id, own, m, own, Store64(m, Slot(nodes, c), v))
    ensures UpperHalfSame(nodes[ROOT], m, Store64(m, Slot(nodes, c), v))
  {
    SlotTag(own, id, nodes, c);
    SlotBelowKernelHalf(own, id, nodes, c);
    hide Placed, Slot;
  }

  lemma WriteLeaves(m: Mem, own: Owners, id: nat, nodes: Nodes, c: Pos, v: nat)
    requires Placed(own, id, nodes) && Parent(c) in nodes && v < W64
    ensures SameLeavesBut(m, nodes, Store64(m, Slot(nodes, c), v), nodes, if c.level == 0 then c.prefix else -1)
  {
    var m' := Store64(m, Slot(nodes, c), v);
    hide Placed, Store64;
    forall w: nat | w < USER_PAGES && Pos(0, w) != c
      ensures Leaf(m', nodes, w) == Leaf(m, nodes, w)
    {
      if Pos(1, w / 512) in nodes {
        EntryWritten(m, own, id, nodes, c, v, Pos(0, w));
      }
      hide Entry;
    }
  }

  /** Replacing an entry is a table step that can change the leaf of its own page only. */
  lemma ReplaceStep(m: Mem, own: Owners, id: nat, nodes: Nodes, c: Pos, v: nat)
    requires TableOk(m, own, id, nodes)
    requires ValidPos(c) && c.level <= 3 && Parent(c) in nodes && Replaces(m, nodes, c, v)
    ensures var m' := Store64(m, Slot(nodes, c), v);
            && TableStep(id, own, m, nodes, own, m', nodes)
            && Entry(m', nodes, c) == v
            && SameLeavesBut(m, nodes, m', nodes, if c.level == 0 then c.prefix else -1)
  {
    ReplaceEntry(m, own, id, nodes, c, v);
    WriteConfined(m, own, id, nodes, c, v);
    WriteLeaves(m, own, id, nodes, c, v);
    EntryWritten(m, own, id, nodes, c, v, c);
    hide Linked, Confined, UpperHalfSame, SameLeavesBut, Entry;
  }

  /** `e` may be given the bits of `f` below its parent. */
  ghost predicate ParentAllows(m: Mem, nodes: Nodes, c: Pos, f: PtFlags)
  {
    c.level <= 2 ==> Allows(Entry(m, nodes, Parent(c)), f)
  }

  lemma WidenStep(m: Mem, own: Owners, id: nat, nodes: Nodes, c: Pos, f: PtFlags)
    requires TableOk(m, own, id, nodes) && f.present && ParentAllows(m, nodes, c, f)
    requires ValidPos(c) && 1 <= c.level <= 3 && Parent(c) in nodes && Present(Entry(m, nodes, c))
    ensures c in nodes && NextTable(Entry(m, nodes, c)) == nodes[c]
    ensures var v := Or(Entry(m, nodes, c), LowBits(f)); var m' := Store64(m, Slot(nodes, c), v);
            && TableStep(id, own, m, nodes, own, m', nodes)
            && Allows(Entry(m', nodes, c), f)
            && SameLeavesBut(m, nodes, m', nodes, -1)
            && Allows(v, f)
  {
    var e := Entry(m, nodes, c);
    assert GoodEntry(m, nodes, c);
    Load64Bound(m, Slot(nodes, c));
    Widened(e, f);
    var v := Or(e, LowBits(f));
    assert Replaces(m, nodes, c, v) by {
      hide Entry, Writable, User, Huge, NextTable, LowBits, Or, Slot, Placed, Linked;
    }
    hide Or, LowBits, Linked;
    ReplaceStep(m, own, id, nodes, c, v);
    hide *;
  }

  lemma GrowConfined(m: Mem, own: Owners, own': Owners, id: nat, nodes: Nodes, c: Pos, t: nat, v: nat)
    requires Placed(own, id, nodes) && ValidPos(c) && 1 <= c.level <= 3 && Parent(c) in nodes
    requires t % 4096 == 0 && t < PHYS_LIMIT
    requires Granted(own, own', t, 0, Held(id, Table(c.level, c.prefix)))
    ensures NewTable(own, own', id, c, t)
    ensures Confined(id, own, m, own', Grown(m, nodes, c, t, v))
    ensures UpperHalfSame(nodes[ROOT], m, Grown(m, nodes, c, t, v))
  {
    SlotTag(own, id, nodes, c);
    SlotBelowKernelHalf(own, id, nodes, c);
    assert Size(0) == 4096;
    assert forall x :: Inside(x, t, 0) <==> t <= x < t + 4096;
    var r := nodes[ROOT];
    assert forall x :: r <= x < r + 4096 ==> own(x) == Held(id, Table(4, 0));
    hide Placed, Slot, Inside, Size;
  }

  lemma GrowStep(m: Mem, own: Owners, own': Owners, id: nat, nodes: Nodes, c: Pos, t: nat, f: PtFlags)
    requires TableOk(m, own, id, nodes) && f.present && ParentAllows(m, nodes, c, f)
    requires ValidPos(c) && 1 <= c.level <= 3 && Parent(c) in nodes && !Present(Entry(m, nodes, c))
    requires t % 4096 == 0 && t < PHYS_LIMIT
    requires Granted(own, own', t, 0, Held(id, Table(c.level, c.prefix)))
    ensures var m', nodes' := Grown(m, nodes, c, t, Or(t, LowBits(f))), nodes[c := t];
            && TableStep(id, own, m, nodes, own', m', nodes')
            && Allows(Entry(m', nodes', c), f)
            && SameLeavesBut(m, nodes, m', nodes', -1)
  {
    var v := Or(t, LowBits(f));
    assert GoodEntry(m, nodes, c);
    LinkEntryFields(t, f);
    GrowConfined(m, own, own', id, nodes, c, t, v);
    hide Or, LowBits, Linked, Granted, GoodEntry, NewTable, Grown, Entry, NextTable, Huge, Writable, User, Confined;
    Grow(m, own, own', id, nodes, c, t, v);
    GrowLeaves(m, own, own', id, nodes, c, t, v);
    EntryGrown(m, own, own', id, nodes, c, t, v, c);
    hide Placed, SameLeavesBut;
  }

  lemma TableStepSame(m: Mem, own: Owners, id: nat, nodes: Nodes)
    requires TableOk(m, own, id, nodes)
    ensures TableStep(id, own, m, nodes, own, m, nodes)
    ensures forall v :: SameLeavesBut(m, nodes, m, nodes, v)
  {
    hide Linked, Leaf;
  }

  // ------------------------------------------------------ what tables cost

  /** Place of the level-`n` table on the path to page `v`. */
  function OnPath(v: nat, n: nat): Pos
  {
    if n == 0 then Pos(0, v) else Parent(OnPath(v, n - 1))
  }

  /** Every table added was paid for with one page from the free lists. */
  ghost predicate TablesPaid(h: Lists, nodes: Nodes, h': Lists, nodes': Nodes)
  {
    Total(h) + |nodes| == Total(h') + |nodes'|
  }

  /** The tables below the root on the path to page `v`. */
  function PathTables(v: nat): set<Pos>
  {
    {OnPath(v, 1), OnPath(v, 2), OnPath(v, 3)}
  }

  lemma PaidTrans(h: Lists, nodes: Nodes, h1: Lists, n1: Nodes, h2: Lists, n2: Nodes)
    requires TablesPaid(h, nodes, h1, n1) && TablesPaid(h1, n1, h2, n2)
    ensures TablesPaid(h, nodes, h2, n2)
  {
    hide Total;
  }

  lemma PathWhole(v: nat, k0: set<Pos>, k: set<Pos>)
    requires k == k0 + {OnPath(v, 3)} + {OnPath(v, 2)} + {OnPath(v, 1)}
    ensures k == k0 + PathTables(v)
  {
    hide OnPath;
  }

  lemma PathCutShort(v: nat, k0: set<Pos>, k: set<Pos>, n: nat)
    requires 1 <= n <= 3 && OnPath(v, n) !in k
    requires k == k0 || k == k0 + {OnPath(v, 3)} || k == k0 + {OnPath(v, 3)} + {OnPath(v, 2)}
    ensures k <= k0 + PathTables(v) && !(PathTables(v) <= k)
  {
    hide OnPath;
    assert OnPath(v, n) in PathTables(v);
  }

  /** How many of the tables `need` do not exist yet. */
  function Missing(nodes: Nodes, need: set<Pos>): nat
  {
    |need - nodes.Keys|
  }

  lemma UnionSize(a: set<Pos>, b: set<Pos>)
    ensures |a + b| == |a| + |b - a|
  {
    assert a + b == a + (b - a) && a !! b - a;
  }

  lemma {:induction false} ProperSmaller(a: set<Pos>, b: set<Pos>, c: Pos)
    requires a <= b && c in b && c !in a
    ensures |a| < |b|
  {
    UnionSize(a, b);
    assert a + b == b && c in b - a;
  }

  /** All tables needed exist now, so at least the missing ones could be paid for. */
  lemma NeedMet(h: Lists, nodes: Nodes, h': Lists, nodes': Nodes, need: set<Pos>)
    requires TablesPaid(h, nodes, h', nodes') && nodes'.Keys == nodes.Keys + need
    ensures Total(h) == Total(h') + Missing(nodes, need)
  {
    hide Total;
    UnionSize(nodes.Keys, need);
    assert |nodes| == |nodes.Keys| && |nodes'| == |nodes'.Keys|;
  }

  /** The lists are empty and a table needed is still missing, so they were short from the start. */
  lemma NeedUnmet(h: Lists, nodes: Nodes, h': Lists, nodes': Nodes, need: set<Pos>)
    requires TablesPaid(h, nodes, h', nodes') && Total(h') == 0
    requires nodes'.Keys <= nodes.Keys + need && !(need <= nodes'.Keys)
    ensures Total(h) < Missing(nodes, need)
  {
    hide Total;
    var c :| c in need && c !in nodes'.Keys;
    UnionSize(nodes.Keys, need);
    ProperSmaller(nodes'.Keys, nodes.Keys + need, c);
    assert |nodes| == |nodes.Keys| && |nodes'| == |nodes'.Keys|;
  }

  /** The entry `parent[idx]` is the one that describes place `c`. */
  ghost predicate Describes(nodes: Nodes, parent: nat, idx: nat, c: Pos)
  {
    && ValidPos(c) && 1 <= c.level <= 3 && Parent(c) in nodes
    && parent == nodes[Parent(c)] && idx == c.prefix % 512
  }

  lemma EntryHere(m: Mem, own: Owners, id: nat, nodes: Nodes, parent: nat, idx: nat, c: Pos)
    requires TableOk(m, own, id, nodes) && Describes(nodes, parent, idx, c)
    ensures Load64(m, parent + 8 * idx) == Entry(m, nodes, c) && (Present(Entry(m, nodes, c)) <==> c in nodes)
  {
    assert GoodEntry(m, nodes, c);
  }

  /** Give the entry of an existing table the W and U bits of `f`. */
  method WidenTable(ram: Ram, parent: nat, idx: nat, f: PtFlags, ghost id: nat, ghost nodes: Nodes, ghost c: Pos)
    requires ram.Valid() && TableOk(ram.mem, ram.own, id, nodes)
    requires Describes(nodes, parent, idx, c) && f.present && ParentAllows(ram.mem, nodes, c, f) && c in nodes
    modifies ram`mem
    ensures ram.Valid()
    ensures TableStep(id, old(ram.own), old(ram.mem), nodes, ram.own, ram.mem, nodes)
    ensures SameLeavesBut(old(ram.mem), nodes, ram.mem, nodes, -1)
    ensures nodes[c] == NextTable(Load64(old(ram.mem), parent + 8 * idx)) && Allows(Entry(ram.mem, nodes, c), f)
  {
    hide TableOk, Present, Addr, ListsOk, TagsOk, Total, Or, LowBits, NextTable, TableStep, SameLeavesBut, Store64,
      Allows, ParentAllows, Load64, Entry;
    EntryHere(ram.mem, ram.own, id, nodes, parent, idx, c);
    var entry := Load64(ram.mem, parent + 8 * idx);
    WidenStep(ram.mem, ram.own, id, nodes, c, f);
    var upgraded := Or(entry, LowBits(f));
    if upgraded != entry {
      ram.mem := Store64(ram.mem, parent + 8 * idx, upgraded);
    } else {
      TableStepSame(ram.mem, ram.own, id, nodes);
    }
  }

  /**
    Find or create the table below `parent[idx]`. Existing entries gain the W and U
    bits of `f`; a new table is zeroed first. No page changes its translation.
   */
  method EnsureTable(ram: Ram, parent: nat, idx: nat, f: PtFlags, ghost id: nat, ghost nodes: Nodes, ghost c: Pos)
    returns (next: Option<nat>, ghost nodes': Nodes)
    requires ram.Valid() && TableOk(ram.mem, ram.own, id, nodes)
    requires Describes(nodes, parent, idx, c) && f.present && ParentAllows(ram.mem, nodes, c, f)
    modifies ram`mem, ram`heads, ram`freePages, ram`own
    ensures ram.Valid()
    ensures TableStep(id, old(ram.own), old(ram.mem), nodes, ram.own, ram.mem, nodes')
    ensures SameLeavesBut(old(ram.mem), nodes, ram.mem, nodes', -1)
    ensures next.Some? ==> c in nodes' && nodes'[c] == next.value && Allows(Entry(ram.mem, nodes', c), f)
    ensures TablesPaid(old(ram.heads), nodes, ram.heads, nodes')
    ensures nodes'.Keys == if next.Some? then nodes.Keys + {c} else nodes.Keys
    ensures next.None? ==>
              c !in nodes && Total(ram.heads) == 0 && forall o :: 0 <= o < MAX_ORDER ==> ram.heads[o].None?
  {
    hide TableOk, Present, Addr, ListsOk, TagsOk, Total, Or, LowBits, NextTable, TableStep, SameLeavesBut, Granted,
      Store64, Allows, ParentAllows, Load64, Entry;
    EntryHere(ram.mem, ram.own, id, nodes, parent, idx, c);
    var entry := Load64(ram.mem, parent + 8 * idx);
    if Present(entry) {
      WidenTable(ram, parent, idx, f, id, nodes, c);
      assert nodes.Keys + {c} == nodes.Keys;
      return Some(NextTable(entry)), nodes;
    }
    var t := ram.Alloc(0, Held(id, Table(c.level, c.prefix)));
    if t.None? {
      TableStepSame(ram.mem, ram.own, id, nodes);
      return None, nodes;
    }
    AlignedPage(t.value, 0);
    GrowStep(ram.mem, old(ram.own), ram.own, id, nodes, c, t.value, f);
    ram.mem := Clear(ram.mem, t.value, 4096);
    ram.mem := Store64(ram.mem, parent + 8 * idx, Or(t.value, LowBits(f)));
    return Some(t.value), nodes[c := t.value];
  }

  /** A table step under which no user page changes its translation. */
  ghost predicate QuietStep(id: nat, own: Owners, m: Mem, nodes: Nodes, own': Owners, m': Mem, nodes': Nodes)
  {
    TableStep(id, own, m, nodes, own', m', nodes') && SameLeavesBut(m, nodes, m', nodes', -1)
  }

  lemma QuietThen(id: nat, o0: Owners, m0: Mem, n0: Nodes, o1: Owners, m1: Mem, n1: Nodes, o2: Owners, m2: Mem,
                  n2: Nodes, v: int)
    requires QuietStep(id, o0, m0, n0, o1, m1, n1) && TableStep(id, o1, m1, n1, o2, m2, n2)
    requires SameLeavesBut(m1, n1, m2, n2, v)
    ensures TableStep(id, o0, m0, n0, o2, m2, n2) && SameLeavesBut(m0, n0, m2, n2, v)
  {
    TableStepTrans(id, o0, m0, n0, o1, m1, n1, o2, m2, n2);
    hide TableStep, Leaf;
  }

  lemma Indices(virt: nat)
    requires virt < 0x8000_0000_0000
    ensures var v := virt / 4096;
            && v < USER_PAGES
            && virt / 0x1000 % 512 == v % 512
            && virt / 0x20_0000 % 512 == v / 512 % 512
            && virt / 0x4000_0000 % 512 == v / 512 / 512 % 512
            && virt / 0x80_0000_0000 % 512 == v / 512 / 512 / 512 % 512
  {
    var v := virt / 4096;
    assert virt / 0x20_0000 == v / 512;
    assert virt / 0x4000_0000 == v / 512 / 512;
    assert virt / 0x80_0000_0000 == v / 512 / 512 / 512;
  }

  lemma PathPlaces(virt: nat)
    requires virt < 0x8000_0000_0000
    ensures var v := virt / 4096; var c1, c2, c3 := OnPath(v, 1), OnPath(v, 2), OnPath(v, 3);
            && c1 == Pos(1, v / 512) && c2 == Parent(c1) && c3 == Parent(c2) && Parent(c3) == ROOT
            && c1.level == 1 && c2.level == 2 && c3.level == 3
            && ValidPos(c1) && ValidPos(c2) && ValidPos(c3) && ValidPos(Pos(0, v))
            && virt / 0x80_0000_0000 % 512 == c3.prefix % 512
            && virt / 0x4000_0000 % 512 == c2.prefix % 512
            && virt / 0x20_0000 % 512 == c1.prefix % 512
            && virt / 0x1000 % 512 == v % 512
  {
    Indices(virt);
    var v := virt / 4096;
    assert OnPath(v, 1) == Parent(Pos(0, v)) && OnPath(v, 2) == Parent(OnPath(v, 1))
           && OnPath(v, 3) == Parent(OnPath(v, 2));
  }

  /** Walk from the root, creating tables, down to the last-level table of page `virt`. */
  method EnsurePath(ram: Ram, root: nat, virt: nat, f: PtFlags, ghost id: nat, ghost nodes: Nodes)
    returns (pt: Option<nat>, ghost nodes': Nodes)
    requires ram.Valid() && TableOk(ram.mem, ram.own, id, nodes) && root == nodes[ROOT]
    requires virt < 0x8000_0000_0000 && f.present
    modifies ram`mem, ram`heads, ram`freePages, ram`own
    ensures ram.Valid()
    ensures QuietStep(id, old(ram.own), old(ram.mem), nodes, ram.own, ram.mem, nodes')
    ensures pt.Some? ==>
              var c1 := Pos(1, virt / 4096 / 512);
              c1 in nodes' && nodes'[c1] == pt.value && Allows(Entry(ram.mem, nodes', c1), f)
    ensures TablesPaid(old(ram.heads), nodes, ram.heads, nodes')
    ensures pt.Some? ==> nodes'.Keys == nodes.Keys + PathTables(virt / 4096)
    ensures pt.None? ==>
              && Pos(1, virt / 4096 / 512) !in nodes && Total(ram.heads) == 0
              && nodes'.Keys <= nodes.Keys + PathTables(virt / 4096) && !(PathTables(virt / 4096) <= nodes'.Keys)
              && forall o :: 0 <= o < MAX_ORDER ==> ram.heads[o].None?
  {
    PathPlaces(virt);
    ghost var v := virt / 4096;
    ghost var c1, c2, c3 := OnPath(v, 1), OnPath(v, 2), OnPath(v, 3);
    ghost var o0, m0 := ram.own, ram.mem;
    assert c1 in nodes ==> c2 in nodes && c3 in nodes;
    hide ListsOk, TagsOk, Total, Placed, Linked, Entry, Allows, SameLeavesBut, ValidPos, OnPath, Confined,
      UpperHalfSame, TablesPaid, PathTables;
    ghost var h0 := ram.heads;
    var pdpt, n3 := EnsureTable(ram, root, virt / 0x80_0000_0000 % 512, f, id, nodes, c3);
    ghost var o3, m3 := ram.own, ram.mem;
    if pdpt.None? {
      PathCutShort(v, nodes.Keys, n3.Keys, 3);
      return None, n3;
    }
    ghost var h3 := ram.heads;
    var pd, n2 := EnsureTable(ram, pdpt.value, virt / 0x4000_0000 % 512, f, id, n3, c2);
    ghost var o2, m2 := ram.own, ram.mem;
    QuietThen(id, o0, m0, nodes, o3, m3, n3, o2, m2, n2, -1);
    ghost var h2 := ram.heads;
    PaidTrans(h0, nodes, h3, n3, h2, n2);
    if pd.None? {
      PathCutShort(v, nodes.Keys, n2.Keys, 2);
      return None, n2;
    }
    pt, nodes' := EnsureTable(ram, pd.value, virt / 0x20_0000 % 512, f, id, n2, c1);
    QuietThen(id, o0, m0, nodes, o2, m2, n2, ram.own, ram.mem, nodes', -1);
    PaidTrans(h0, nodes, h2, n2, ram.heads, nodes');
    if pt.None? {
      PathCutShort(v, nodes.Keys, nodes'.Keys, 1);
    } else {
      PathWhole(v, nodes.Keys, nodes'.Keys);
    }
  }

  /** Storing a present leaf below a last-level table that allows it. */
  lemma SetLeaf(m: Mem, own: Owners, id: nat, nodes: Nodes, v: nat, phys: nat, f: PtFlags)
    requires TableOk(m, own, id, nodes) && v < USER_PAGES && Pos(1, v / 512) in nodes
    requires f.present && Allows(Entry(m, nodes, Pos(1, v / 512)), f)
    requires phys % 4096 == 0 && phys < PHYS_LIMIT
    ensures var m' := Store64(m, Slot(nodes, Pos(0, v)), LeafEntry(phys, f));
            && TableStep(id, own, m, nodes, own, m', nodes)
            && SameLeavesBut(m, nodes, m', nodes, v)
            && Leaf(m', nodes, v) == Some(LeafEntry(phys, f))
  {
    LeafEntryFields(phys, f);
    hide LeafEntry, TableOk, Entry, TableStep, SameLeavesBut;
    ReplaceStep(m, own, id, nodes, Pos(0, v), LeafEntry(phys, f));
  }

  lemma ClearLeaf(m: Mem, own: Owners, id: nat, nodes: Nodes, v: nat)
    requires TableOk(m, own, id, nodes) && v < USER_PAGES && Pos(1, v / 512) in nodes
    ensures var m' := Store64(m, Slot(nodes, Pos(0, v)), 0);
            && TableStep(id, own, m, nodes, own, m', nodes)
            && SameLeavesBut(m, nodes, m', nodes, v)
            && Leaf(m', nodes, v) == None
  {
    hide TableOk, Entry, TableStep, SameLeavesBut;
    ReplaceStep(m, own, id, nodes, Pos(0, v), 0);
  }

  /**
    Map one page. On success exactly that page's leaf changes; on failure no page
    changes, and the allocator is exhausted. It succeeds exactly when the tables
    missing on the path can be paid for with the reachable pages.
   */
  method Map4k(ram: Ram, root: nat, virt: nat, phys: nat, f: PtFlags, ghost id: nat, ghost nodes: Nodes)
    returns (ok: bool, ghost nodes': Nodes)
    requires ram.Valid() && TableOk(ram.mem, ram.own, id, nodes) && root == nodes[ROOT]
    requires virt < 0x8000_0000_0000 && f.present && phys % 4096 == 0 && phys < PHYS_LIMIT
    modifies ram`mem, ram`heads, ram`freePages, ram`own
    ensures ram.Valid()
    ensures TableStep(id, old(ram.own), old(ram.mem), nodes, ram.own, ram.mem, nodes')
    ensures SameLeavesBut(old(ram.mem), nodes, ram.mem, nodes', if ok then virt / 4096 else -1)
    ensures ok ==> Leaf(ram.mem, nodes', virt / 4096) == Some(LeafEntry(phys, f))
    ensures TablesPaid(old(ram.heads), nodes, ram.heads, nodes')
    ensures ok ==> nodes'.Keys == nodes.Keys + PathTables(virt / 4096)
    ensures !ok ==>
              && Pos(1, virt / 4096 / 512) !in nodes && Total(ram.heads) == 0
              && nodes'.Keys <= nodes.Keys + PathTables(virt / 4096) && !(PathTables(virt / 4096) <= nodes'.Keys)
              && forall o :: 0 <= o < MAX_ORDER ==> ram.heads[o].None?
    ensures ok <==> Total(old(ram.heads)) >= Missing(nodes, PathTables(virt / 4096))
  {
    hide ListsOk, TagsOk, Total, Placed, Linked, Entry, Allows, SameLeavesBut, LeafEntry, Leaf, Confined, UpperHalfSame,
      Store64, PathTables, Missing, TablesPaid;
    ghost var v := virt / 4096;
    Indices(virt);
    var pt, n1 := EnsurePath(ram, root, virt, f, id, nodes);
    if pt.None? {
      NeedUnmet(old(ram.heads), nodes, ram.heads, n1, PathTables(v));
      return false, n1;
    }
    NeedMet(old(ram.heads), nodes, ram.heads, n1, PathTables(v));
    ghost var o1, m1 := ram.own, ram.mem;
    SetLeaf(m1, o1, id, n1, v, phys, f);
    ram.mem := Store64(ram.mem, pt.value + 8 * (virt / 0x1000 % 512), LeafEntry(phys, f));
    QuietThen(id, old(ram.own), old(ram.mem), nodes, o1, m1, n1, o1, ram.mem, n1, v);
    return true, n1;
  }

  /** Read down to the last-level table of page `virt`, if the path exists. */
  method LastTable(m: Mem, root: nat, virt: nat, ghost own: Owners, ghost id: nat, ghost nodes: Nodes)
    returns (pt: Option<nat>)
    requires TableOk(m, own, id, nodes) && root == nodes[ROOT] && virt < 0x8000_0000_0000
    ensures var c1 := Pos(1, virt / 4096 / 512);
            if c1 in nodes then pt == Some(nodes[c1]) else pt == None
  {
    ghost var v := virt / 4096;
    ghost var c1, c2, c3 := OnPath(v, 1), OnPath(v, 2), OnPath(v, 3);
    PathPlaces(virt);
    hide Placed, Linked, OnPath, NextTable, Load64, ValidPos;
    DescendStep(m, own, id, nodes, c3);
    DescendStep(m, own, id, nodes, c2);
    DescendStep(m, own, id, nodes, c1);
    var pdptEntry := Load64(m, root + 8 * (virt / 0x80_0000_0000 % 512));
    if !Present(pdptEntry) { return None; }
    var pdEntry := Load64(m, NextTable(pdptEntry) + 8 * (virt / 0x4000_0000 % 512));
    if !Present(pdEntry) { return None; }
    var ptEntry := Load64(m, NextTable(pdEntry) + 8 * (virt / 0x20_0000 % 512));
    if !Present(ptEntry) { return None; }
    return Some(NextTable(ptEntry));
  }

  /** Remove one page's leaf; a page with no last-level table is left alone. */
  method Unmap4k(ram: Ram, root: nat, virt: nat, ghost id: nat, ghost nodes: Nodes)
    requires ram.Valid() && TableOk(ram.mem, ram.own, id, nodes) && root == nodes[ROOT]
    requires virt < 0x8000_0000_0000
    modifies ram`mem
    ensures ram.Valid()
    ensures TableStep(id, ram.own, old(ram.mem), nodes, ram.own, ram.mem, nodes)
    ensures SameLeavesBut(old(ram.mem), nodes, ram.mem, nodes, virt / 4096)
    ensures Leaf(ram.mem, nodes, virt / 4096) == None
  {
    hide ListsOk, TagsOk, Total, Placed, Linked, Entry, TableStep, SameLeavesBut, Store64, Load64;
    ghost var v := virt / 4096;
    Indices(virt);
    TableStepSame(ram.mem, ram.own, id, nodes);
    var pt := LastTable(ram.mem, root, virt, ram.own, id, nodes);
    if pt.None? { return; }
    ClearLeaf(ram.mem, ram.own, id, nodes, v);
    ram.mem := Store64(ram.mem, pt.value + 8 * (virt / 0x1000 % 512), 0);
  }

  /** Reading an intermediate entry tells whether the table below exists, and where. */
  lemma DescendStep(m: Mem, own: Owners, id: nat, nodes: Nodes, c: Pos)
    requires TableOk(m, own, id, nodes) && ValidPos(c) && 1 <= c.level <= 3
    ensures Parent(c) in nodes ==>
              var e := Load64(m, nodes[Parent(c)] + 8 * (c.prefix % 512));
              (Present(e) <==> c in nodes) && (c in nodes ==> NextTable(e) == nodes[c])
    ensures c in nodes ==> Parent(c) in nodes
  {
    if Parent(c) in nodes { assert GoodEntry(m, nodes, c); }
  }

  /** The `i`-th entry of the table at `t`. */
  function Word(m: Mem, t: nat, i: nat): nat
  {
    Load64(m, t + 8 * i)
  }

  /** Memory with a fresh root at `t`: user half empty, kernel half copied from `src`. */
  ghost predicate RootBuilt(m: Mem, m': Mem, t: nat, src: nat)
  {
    && (forall i: nat :: i < 256 ==> Word(m', t, i) == 0)
    && (forall i :: 256 <= i < 512 ==> Word(m', t, i) == Word(m, src, i))
    && (forall x :: x < t || x >= t + 4096 ==> m'(x) == m(x))
  }

  lemma WordStored(m: Mem, t: nat, i: nat, v: nat)
    requires v < W64 && i < 512
    ensures var m' := Store64(m, t + 8 * i, v);
            && (forall j: nat :: Word(m', t, j) == if j == i then v else Word(m, t, j))
            && (forall x :: x < t || x >= t + 4096 ==> m'(x) == m(x))
  {
    var m' := Store64(m, t + 8 * i, v);
    Load64Stored(m, t + 8 * i, v);
    forall j: nat
      ensures Word(m', t, j) == if j == i then v else Word(m, t, j)
    {
      if j != i { Load64Same(m, m', t + 8 * j); }
    }
  }

  lemma WordsElsewhere(m: Mem, m': Mem, t: nat, src: nat)
    requires t + 4096 <= src || src + 4096 <= t
    requires forall x :: x < t || x >= t + 4096 ==> m'(x) == m(x)
    ensures forall j: nat :: j < 512 ==> Word(m', src, j) == Word(m, src, j)
  {
    forall j: nat | j < 512
      ensures Word(m', src, j) == Word(m, src, j)
    {
      Load64Same(m, m', src + 8 * j);
    }
  }

  method BuildRoot(m: Mem, t: nat, src: nat) returns (m': Mem)
    requires t + 4096 <= src || src + 4096 <= t
    ensures RootBuilt(m, m', t, src)
  {
    hide Word, Store64;
    m' := m;
    for i := 0 to 512
      invariant forall j: nat :: j < i ==> Word(m', t, j) == 0
      invariant forall x :: x < t || x >= t + 4096 ==> m'(x) == m(x)
    {
      WordStored(m', t, i, 0);
      m' := Store64(m', t + 8 * i, 0);
    }
    for i := 256 to 512
      invariant forall j: nat :: j < 256 ==> Word(m', t, j) == 0
      invariant forall j :: 256 <= j < i ==> Word(m', t, j) == Word(m, src, j)
      invariant forall x :: x < t || x >= t + 4096 ==> m'(x) == m(x)
    {
      m' := CopyEntry(m', t, src, i, m);
    }
  }

  method CopyEntry(m: Mem, t: nat, src: nat, i: nat, ghost m0: Mem) returns (m': Mem)
    requires i < 512 && (t + 4096 <= src || src + 4096 <= t)
    requires forall x :: x < t || x >= t + 4096 ==> m(x) == m0(x)
    ensures forall j: nat :: Word(m', t, j) == if j == i then Word(m0, src, i) else Word(m, t, j)
    ensures forall x :: x < t || x >= t + 4096 ==> m'(x) == m(x)
  {
    WordsElsewhere(m0, m, t, src);
    Load64Bound(m, src + 8 * i);
    WordStored(m, t, i, Word(m, src, i));
    m' := Store64(m, t + 8 * i, Load64(m, src + 8 * i));
  }

  lemma FreshRootOk(m: Mem, own: Owners, id: nat, t: nat)
    requires t % 4096 == 0 && t < PHYS_LIMIT
    requires forall x :: t <= x < t + 4096 ==> own(x) == Held(id, Table(4, 0))
    requires forall i: nat :: i < 256 ==> Word(m, t, i) == 0
    ensures TableOk(m, own, id, map[ROOT := t])
    ensures forall v: nat :: v < USER_PAGES ==> Leaf(m, map[ROOT := t], v) == None
  {
    var nodes := map[ROOT := t];
    forall c | ValidPos(c) && c.level <= 3 && Parent(c) in nodes
      ensures GoodEntry(m, nodes, c)
    {
      assert Entry(m, nodes, c) == Word(m, t, c.prefix % 512);
    }
  }

  lemma CopiedKernelHalf(m: Mem, own: Owners, m': Mem, own': Owners, t: nat, src: nat, v: nat)
    requires RootBuilt(m, m', t, src) && KernelPage(v) && KernelReserved(m, own, src)
    requires forall x :: own(x) == Kernel ==> own'(x) == Kernel
    requires forall x :: t <= x < t + 4096 ==> own(x) != Kernel
    ensures HwWalk(m', t, v) == HwWalk(m, src, v)
    ensures var e := Load64(m', t + 8 * Index(v, 4)); Present(e) ==> KernelPath(m', own', Addr(e), 3, v)
  {
    var i := Index(v, 4);
    assert 256 <= i;
    hide Index, KernelPath;
    assert Word(m', t, i) == Word(m, src, i);
    var e := Word(m, src, i);
    hide Load64, Addr, Writable, User, NoExec, KernelPath;
    if Present(e) {
      KernelPathSame(m, own, m', own', Addr(e), 3, v, Writable(e), User(e), NoExec(e));
    }
  }

  /**
    Allocate a root table for space `id`. Its user half maps nothing; its kernel half
    translates exactly as that of the current root `src`.
   */
  method AllocRoot(ram: Ram, src: nat, ghost id: nat) returns (root: nat, ghost nodes: Nodes)
    requires ram.Valid() && KernelReserved(ram.mem, ram.own, src)
    requires ram.own(0) == Kernel && src % 4096 == 0 && !ram.own(src).Free?
    modifies ram`mem, ram`heads, ram`freePages, ram`own
    ensures ram.Valid()
    ensures root == 0 <==> Total(old(ram.heads)) == 0
    ensures root == 0 ==>
              && ram.mem == old(ram.mem) && ram.own == old(ram.own)
              && ram.heads == old(ram.heads) && ram.freePages == old(ram.freePages)
    ensures root != 0 ==>
              && nodes == map[ROOT := root]
              && ram.freePages == old(ram.freePages) - 1 && Total(ram.heads) == Total(old(ram.heads)) - 1
              && TableOk(ram.mem, ram.own, id, nodes)
              && Granted(old(ram.own), ram.own, root, 0, Held(id, Table(4, 0)))
              && (forall v: nat :: v < USER_PAGES ==> Leaf(ram.mem, nodes, v) == None)
              && (forall x :: ram.mem(x) != old(ram.mem)(x) ==> root <= x < root + 4096)
              && (forall v :: KernelPage(v) ==> HwWalk(ram.mem, root, v) == HwWalk(old(ram.mem), src, v))
              && KernelReserved(ram.mem, ram.own, root)
  {
    ghost var own0, m0 := ram.own, ram.mem;
    hide ListsOk, TagsOk, Total, KernelReserved, TableOk, Leaf, HwWalk;
    assert Pow2(0) == 1;
    var t := ram.Alloc(0, Held(id, Table(4, 0)));
    if t.None? { return 0, map[]; }
    root, nodes := t.value, map[ROOT := t.value];
    GrantedPage(own0, ram.own, root, src, Held(id, Table(4, 0)));
    hide Granted;
    ram.mem := BuildRoot(ram.mem, root, src);
    FreshRootOk(ram.mem, ram.own, id, root);
    RootInherits(m0, own0, ram.mem, ram.own, root, src);
  }

  lemma GrantedPage(own: Owners, own': Owners, t: nat, src: nat, tag: Owner)
    requires Granted(own, own', t, 0, tag) && Aligned(t, 0) && tag.Held?
    requires own(0) == Kernel && src % 4096 == 0 && !own(src).Free?
    ensures t != 0 && t % 4096 == 0 && (t + 4096 <= src || src + 4096 <= t)
    ensures forall x :: t <= x < t + 4096 ==> own(x).Free? && own'(x) == tag
    ensures forall x :: own(x) == Kernel ==> own'(x) == Kernel
  {
    AlignedPage(t, 0);
    assert Size(0) == 4096;
    assert forall x :: Inside(x, t, 0) <==> t <= x < t + 4096;
    hide Size, Inside;
    if t < src { PageGap(t, src); } else if src < t { PageGap(src, t); }
  }

  lemma RootInherits(m: Mem, own: Owners, m': Mem, own': Owners, t: nat, src: nat)
    requires RootBuilt(m, m', t, src) && KernelReserved(m, own, src)
    requires forall x :: own(x) == Kernel ==> own'(x) == Kernel
    requires forall x :: t <= x < t + 4096 ==> own(x) != Kernel
    ensures forall v :: KernelPage(v) ==> HwWalk(m', t, v) == HwWalk(m, src, v)
    ensures KernelReserved(m', own', t)
  {
    hide HwWalk, KernelPath, RootBuilt, Index, Addr, Present;
    forall v | KernelPage(v)
      ensures HwWalk(m', t, v) == HwWalk(m, src, v)
      ensures var e := Load64(m', t + 8 * Index(v, 4)); Present(e) ==> KernelPath(m', own', Addr(e), 3, v)
    {
      CopiedKernelHalf(m, own, m', own', t, src, v);
    }
  }

  // --------------------------------------------------- exactness, restated

  /**
    After mapping page `v`, the processor's walk of every address, user or kernel,
    is as before except at `v`, where access is exactly what the flags ask for.
   */
  lemma MapIsExact(id: nat, own: Owners, m: Mem, nodes: Nodes, own': Owners, m': Mem, nodes': Nodes, v: nat, phys: nat,
                   f: PtFlags, w: nat)
    requires TableOk(m, own, id, nodes) && TableStep(id, own, m, nodes, own', m', nodes')
    requires SameLeavesBut(m, nodes, m', nodes', v) && Leaf(m', nodes', v) == Some(LeafEntry(phys, f))
    requires KernelReserved(m, own, nodes[ROOT]) && phys % 4096 == 0 && phys < PHYS_LIMIT
    requires v < USER_PAGES && w < 2 * USER_PAGES
    ensures HwWalk(m', nodes[ROOT], w)
            == if w == v then Mapped(phys, f.writable, f.user, f.noExec) else HwWalk(m, nodes[ROOT], w)
  {
    if w < USER_PAGES {
      LeafEntryFields(phys, f);
      hide LeafEntry, Leaf, HwWalk, Confined, TableOk;
      WalkIsLeaf(m, own, id, nodes, w);
      WalkIsLeaf(m', own', id, nodes', w);
    } else {
      KernelUntouched(id, own, m, nodes, own', m', nodes');
      KernelHalfFixed(m, own, m', own', nodes[ROOT], w);
    }
  }

  /** A table step leaves every kernel byte and the kernel half of the root alone. */
  lemma KernelUntouched(id: nat, own: Owners, m: Mem, nodes: Nodes, own': Owners, m': Mem, nodes': Nodes)
    requires TableStep(id, own, m, nodes, own', m', nodes')
    ensures KernelBytesSame(own, m, own', m', nodes[ROOT])
  {
    hide TableOk;
  }
}
