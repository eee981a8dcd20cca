/**
The four-level page table of x86-64 and the kernel's walks over it: `find_pte`,
`map_pages`, `vpmap_lookup_vaddr`, and the teardown of `vpmap_destroy`.

Page table pages live in physical memory and point to each other by address. The
specification is flat: for each address space, one 64-bit entry per virtual page
number, 0 where no table exists. Words are integers below 2^64; the flag bits of an
entry are its low 12 bits, and the page address its bits 12 to 50.

The tables of the kernel hang below the last slot of every root: an address space is given
the kernel's entry there, so that a mapping made in the kernel's part is made in all of them.
 */
module PageTable {
  import opened Arithmetic
  import opened Common

  const PG := 4096
  const ENTRIES := 512
  const WORD := 0x1_0000_0000_0000_0000
  const VPNS := 0x10_0000_0000        // 2^36 pages of a canonical address space
  const PHYS := 0x8_0000_0000_0000    // 2^51, PHYS_ADDR_MASK

  /** The top-level slot of the kernel, and its first address. */
  const KSLOT := 511
  const KMAP_BASE := 0xFFFF_FFFF_8000_0000

  const PTE_P := 1
  const PTE_W := 2
  const PTE_U := 4

  /** Physical memory holding page tables: page address to its 512 entries. */
  type Mem = map<int, seq<int>>

  predicate Present(e: int) { e % 2 == 1 }

  /** PPN, PTE_ADDR, PDE_ADDR, ...: the page address in an entry or a physical address. */
  function Ppn(e: int): int { e % PHYS / PG * PG }

  /** The page number a virtual address belongs to, for the 48 bits the hardware translates. */
  function Vpn(v: int): int { v / PG % VPNS }

  function PTX(v: int): int { v / 0x1000 % 512 }
  function PDX(v: int): int { v / 0x20_0000 % 512 }
  function PDPTX(v: int): int { v / 0x4000_0000 % 512 }
  function PML4X(v: int): int { v / 0x80_0000_0000 % 512 }

  /** A page number without its last `level` index fields. */
  function Shift(w: int, level: nat): int {
    if level == 0 then w else Shift(w, level - 1) / ENTRIES
  }

  /** Dividing in two steps, for the shifts of the index macros. */
  lemma Shifts(v: int)
    requires v >= 0
    ensures v / 0x1000 / 512 == v / 0x20_0000
    ensures v / 0x20_0000 / 512 == v / 0x4000_0000
    ensures v / 0x4000_0000 / 512 == v / 0x80_0000_0000
  {
    DivDiv(v, 0x1000, 512);
    DivDiv(v, 0x20_0000, 512);
    DivDiv(v, 0x4000_0000, 512);
  }

  /** Dropping the low field of a page number commutes with masking the high bits. */
  lemma DropField(w: int)
    requires w >= 0
    ensures w % 0x10_0000_0000 / 512 == w / 512 % 0x800_0000 && w % 0x10_0000_0000 % 512 == w % 512
    ensures w % 0x800_0000 / 512 == w / 512 % 0x4_0000 && w % 0x800_0000 % 512 == w % 512
    ensures w % 0x4_0000 / 512 == w / 512 % 512 && w % 0x4_0000 % 512 == w % 512
  {
    DropLow(w, 512, 0x800_0000);
    DropLow(w, 512, 0x4_0000);
    DropLow(w, 512, 512);
  }

  /** The index macros select the fields of the page number. */
  lemma IndexMacros(v: int)
    requires 0 <= v < WORD
    ensures 0 <= Vpn(v) < VPNS
    ensures PTX(v) == Shift(Vpn(v), 0) % ENTRIES
    ensures PDX(v) == Shift(Vpn(v), 1) % ENTRIES
    ensures PDPTX(v) == Shift(Vpn(v), 2) % ENTRIES
    ensures PML4X(v) == Shift(Vpn(v), 3) % ENTRIES
    ensures Shift(Vpn(v), 4) == 0
  {
    var w := v / PG;
    Shifts(v);
    DropField(w);
    DropField(w / 512);
    DropField(w / 512 / 512);
    assert Shift(Vpn(v), 1) == w / 512 % 0x800_0000;
    assert Shift(Vpn(v), 2) == w / 512 / 512 % 0x4_0000;
    assert Shift(Vpn(v), 3) == w / 512 / 512 / 512 % 512;
    assert Shift(Vpn(v), 4) == 0;
  }

  /** The entry for page w below table t of the given level, or 0 if a table is missing. */
  function EntryBelow(mem: Mem, t: int, level: nat, w: int): int
    decreases level
  {
    var i := Shift(w, level) % ENTRIES;
    if t !in mem || |mem[t]| != ENTRIES then 0
    else if level == 0 then mem[t][i]
    else if Present(mem[t][i]) then EntryBelow(mem, Ppn(mem[t][i]), level - 1, w)
    else 0
  }

  /** The flat page table of an address space. */
  function Entry(mem: Mem, root: int, w: int): int { EntryBelow(mem, root, 3, w) }

  /** The last-level table for page w below table t, if all tables on the way exist. */
  function LeafBelow(mem: Mem, t: int, level: nat, w: int): Option<int>
    decreases level
  {
    var i := Shift(w, level) % ENTRIES;
    if t !in mem || |mem[t]| != ENTRIES then None
    else if level == 0 then Some(t)
    else if Present(mem[t][i]) then LeafBelow(mem, Ppn(mem[t][i]), level - 1, w)
    else None
  }

  // ---------------------------------------------------------------- well-formed tables

  /** Where a table sits: its address space, its level, the page number bits above it, its parent. */
  datatype Node = Node(root: int, level: nat, prefix: int, parent: int)

  ghost predicate PageAddr(t: int) { 0 < t < PHYS && t % PG == 0 }

  /** The parent's entry for these page number bits leads to the table. */
  ghost predicate Linked(mem: Mem, info: map<int, Node>, t: int)
    requires t in info
  {
    var p, i := info[t].parent, info[t].prefix % ENTRIES;
    && p in mem && p in info && |mem[p]| == ENTRIES && Present(mem[p][i]) && Ppn(mem[p][i]) == t
    && info[p].level == info[t].level + 1 && info[p].root == info[t].root
    && info[t].prefix == info[p].prefix * ENTRIES + i
  }

  /** The kernel's entry e comes from the root r. */
  ghost predicate KernelOf(mem: Mem, info: map<int, Node>, r: int, e: int) {
    r in mem && r in info && info[r].level == 3 && |mem[r]| == ENTRIES && mem[r][KSLOT] == e
  }

  /** Entry i of table t leads to the table for its page number bits; a table below the kernel's
      slot may belong to another root that has the same entry. */
  ghost predicate ChildOk(mem: Mem, info: map<int, Node>, t: int, i: int)
    requires t in mem && t in info && info[t].level > 0 && |mem[t]| == ENTRIES && 0 <= i < ENTRIES
  {
    var c := Ppn(mem[t][i]);
    && c in info && info[c].level == info[t].level - 1 && info[c].prefix == info[t].prefix * ENTRIES + i
    && if info[t].level == 3 && i == KSLOT then KernelOf(mem, info, info[c].root, mem[t][i])
    && info[c].parent == info[c].root
       else info[c].root == info[t].root && info[c].parent == t
  }

  ghost predicate TableOk(mem: Mem, info: map<int, Node>, t: int)
    requires t in mem && t in info
  {
    && PageAddr(t) && |mem[t]| == ENTRIES && info[t].level <= 3
    && (info[t].level == 3 ==> info[t] == Node(t, 3, 0, 0))
    && (forall i :: 0 <= i < ENTRIES ==> mem[t][i] >= 0)
    && (info[t].level > 0 ==>
          forall i {:trigger ChildOk(mem, info, t, i)} {:trigger mem[t][i]} ::
            0 <= i < ENTRIES && Present(mem[t][i]) ==> ChildOk(mem, info, t, i))
  }

  /** Every table is where `info` says, and its entries lead to the tables below it. */
  ghost predicate Wf(mem: Mem, info: map<int, Node>) {
    mem.Keys == info.Keys && forall t :: t in mem ==> TableOk(mem, info, t)
  }

  /** No table is lost: each hangs below the root of its address space. */
  ghost predicate AllLinked(mem: Mem, info: map<int, Node>) {
    forall t :: t in info && info[t].level < 3 ==> Linked(mem, info, t)
  }

  /** The root that the tables on the way to page w below t belong to. */
  ghost function PartRoot(mem: Mem, info: map<int, Node>, t: int, level: nat, w: int): int
    requires t in info
  {
    var i := Shift(w, level) % ENTRIES;
    if level == 3 && i == KSLOT && t in mem && |mem[t]| == ENTRIES &&
    Ppn(mem[t][i]) in info then info[Ppn(mem[t][i])].root
    else info[t].root
  }

  /** A walk ends in the table for the bits above the last index. */
  lemma {:induction false} LeafPlace(mem: Mem, info: map<int, Node>, t: int, level: nat, w: int)
    requires Wf(mem, info) && t in mem && w >= 0
    requires info[t].level == level && info[t].prefix == Shift(w, level + 1)
    ensures LeafBelow(mem, t, level, w).Some? ==>
      var u := LeafBelow(mem, t, level, w).value;
      u in mem && info[u].root == PartRoot(mem, info, t, level, w) && info[u].level == 0 &&
      info[u].prefix == Shift(w, 1)
    ensures LeafBelow(mem, t, level, w).None? ==> EntryBelow(mem, t, level, w) == 0
    ensures LeafBelow(mem, t, level, w).Some? ==>
      EntryBelow(mem, t, level, w) == mem[LeafBelow(mem, t, level, w).value][w % ENTRIES]
    decreases level
  {
    assert TableOk(mem, info, t);
    var i := Shift(w, level) % ENTRIES;
    ShiftNat(w, level);
    if level > 0 && Present(mem[t][i]) {
      assert ChildOk(mem, info, t, i);
      assert info[Ppn(mem[t][i])].prefix == Shift(w, level) / ENTRIES * ENTRIES + i == Shift(w, level);
      LeafPlace(mem, info, Ppn(mem[t][i]), level - 1, w);
    }
  }

  lemma ShiftNat(w: int, level: nat)
    requires w >= 0
    ensures Shift(w, level) >= 0
  {
  }

  // ---------------------------------------------------------------- one table added

  function Zeros(): seq<int> { seq(ENTRIES, _ => 0) }

  /** find_pte links a zeroed page c into slot i of table t. */
  function Link(mem: Mem, t: int, i: int, c: int): Mem
    requires t in mem && 0 <= i < |mem[t]|
  {
    mem[t := mem[t][i := c + PTE_P + PTE_W + PTE_U]][c := Zeros()]
  }

  ghost predicate CanLink(mem: Mem, info: map<int, Node>, t: int, i: int, c: int) {
    && Wf(mem, info) && t in mem && 0 <= i < ENTRIES && info[t].level > 0
    && |mem[t]| == ENTRIES && !Present(mem[t][i]) && c !in mem && PageAddr(c)
  }

  function LinkInfo(info: map<int, Node>, t: int, i: int, c: int): map<int, Node>
    requires t in info && info[t].level > 0
  {
    info[c := Node(info[t].root, info[t].level - 1, info[t].prefix * ENTRIES + i, t)]
  }

  lemma PpnOfTable(c: int)
    requires PageAddr(c)
    ensures Ppn(c + PTE_P + PTE_W + PTE_U) == c && Present(c + PTE_P + PTE_W + PTE_U)
  {
    var q := c / PG;
    assert c == 4096 * q && q < 0x80_0000_0000;
    assert c + 7 == 2 * (2048 * q + 3) + 1;
    assert (c + 7) / PG == q;
  }

  lemma LinkWf(mem: Mem, info: map<int, Node>, t: int, i: int, c: int)
    requires CanLink(mem, info, t, i, c)
    ensures Wf(Link(mem, t, i, c), LinkInfo(info, t, i, c))
  {
    PpnOfTable(c);
    var mem', info' := Link(mem, t, i, c), LinkInfo(info, t, i, c);
    forall u | u in mem' ensures TableOk(mem', info', u) {
      if u != c {
        assert TableOk(mem, info, u);
        forall k | info'[u].level > 0 && 0 <= k < ENTRIES && Present(mem'[u][k]) ensures ChildOk(mem', info', u, k) {
          if u != t || k != i { assert ChildOk(mem, info, u, k); }
        }
      }
    }
  }

  lemma LinkLinked(mem: Mem, info: map<int, Node>, t: int, i: int, c: int)
    requires CanLink(mem, info, t, i, c) && AllLinked(mem, info)
    ensures AllLinked(Link(mem, t, i, c), LinkInfo(info, t, i, c))
  {
    PpnOfTable(c);
    var mem', info' := Link(mem, t, i, c), LinkInfo(info, t, i, c);
    forall u | u in info' && info'[u].level < 3 ensures Linked(mem', info', u) {
      if u == c {
        assert info'[c].prefix % ENTRIES == i;
      } else {
        assert Linked(mem, info, u);
      }
    }
  }

  lemma WriteLinked(mem: Mem, info: map<int, Node>, t: int, i: int, e: int)
    requires AllLinked(mem, info) && t in mem && t in info && info[t].level == 0 && 0 <= i < |mem[t]|
    ensures AllLinked(Write(mem, t, i, e), info)
  {
    forall u | u in info && info[u].level < 3 ensures Linked(Write(mem, t, i, e), info, u) {
      assert Linked(mem, info, u);
    }
  }

  lemma {:induction false} LinkBelow(mem: Mem, info: map<int, Node>, t: int, i: int, c: int, u: int, level: nat, w: int)
    requires CanLink(mem, info, t, i, c) && u in mem && info[u].level == level
    ensures EntryBelow(Link(mem, t, i, c), u, level, w) == EntryBelow(mem, u, level, w)
    decreases level
  {
    PpnOfTable(c);
    assert TableOk(mem, info, u);
    var mem', k := Link(mem, t, i, c), Shift(w, level) % ENTRIES;
    if level > 0 {
      if u == t && k == i {
        assert EntryBelow(mem', c, level - 1, w) == 0;
      } else if Present(mem[u][k]) {
        assert ChildOk(mem, info, u, k);
        LinkBelow(mem, info, t, i, c, Ppn(mem[u][k]), level - 1, w);
      }
    }
  }

  // ---------------------------------------------------------------- one entry written

  function Write(mem: Mem, t: int, i: int, e: int): Mem
    requires t in mem && 0 <= i < |mem[t]|
  {
    mem[t := mem[t][i := e]]
  }

  lemma WriteWf(mem: Mem, info: map<int, Node>, t: int, i: int, e: int)
    requires Wf(mem, info) && t in mem && info[t].level == 0 && 0 <= i < ENTRIES && |mem[t]| == ENTRIES && e >= 0
    ensures Wf(Write(mem, t, i, e), info)
  {
    var mem' := Write(mem, t, i, e);
    forall u | u in mem' ensures TableOk(mem', info, u) {
      assert TableOk(mem, info, u);
      forall k | info[u].level > 0 && 0 <= k < ENTRIES && Present(mem'[u][k]) ensures ChildOk(mem', info, u, k) {
        assert ChildOk(mem, info, u, k);
      }
    }
  }

  lemma {:induction false} WriteBelow(mem: Mem, info: map<int, Node>, t: int, i: int, e: int, u: int, level: nat,
                                      w: int)
    requires Wf(mem, info) && t in mem && info[t].level == 0 && 0 <= i < ENTRIES && |mem[t]| == ENTRIES
    requires u in mem && info[u].level == level
    ensures EntryBelow(Write(mem, t, i, e), u, level, w) ==
      if LeafBelow(mem, u, level, w) == Some(t) && w % ENTRIES == i then e else EntryBelow(mem, u, level, w)
    decreases level
  {
    assert TableOk(mem, info, u);
    var k := Shift(w, level) % ENTRIES;
    if level > 0 && Present(mem[u][k]) {
      assert ChildOk(mem, info, u, k);
      WriteBelow(mem, info, t, i, e, Ppn(mem[u][k]), level - 1, w);
    }
  }

  ghost predicate IsRoot(mem: Mem, info: map<int, Node>, r: int) {
    r in mem && r in info && info[r].level == 3
  }

  /** Page x has one and the same entry in both address spaces. */
  predicate Together(mem: Mem, r: int, root: int, x: int) {
    r == root ||
      (&& Shift(x, 3) == KSLOT && r in mem && root in mem && |mem[r]| == ENTRIES && |mem[root]| == ENTRIES
       && Present(mem[r][KSLOT]) && Present(mem[root][KSLOT]) && Ppn(mem[r][KSLOT]) == Ppn(mem[root][KSLOT]))
  }

  lemma TopSlotOf(x: int)
    requires 0 <= x < VPNS
    ensures 0 <= Shift(x, 3) < ENTRIES && Shift(x, 3) % ENTRIES == Shift(x, 3)
  {
    TopPrefix(x);
    ShiftNat(x, 3);
  }

  /** Two walks for the same page end in the same table exactly if the page is shared. */
  lemma SameLeaf(mem: Mem, info: map<int, Node>, root: int, r: int, w: int)
    requires Wf(mem, info) && IsRoot(mem, info, root) && IsRoot(mem, info, r) && 0 <= w < VPNS
    requires LeafBelow(mem, root, 3, w).Some?
    ensures LeafBelow(mem, r, 3, w) == LeafBelow(mem, root, 3, w) <==> Together(mem, r, root, w)
  {
    TopPrefix(w);
    TopSlotOf(w);
    assert TableOk(mem, info, root) && TableOk(mem, info, r);
    LeafPlace(mem, info, root, 3, w);
    LeafPlace(mem, info, r, 3, w);
    var i := Shift(w, 3);
    assert ChildOk(mem, info, root, i);
    if LeafBelow(mem, r, 3, w).Some? {
      assert ChildOk(mem, info, r, i);
    }
  }

  /** Writing the slot that the walk for page w finds changes the flat table at w, there and in
      the address spaces that share it. */
  lemma WriteEntry(mem: Mem, info: map<int, Node>, root: int, w: int, t: int, e: int, r: int, x: int)
    requires Wf(mem, info) && IsRoot(mem, info, root) && 0 <= w < VPNS && e >= 0
    requires LeafBelow(mem, root, 3, w) == Some(t)
    requires IsRoot(mem, info, r) && 0 <= x < VPNS
    ensures t in mem && |mem[t]| == ENTRIES
    ensures Entry(Write(mem, t, w % ENTRIES, e), r, x) ==
      if x == w && Together(mem, r, root, x) then e else Entry(mem, r, x)
  {
    TopPrefix(w);
    TopPrefix(x);
    assert TableOk(mem, info, root) && TableOk(mem, info, r);
    LeafPlace(mem, info, root, 3, w);
    LeafPlace(mem, info, r, 3, x);
    assert TableOk(mem, info, t);
    WriteBelow(mem, info, t, w % ENTRIES, e, r, 3, x);
    assert Shift(x, 1) == x / ENTRIES && Shift(w, 1) == w / ENTRIES;
    SameLeaf(mem, info, root, r, w);
  }

  lemma TopPrefix(w: int)
    requires 0 <= w < VPNS
    ensures Shift(w, 4) == 0
  {
    assert Shift(w, 1) == w / 512;
    assert Shift(w, 2) == w / 512 / 512;
    assert Shift(w, 3) == w / 512 / 512 / 512;
  }

  // ---------------------------------------------------------------- the kernel's walks

  /** What a caller of the page tables can observe. */
  ghost predicate SameEntries(mem: Mem, info: map<int, Node>, mem': Mem) {
    SameSharing(mem, info, mem') &&
    forall r, x :: IsRoot(mem, info, r) && 0 <= x < VPNS ==> Entry(mem', r, x) == Entry(mem, r, x)
  }

  /** The same pages are shared between address spaces. */
  ghost predicate SameSharing(mem: Mem, info: map<int, Node>, mem': Mem) {
    forall r, root, x {:trigger Together(mem', r, root, x)} ::
      IsRoot(mem, info, r) && IsRoot(mem, info, root) ==> (Together(mem', r, root, x) <==> Together(mem, r, root, x))
  }

  /** A new table is shared by no one. */
  lemma LinkSharing(mem: Mem, info: map<int, Node>, t: int, i: int, c: int)
    requires CanLink(mem, info, t, i, c)
    ensures SameSharing(mem, info, Link(mem, t, i, c))
  {
    PpnOfTable(c);
    var mem' := Link(mem, t, i, c);
    forall r, root, x | IsRoot(mem, info, r) && IsRoot(mem, info, root)
      ensures Together(mem', r, root, x) <==> Together(mem, r, root, x)
    {
      assert TableOk(mem, info, r) && TableOk(mem, info, root);
      if r != root && i == KSLOT && (r == t || root == t) {
        var o := if r == t then root else r;
        assert Present(mem[o][KSLOT]) ==> ChildOk(mem, info, o, KSLOT);
      }
    }
  }

  lemma WriteSharing(mem: Mem, info: map<int, Node>, t: int, i: int, e: int)
    requires t in mem && t in info && info[t].level == 0 && 0 <= i < |mem[t]|
    ensures SameSharing(mem, info, Write(mem, t, i, e))
  {
  }

  /** Table u is where it was, and its present entries are as they were. */
  ghost predicate KeptTable(mem: Mem, info: map<int, Node>, mem': Mem, info': map<int, Node>, u: int) {
    u in mem && u in info ==>
      && u in mem' && u in info' && info'[u] == info[u] && |mem'[u]| == |mem[u]|
      && forall i :: 0 <= i < |mem[u]| && Present(mem[u][i]) ==> mem'[u][i] == mem[u][i]
  }

  /** Empty tables may have been added. */
  ghost predicate Grew(mem: Mem, info: map<int, Node>, mem': Mem, info': map<int, Node>) {
    SameEntries(mem, info, mem') &&
    forall u {:trigger KeptTable(mem, info, mem', info', u)} :: KeptTable(mem, info, mem', info', u)
  }

  lemma GrewSame(mem: Mem, info: map<int, Node>)
    ensures Grew(mem, info, mem, info)
  {
  }

  lemma GrewTwice(mem: Mem, info: map<int, Node>, mem1: Mem, info1: map<int, Node>, mem2: Mem, info2: map<int, Node>)
    requires Grew(mem, info, mem1, info1) && Grew(mem1, info1, mem2, info2)
    ensures Grew(mem, info, mem2, info2)
  {
    forall r | IsRoot(mem, info, r) ensures IsRoot(mem1, info1, r) { assert KeptTable(mem, info, mem1, info1, r); }
    forall r, root, x | IsRoot(mem, info, r) && IsRoot(mem, info, root)
      ensures Together(mem2, r, root, x) <==> Together(mem, r, root, x)
    {
      assert Together(mem1, r, root, x) <==> Together(mem, r, root, x);
    }
    forall u ensures KeptTable(mem, info, mem2, info2, u) {
      assert KeptTable(mem, info, mem1, info1, u) && KeptTable(mem1, info1, mem2, info2, u);
    }
  }

  lemma GrewRoots(mem: Mem, info: map<int, Node>, mem': Mem, info': map<int, Node>)
    requires Grew(mem, info, mem', info')
    ensures forall r :: IsRoot(mem, info, r) ==> IsRoot(mem', info', r)
  {
    forall r | IsRoot(mem, info, r) ensures IsRoot(mem', info', r) { assert KeptTable(mem, info, mem', info', r); }
  }

  lemma LinkGrew(mem: Mem, info: map<int, Node>, t: int, i: int, c: int)
    requires CanLink(mem, info, t, i, c)
    ensures Grew(mem, info, Link(mem, t, i, c), LinkInfo(info, t, i, c))
  {
    LinkSharing(mem, info, t, i, c);
    forall r, x | IsRoot(mem, info, r) && 0 <= x < VPNS ensures Entry(Link(mem, t, i, c), r, x) == Entry(mem, r, x) {
      LinkBelow(mem, info, t, i, c, r, 3, x);
    }
  }

  /** Entry i of table t leads to table c. */
  ghost predicate Leads(mem: Mem, t: int, i: int, c: int) {
    t in mem && |mem[t]| == ENTRIES && 0 <= i < ENTRIES && Present(mem[t][i]) && Ppn(mem[t][i]) == c
  }

  /** Entry i of table t leads nowhere. */
  ghost predicate Ends(mem: Mem, t: int, i: int) {
    t in mem && |mem[t]| == ENTRIES && 0 <= i < ENTRIES && !Present(mem[t][i])
  }

  lemma LeadsStill(mem: Mem, info: map<int, Node>, mem': Mem, info': map<int, Node>, t: int, i: int, c: int)
    requires Grew(mem, info, mem', info') && t in info && Leads(mem, t, i, c)
    ensures Leads(mem', t, i, c) && t in info'
  {
    assert KeptTable(mem, info, mem', info', t);
  }

  lemma LeafOn(mem: Mem, t: int, level: nat, w: int, c: int)
    requires level > 0 && Leads(mem, t, Shift(w, level) % ENTRIES, c)
    ensures LeafBelow(mem, t, level, w) == LeafBelow(mem, c, level - 1, w)
  {
  }

  lemma NoLeaf(mem: Mem, t: int, level: nat, w: int)
    requires level > 0 && Ends(mem, t, Shift(w, level) % ENTRIES)
    ensures LeafBelow(mem, t, level, w) == None
  {
  }

  lemma LeafEnds(mem: Mem, info: map<int, Node>, t: int, w: int)
    requires Wf(mem, info) && t in mem
    ensures LeafBelow(mem, t, 0, w) == Some(t)
  {
    assert TableOk(mem, info, t);
  }

  class Vpmaps {
    var mem: Mem
    var spare: seq<int>             // the pages `pmem_alloc` will return, in order
    ghost var info: map<int, Node>

    ghost predicate Valid()
      reads this
    {
      && Wf(mem, info) && AllLinked(mem, info)
      && (forall k :: 0 <= k < |spare| ==> PageAddr(spare[k]) && spare[k] !in mem)
      && (forall j, k :: 0 <= j < k < |spare| ==> spare[j] != spare[k])
    }

    /** A zeroed page table page, linked where an entry is missing. */
    method AllocTable(t: int, i: int)
      requires Valid() && spare != [] && CanLink(mem, info, t, i, spare[0])
      modifies this
      ensures Valid() && SameEntries(old(mem), old(info), mem)
      ensures mem == Link(old(mem), t, i, old(spare[0])) && info == LinkInfo(old(info), t, i, old(spare[0]))
      ensures spare == old(spare)[1..]
    {
      var page := spare[0];
      LinkWf(mem, info, t, i, page);
      LinkLinked(mem, info, t, i, page);
      LinkSharing(mem, info, t, i, page);
      forall r, x | IsRoot(mem, info, r) && 0 <= x < VPNS
        ensures Entry(Link(mem, t, i, page), r, x) == Entry(mem, r, x)
      {
        LinkBelow(mem, info, t, i, page, r, 3, x);
      }
      info := LinkInfo(info, t, i, page);
      mem := Link(mem, t, i, page);
      spare := spare[1..];
    }

    /** One level of find_pte: the table an entry points to, allocated if wanted and missing. */
    method NextTable(t: int, i: int, alloc: bool) returns (c: Option<int>)
      requires Valid() && t in mem && info[t].level > 0 && 0 <= i < ENTRIES
      modifies this
      ensures Valid() && Grew(old(mem), old(info), mem, info)
      ensures c.Some? ==> Leads(mem, t, i, c.value) && t in info && c.value in mem && c.value in info
      ensures c.Some? ==> info[c.value].level == old(info[t].level) - 1
      ensures c.None? ==> mem == old(mem) && info == old(info) && Ends(mem, t, i) && (alloc ==> spare == [])
      ensures !alloc ==> mem == old(mem) && info == old(info) && spare == old(spare)
    {
      assert TableOk(mem, info, t);
      GrewSame(mem, info);
      if !Present(mem[t][i]) {
        if !alloc || spare == [] {
          return None;
        }
        PpnOfTable(spare[0]);
        LinkGrew(mem, info, t, i, spare[0]);
        AllocTable(t, i);
      }
      assert TableOk(mem, info, t) && ChildOk(mem, info, t, i);
      c := Some(Ppn(mem[t][i]));
    }

    /** find_pte: the table and index of the entry for an address. */
    method FindPte(root: int, v: int, alloc: bool) returns (slot: Option<(int, int)>)
      requires Valid() && IsRoot(mem, info, root) && 0 <= v < WORD
      modifies this
      ensures Valid() && Grew(old(mem), old(info), mem, info)
      ensures slot.Some? ==> LeafBelow(mem, root, 3, Vpn(v)) == Some(slot.value.0) && slot.value.1 == Vpn(v) % ENTRIES
      ensures slot.None? ==> (alloc ==> spare == []) && (!alloc ==> LeafBelow(mem, root, 3, Vpn(v)) == None)
      ensures !alloc ==> mem == old(mem) && info == old(info) && spare == old(spare)
    {
      hide Grew;
      hide Leads;
      hide Ends;
      hide LeafBelow;
      hide Wf;
      hide AllLinked;
      hide PML4X;
      hide PDPTX;
      hide PDX;
      hide PTX;
      IndexMacros(v);
      ghost var w, mem0, info0 := Vpn(v), mem, info;
      assert Shift(w, 0) == w;
      var pdpt := NextTable(root, PML4X(v), alloc);
      if pdpt.None? {
        NoLeaf(mem, root, 3, w);
        return None;
      }
      ghost var mem1, info1 := mem, info;
      var pgdir := NextTable(pdpt.value, PDPTX(v), alloc);
      GrewTwice(mem0, info0, mem1, info1, mem, info);
      LeadsStill(mem1, info1, mem, info, root, PML4X(v), pdpt.value);
      LeafOn(mem, root, 3, w, pdpt.value);
      if pgdir.None? {
        NoLeaf(mem, pdpt.value, 2, w);
        return None;
      }
      ghost var mem2, info2 := mem, info;
      var pgtab := NextTable(pgdir.value, PDX(v), alloc);
      GrewTwice(mem0, info0, mem2, info2, mem, info);
      LeadsStill(mem2, info2, mem, info, root, PML4X(v), pdpt.value);
      LeadsStill(mem2, info2, mem, info, pdpt.value, PDPTX(v), pgdir.value);
      LeafOn(mem, root, 3, w, pdpt.value);
      LeafOn(mem, pdpt.value, 2, w, pgdir.value);
      if pgtab.None? {
        NoLeaf(mem, pgdir.value, 1, w);
        return None;
      }
      LeafOn(mem, pgdir.value, 1, w, pgtab.value);
      LeafEnds(mem, info, pgtab.value, w);
      slot := Some((pgtab.value, PTX(v)));
    }

    /** vpmap_lookup_vaddr. */
    method LookupVaddr(root: int, v: int) returns (paddr: Option<int>)
      requires Valid() && IsRoot(mem, info, root) && 0 <= v < WORD
      modifies this
      ensures Valid() && mem == old(mem) && info == old(info) && spare == old(spare)
      ensures paddr == Translate(mem, root, v)
    {
      var slot := FindPte(root, v, false);
      IndexMacros(v);
      assert TableOk(mem, info, root);
      LeafPlace(mem, info, root, 3, Vpn(v));
      if slot.None? || !Present(mem[slot.value.0][slot.value.1]) {
        return None;
      }
      paddr := Some(Ppn(mem[slot.value.0][slot.value.1]) + (v - v / PG * PG));
    }

    /** The loop body of map_pages: page `done` of the range is mapped, or there is no table for it. */
    method MapPage(root: int, v: int, pa: int, perm: int, ghost mem0: Mem, ghost info0: map<int, Node>,
                   ghost vaddr: int, ghost paddr: int, ghost done: int) returns (ok: bool)
      requires Valid() && IsRoot(mem0, info0, root) && (forall r :: IsRoot(mem0, info0, r) ==> IsRoot(mem, info, r))
      requires 0 <= vaddr < WORD && 0 <= paddr < WORD && 0 <= done && 0 <= perm < PG
      requires v == (RoundDown(vaddr) + PG * done) % WORD && pa == (RoundDown(paddr) + PG * done) % WORD
      requires MappedTo(mem0, info0, mem, root, Vpn(vaddr), paddr, done, perm)
      modifies this
      ensures Valid() && (forall r :: old(IsRoot(mem, info, r)) ==> IsRoot(mem, info, r))
      ensures !ok ==> spare == []
      ensures MappedTo(mem0, info0, mem, root, Vpn(vaddr), paddr, if ok then done + 1 else done, perm)
    {
      var slot := FindPte(root, v, true);
      GrewRoots(old(mem), old(info), mem, info);
      GrewMapped(mem0, info0, old(mem), old(info), mem, root, Vpn(vaddr), paddr, done, perm);
      if slot.None? {
        return false;
      }
      ghost var mem1, info1 := mem, info;
      StoreAt(root, v, slot.value, Ppn(pa) + PTE_P + perm);
      MappedStep(mem0, info0, mem1, info1, mem, root, vaddr, paddr, done, perm);
      ok := true;
    }

    /**
    map_pages. The pages from `vaddr` on are mapped in order; the range may run through the
    end of the address space to address 0. An entry that is not among the first `done` pages,
    in this or any other address space, stays as it was. Only when the page table pages run
    out does the mapping stop early.
     */
    method MapPages(root: int, vaddr: int, paddr: int, size: int, perm: int) returns (ok: bool, ghost done: int)
      requires Valid() && IsRoot(mem, info, root)
      requires 0 <= vaddr < WORD && 0 <= paddr < WORD && 0 <= size < WORD && 0 <= perm < PG
      modifies this
      ensures Valid() && (forall r :: old(IsRoot(mem, info, r)) ==> IsRoot(mem, info, r))
      ensures 0 <= done <= RangePages(vaddr, size) && (ok <==> done == RangePages(vaddr, size))
      ensures !ok ==> spare == []
      ensures MappedTo(old(mem), old(info), mem, root, Vpn(vaddr), paddr, done, perm)
    {
      var v, vend, pa := RoundDown(vaddr), RoundDown((vaddr + size) % WORD), RoundDown(paddr);
      ghost var n := RangePages(vaddr, size);
      done := 0;
      RangeEnds(vaddr, size, 0);
      while v != vend
        invariant Valid() && (forall r :: old(IsRoot(mem, info, r)) ==> IsRoot(mem, info, r))
        invariant 0 <= done <= n && (v == vend <==> done == n)
        invariant v == (RoundDown(vaddr) + PG * done) % WORD && pa == (RoundDown(paddr) + PG * done) % WORD
        invariant MappedTo(old(mem), old(info), mem, root, Vpn(vaddr), paddr, done, perm)
        decreases n - done
      {
        var mapped := MapPage(root, v, pa, perm, old(mem), old(info), vaddr, paddr, done);
        if !mapped {
          return false, done;
        }
        RangeEnds(vaddr, size, done + 1);
        NextPage(vaddr, done);
        NextPage(paddr, done);
        v, pa, done := (v + PG) % WORD, (pa + PG) % WORD, done + 1;
      }
      ok := true;
    }

    /** vpmap_map of n pages; the size in bytes wraps at 64 bits. */
    method VpmapMap(root: int, vaddr: int, paddr: int, n: int, perm: MemPerm) returns (ok: bool, ghost done: int)
      requires Valid() && IsRoot(mem, info, root)
      requires 0 <= vaddr < WORD && 0 <= paddr < WORD && 0 <= n < WORD
      modifies this
      ensures Valid() && (forall r :: old(IsRoot(mem, info, r)) ==> IsRoot(mem, info, r))
      ensures 0 <= done <= n % PAGES && (ok <==> done == n % PAGES) && (!ok ==> spare == [])
      ensures MappedTo(old(mem), old(info), mem, root, Vpn(vaddr), RoundDown(paddr), done, perm.Bits())
    {
      if n == 0 {
        return true, 0;
      }
      SizePages(vaddr, n);
      Rounded(vaddr);
      Rounded(paddr);
      ok, done := MapPages(root, RoundDown(vaddr), RoundDown(paddr), n * PG % WORD, perm.Bits());
    }

    /** vpmap_create: a zeroed root, if there is a page for it. */
    method VpmapCreate() returns (root: Option<int>)
      requires Valid()
      modifies this
      ensures Valid() && SameEntries(old(mem), old(info), mem)
      ensures forall r :: old(IsRoot(mem, info, r)) ==> IsRoot(mem, info, r)
      ensures root.None? <==> old(spare) == []
      ensures root.Some? ==>
        !old(IsRoot(mem, info, root.value)) && IsRoot(mem, info, root.value) && mem[root.value] == Zeros()
    {
      if spare == [] {
        return None;
      }
      var page := spare[0];
      RootAdds(mem, info, page);
      RootSame(mem, info, page);
      info := info[page := Node(page, 3, 0, 0)];
      mem := mem[page := Zeros()];
      spare := spare[1..];
      root := Some(page);
    }

    /**
    vpmap_copy_kernel_mapping into a new address space: the kernel's part of it is the kernel's
    own, entry for entry and from then on, and nothing else changes.
     */
    method VpmapCopyKernelMapping(kvpmap: int, root: int)
      requires Valid() && IsRoot(mem, info, kvpmap) && IsRoot(mem, info, root) && root != kvpmap
      requires |mem[root]| == ENTRIES && !Present(mem[root][KSLOT])
      modifies this`mem
      ensures Valid() && forall r :: old(IsRoot(mem, info, r)) ==> IsRoot(mem, info, r)
      ensures forall r, x :: IsRoot(mem, info, r) && 0 <= x < VPNS ==>
        Entry(mem, r, x) ==
          if r == root && Shift(x, 3) == KSLOT then old(Entry(mem, kvpmap, x)) else old(Entry(mem, r, x))
      ensures Present(old(mem)[kvpmap][KSLOT]) ==> forall x :: Shift(x, 3) == KSLOT ==> Together(mem, root, kvpmap, x)
    {
      assert TableOk(mem, info, kvpmap);
      for pml4x := PML4X(KMAP_BASE) to ENTRIES
        invariant pml4x == KSLOT ==> mem == old(mem)
        invariant pml4x == ENTRIES ==>
          mem == if Present(old(mem)[kvpmap][KSLOT]) then ShareKernel(old(mem), kvpmap, root) else old(mem)
      {
        if Present(mem[kvpmap][pml4x]) {
          mem := mem[root := mem[root][pml4x := mem[kvpmap][pml4x]]];
        }
      }
      if Present(old(mem)[kvpmap][KSLOT]) {
        ShareWf(old(mem), info, kvpmap, root);
        ShareLinked(old(mem), info, kvpmap, root);
      }
      forall r, x | IsRoot(mem, info, r) && 0 <= x < VPNS
        ensures Entry(mem, r, x) ==
          if r == root && Shift(x, 3) == KSLOT then old(Entry(mem, kvpmap, x)) else old(Entry(mem, r, x))
      {
        ShareEntry(old(mem), info, kvpmap, root, r, x);
      }
    }

    /** The store through the pointer find_pte returned. */
    method StoreAt(root: int, v: int, slot: (int, int), e: int)
      requires Valid() && IsRoot(mem, info, root) && 0 <= v < WORD && e >= 0
      requires LeafBelow(mem, root, 3, Vpn(v)) == Some(slot.0) && slot.1 == Vpn(v) % ENTRIES
      modifies this`mem
      ensures Valid()
      ensures forall r :: old(IsRoot(mem, info, r)) ==> IsRoot(mem, info, r)
      ensures WrittenAt(old(mem), info, mem, root, Vpn(v), e)
    {
      IndexMacros(v);
      ghost var mem0, w := mem, Vpn(v);
      WriteEntry(mem, info, root, w, slot.0, e, root, w);
      forall r, x | IsRoot(mem0, info, r) && 0 <= x < VPNS
        ensures Entry(Write(mem0, slot.0, slot.1, e), r, x) ==
          if x == w && Together(mem0, r, root, x) then e else Entry(mem0, r, x)
      {
        WriteEntry(mem0, info, root, w, slot.0, e, r, x);
      }
      assert TableOk(mem, info, root);
      LeafPlace(mem, info, root, 3, w);
      WriteWf(mem, info, slot.0, slot.1, e);
      WriteLinked(mem, info, slot.0, slot.1, e);
      WriteSharing(mem, info, slot.0, slot.1, e);
      mem := Write(mem, slot.0, slot.1, e);
    }
  }

  // ---------------------------------------------------------------- new address spaces

  lemma RootAdds(mem: Mem, info: map<int, Node>, page: int)
    requires Wf(mem, info) && AllLinked(mem, info) && PageAddr(page) && page !in mem
    ensures Wf(mem[page := Zeros()], info[page := Node(page, 3, 0, 0)])
    ensures AllLinked(mem[page := Zeros()], info[page := Node(page, 3, 0, 0)])
  {
    var mem', info' := mem[page := Zeros()], info[page := Node(page, 3, 0, 0)];
    forall u | u in mem' ensures TableOk(mem', info', u) {
      if u != page {
        assert TableOk(mem, info, u);
        forall k | info[u].level > 0 && 0 <= k < ENTRIES && Present(mem[u][k]) ensures ChildOk(mem', info', u, k) {
          assert ChildOk(mem, info, u, k);
        }
      }
    }
    forall u | u in info' && info'[u].level < 3 ensures Linked(mem', info', u) { assert Linked(mem, info, u); }
  }

  lemma {:induction false} RootBelow(mem: Mem, info: map<int, Node>, page: int, u: int, level: nat, w: int)
    requires Wf(mem, info) && page !in mem && u in mem && info[u].level == level
    ensures EntryBelow(mem[page := Zeros()], u, level, w) == EntryBelow(mem, u, level, w)
    decreases level
  {
    assert TableOk(mem, info, u);
    var k := Shift(w, level) % ENTRIES;
    if level > 0 && Present(mem[u][k]) {
      assert ChildOk(mem, info, u, k);
      RootBelow(mem, info, page, Ppn(mem[u][k]), level - 1, w);
    }
  }

  lemma RootSame(mem: Mem, info: map<int, Node>, page: int)
    requires Wf(mem, info) && page !in mem
    ensures SameEntries(mem, info, mem[page := Zeros()])
  {
    forall r, x | IsRoot(mem, info, r) && 0 <= x < VPNS ensures Entry(mem[page := Zeros()], r, x) == Entry(mem, r, x) {
      RootBelow(mem, info, page, r, 3, x);
    }
  }

  /** The kernel's entry is copied to another root. */
  function ShareKernel(mem: Mem, kvpmap: int, root: int): Mem
    requires kvpmap in mem && root in mem && |mem[kvpmap]| == ENTRIES && |mem[root]| == ENTRIES
  {
    mem[root := mem[root][KSLOT := mem[kvpmap][KSLOT]]]
  }

  ghost predicate CanShare(mem: Mem, info: map<int, Node>, kvpmap: int, root: int) {
    && Wf(mem, info) && IsRoot(mem, info, kvpmap) && IsRoot(mem, info, root) && root != kvpmap
    && |mem[root]| == ENTRIES && |mem[kvpmap]| == ENTRIES && !Present(mem[root][KSLOT])
  }

  lemma ShareWf(mem: Mem, info: map<int, Node>, kvpmap: int, root: int)
    requires CanShare(mem, info, kvpmap, root) && Present(mem[kvpmap][KSLOT])
    ensures Wf(ShareKernel(mem, kvpmap, root), info)
  {
    var mem' := ShareKernel(mem, kvpmap, root);
    assert TableOk(mem, info, kvpmap) && ChildOk(mem, info, kvpmap, KSLOT);
    forall u | u in mem' ensures TableOk(mem', info, u) {
      assert TableOk(mem, info, u);
      forall k | info[u].level > 0 && 0 <= k < ENTRIES && Present(mem'[u][k]) ensures ChildOk(mem', info, u, k) {
        if u != root || k != KSLOT { assert ChildOk(mem, info, u, k); }
      }
    }
  }

  lemma ShareLinked(mem: Mem, info: map<int, Node>, kvpmap: int, root: int)
    requires CanShare(mem, info, kvpmap, root) && AllLinked(mem, info)
    ensures AllLinked(ShareKernel(mem, kvpmap, root), info)
  {
    forall u | u in info && info[u].level < 3 ensures Linked(ShareKernel(mem, kvpmap, root), info, u) {
      assert Linked(mem, info, u);
    }
  }

  /** Tables below the root do not see the change. */
  lemma {:induction false} ShareBelow(mem: Mem, info: map<int, Node>, kvpmap: int, root: int, u: int, level: nat,
                                      w: int)
    requires CanShare(mem, info, kvpmap, root) && u in mem && info[u].level == level < 3
    ensures EntryBelow(ShareKernel(mem, kvpmap, root), u, level, w) == EntryBelow(mem, u, level, w)
    decreases level
  {
    assert TableOk(mem, info, u);
    var k := Shift(w, level) % ENTRIES;
    if level > 0 && Present(mem[u][k]) {
      assert ChildOk(mem, info, u, k);
      ShareBelow(mem, info, kvpmap, root, Ppn(mem[u][k]), level - 1, w);
    }
  }

  lemma ShareEntry(mem: Mem, info: map<int, Node>, kvpmap: int, root: int, r: int, x: int)
    requires CanShare(mem, info, kvpmap, root) && IsRoot(mem, info, r) && 0 <= x < VPNS
    ensures Present(mem[kvpmap][KSLOT]) ==>
      Entry(ShareKernel(mem, kvpmap, root), r, x) ==
        if r == root && Shift(x, 3) == KSLOT then Entry(mem, kvpmap, x) else Entry(mem, r, x)
    ensures !Present(mem[kvpmap][KSLOT]) && Shift(x, 3) == KSLOT ==> Entry(mem, kvpmap, x) == Entry(mem, root, x)
  {
    TopSlotOf(x);
    assert TableOk(mem, info, r) && TableOk(mem, info, kvpmap) && TableOk(mem, info, root);
    var i := Shift(x, 3);
    var from := if r == root && i == KSLOT then kvpmap else r;
    if Present(mem[from][i]) {
      assert ChildOk(mem, info, from, i);
      ShareBelow(mem, info, kvpmap, root, Ppn(mem[from][i]), 2, x);
    }
  }

  /** memperm_to_pteperm. */
  datatype MemPerm = R | RW | UR | URW {
    function Bits(): int {
      match this
      case R => 0
      case RW => PTE_W
      case UR => PTE_U
      case URW => PTE_U + PTE_W
    }
  }

  /** The translation the hardware and `vpmap_lookup_vaddr` make. */
  function Translate(mem: Mem, root: int, v: int): Option<int> {
    var e := Entry(mem, root, Vpn(v));
    if Present(e) then Some(Ppn(e) + v % PG) else None
  }

  function RoundDown(a: int): int { a / PG * PG }

  /** The number of pages `map_pages` visits. */
  function RangePages(vaddr: int, size: int): int {
    (RoundDown((vaddr + size) % WORD) - RoundDown(vaddr)) % WORD / PG
  }

  /** Of the first n pages of a range, the last one that falls on the page at distance j. */
  function LastIndex(n: int, j: int): int { n - 1 - (n - 1 - j) % VPNS }

  /** The entry of page x after the first n pages from page w0 on were mapped to paddr on. */
  function MapSpec(before: int, w0: int, paddr: int, n: int, perm: int, x: int): int {
    var j := (x - w0) % VPNS;
    if j < n then Ppn(paddr + PG * LastIndex(n, j)) + PTE_P + perm else before
  }

  /** Page x is the n-th after w0 exactly if its distance differs from n by whole turns. */
  lemma Turns(x: int, w0: int, n: int)
    requires 0 <= x < VPNS
    ensures x == (w0 + n) % VPNS <==> (n - (x - w0) % VPNS) % VPNS == 0
  {
    var j := (x - w0) % VPNS;
    ModAdd(x - w0, w0, VPNS);
    DivUnique(x, VPNS, 0, x);
    assert (j + w0) % VPNS == x;
    ModAdd(w0 + n, -(j + w0), VPNS);
    ModAdd(n - j, j + w0, VPNS);
    ModAdd(j + w0, -(j + w0), VPNS);
  }

  lemma OneLess(m: int)
    ensures m % VPNS != 0 ==> (m - 1) % VPNS == m % VPNS - 1
  {
    if m % VPNS != 0 { DivUnique(m - 1, VPNS, m / VPNS, m % VPNS - 1); }
  }

  lemma SpecStep(before: int, w0: int, paddr: int, n: int, perm: int, x: int)
    requires 0 <= x < VPNS && 0 <= w0 < VPNS && n >= 0
    ensures MapSpec(before, w0, paddr, n + 1, perm, x) ==
      if x == (w0 + n) % VPNS then Ppn(paddr + PG * n) + PTE_P + perm else MapSpec(before, w0, paddr, n, perm, x)
  {
    hide Ppn;
    var j := (x - w0) % VPNS;
    Turns(x, w0, n);
    OneLess(n - j);
    assert j == n ==> (n - j) % VPNS == 0;
    if x == (w0 + n) % VPNS {
      AtDistance(n, j);
    } else {
      assert LastIndex(n + 1, j) == LastIndex(n, j);
    }
  }

  lemma AtDistance(n: int, j: int)
    requires n >= 0 && 0 <= j < VPNS && (n - j) % VPNS == 0
    ensures j <= n && LastIndex(n + 1, j) == n
  {
    if n < j { DivUnique(n - j, VPNS, -1, n - j + VPNS); }
  }

  // ---------------------------------------------------------------- page arithmetic

  const PAGES := 0x10_0000_0000_0000   // 2^52 pages of 64-bit addresses

  lemma WrapPages(q: int)
    ensures (PG * q) % WORD == PG * (q % PAGES)
  {
    DivUnique(PG * q, PG, q, 0);
    DivDiv(PG * q, PG, PAGES);
  }

  lemma PpnPage(m: int, r: int)
    requires 0 <= r < PG
    ensures Ppn(PG * m + r) == PG * (m % 0x80_0000_0000)
  {
    DivUnique(PG * m + r, PG, m, r);
    DropLow(PG * m + r, PG, 0x80_0000_0000);
  }

  lemma WrapTwice(m: int)
    ensures m % PAGES % VPNS == m % VPNS && m % PAGES % 0x80_0000_0000 == m % 0x80_0000_0000
  {
    DropLow(m, VPNS, 0x1_0000);
    DropLow(m, 0x80_0000_0000, 0x2000);
  }

  /** Page number and frame of the page the loop is at. */
  lemma StepVpn(vaddr: int, n: int)
    requires 0 <= vaddr < WORD && n >= 0
    ensures Vpn((RoundDown(vaddr) + PG * n) % WORD) == (Vpn(vaddr) + n) % VPNS
  {
    var q := vaddr / PG;
    assert RoundDown(vaddr) + PG * n == PG * (q + n);
    WrapPages(q + n);
    WrapTwice(q + n);
    DivUnique(PG * ((q + n) % PAGES), PG, (q + n) % PAGES, 0);
    ModAdd(q, n, VPNS);
  }

  lemma StepPpn(paddr: int, n: int)
    requires 0 <= paddr < WORD && n >= 0
    ensures Ppn((RoundDown(paddr) + PG * n) % WORD) == Ppn(paddr + PG * n)
  {
    var m := paddr / PG;
    WrapPages(m + n);
    WrapTwice(m + n);
    PpnPage(m + n, paddr % PG);
    PpnPage((m + n) % PAGES, 0);
  }

  lemma Rounded(a: int)
    requires 0 <= a < WORD
    ensures 0 <= RoundDown(a) < WORD && RoundDown(RoundDown(a)) == RoundDown(a) && Vpn(RoundDown(a)) == Vpn(a)
  {
    DivUnique(PG * (a / PG), PG, a / PG, 0);
  }

  lemma SizePages(vaddr: int, n: int)
    requires 0 <= vaddr < WORD && n >= 0
    ensures RangePages(RoundDown(vaddr), n * PG % WORD) == n % PAGES
  {
    var a, k := vaddr / PG, n % PAGES;
    var b := (a + k) % PAGES;
    Rounded(vaddr);
    WrapPages(n);
    WrapPages(a + k);
    WrapPages(b - a);
    WrapAround(a, b, k, PAGES);
    assert RoundDown(vaddr) + n * PG % WORD == PG * (a + k);
    DivUnique(PG * b, PG, b, 0);
    DivUnique(PG * ((b - a) % PAGES), PG, (b - a) % PAGES, 0);
  }

  lemma NextPage(a: int, n: int)
    requires a >= 0 && n >= 0
    ensures ((RoundDown(a) + PG * n) % WORD + PG) % WORD == (RoundDown(a) + PG * (n + 1)) % WORD
  {
    var q := a / PG;
    WrapPages(q + n);
    WrapPages(q + n + 1);
    WrapPages((q + n) % PAGES + 1);
    ModAdd(q + n, 1, PAGES);
  }

  lemma RangeEnds(vaddr: int, size: int, i: int)
    requires 0 <= vaddr < WORD && 0 <= size < WORD && 0 <= i <= RangePages(vaddr, size)
    ensures RoundDown((vaddr + size) % WORD) == (RoundDown(vaddr) + PG * i) % WORD <==> i == RangePages(vaddr, size)
  {
    var a, b := vaddr / PG, (vaddr + size) % WORD / PG;
    WrapPages(b - a);
    WrapPages(a + i);
    assert RangePages(vaddr, size) == (b - a) % PAGES by {
      assert RoundDown((vaddr + size) % WORD) - RoundDown(vaddr) == PG * (b - a);
    }
    assert (RoundDown(vaddr) + PG * i) % WORD == PG * ((a + i) % PAGES);
    WrapAround(a, b, i, PAGES);
  }

  // ---------------------------------------------------------------- what a mapping does

  /** One entry was written, of one address space and those that share it. */
  ghost predicate WrittenAt(mem: Mem, info: map<int, Node>, mem': Mem, root: int, w: int, e: int) {
    SameSharing(mem, info, mem') && forall r, x :: IsRoot(mem, info, r) && 0 <= x < VPNS ==>
      Entry(mem', r, x) == if x == w && Together(mem, r, root, x) then e else Entry(mem, r, x)
  }

  /** The first n pages from page w0 on were mapped to paddr on, there and where they are shared,
      and nothing else changed. */
  ghost predicate MappedTo(mem: Mem, info: map<int, Node>, mem': Mem, root: int, w0: int, paddr: int, n: int,
                           perm: int) {
    SameSharing(mem, info, mem') && forall r, x :: IsRoot(mem, info, r) && 0 <= x < VPNS ==>
      Entry(mem', r, x) ==
        if Together(mem, r, root, x) then MapSpec(Entry(mem, r, x), w0, paddr, n, perm, x) else Entry(mem, r, x)
  }

  lemma GrewMapped(mem: Mem, info: map<int, Node>, mem1: Mem, info1: map<int, Node>, mem2: Mem, root: int, w0: int,
                   paddr: int, n: int, perm: int)
    requires MappedTo(mem, info, mem1, root, w0, paddr, n, perm) && SameEntries(mem1, info1, mem2)
    requires forall r :: IsRoot(mem, info, r) ==> IsRoot(mem1, info1, r)
    ensures MappedTo(mem, info, mem2, root, w0, paddr, n, perm)
  {
    forall r, o, x | IsRoot(mem, info, r) && IsRoot(mem, info, o)
      ensures Together(mem2, r, o, x) <==> Together(mem, r, o, x)
    {
      assert Together(mem1, r, o, x) <==> Together(mem, r, o, x);
    }
  }

  lemma MappedStep(mem: Mem, info: map<int, Node>, mem1: Mem, info1: map<int, Node>, mem2: Mem,
                   root: int, vaddr: int, paddr: int, n: int, perm: int)
    requires 0 <= vaddr < WORD && 0 <= paddr < WORD && n >= 0
    requires IsRoot(mem, info, root) && forall r :: IsRoot(mem, info, r) ==> IsRoot(mem1, info1, r)
    requires MappedTo(mem, info, mem1, root, Vpn(vaddr), paddr, n, perm)
    requires WrittenAt(mem1, info1, mem2, root, Vpn((RoundDown(vaddr) + PG * n) % WORD),
                       Ppn((RoundDown(paddr) + PG * n) % WORD) + PTE_P + perm)
    ensures MappedTo(mem, info, mem2, root, Vpn(vaddr), paddr, n + 1, perm)
  {
    StepVpn(vaddr, n);
    StepPpn(paddr, n);
    forall r, x | IsRoot(mem, info, r) && 0 <= x < VPNS
      ensures Entry(mem2, r, x) ==
        if Together(mem, r, root, x) then MapSpec(Entry(mem, r, x), Vpn(vaddr), paddr, n + 1, perm, x)
        else Entry(mem, r, x)
    {
      IndexMacros(vaddr);
      assert IsRoot(mem1, info1, r) && (Together(mem1, r, root, x) <==> Together(mem, r, root, x));
      SpecStep(Entry(mem, r, x), Vpn(vaddr), paddr, n, perm, x);
    }
  }

  /**
  The flat view of a mapping of at most a whole address space: page i of the range
  translates to paddr + i pages, whatever the offset, in this address space and in those that
  share the page; every other address of every address space translates as before.
   */
  lemma MapThenLookup(mem: Mem, info: map<int, Node>, mem': Mem, root: int, vaddr: int, paddr: int, n: int,
                      perm: MemPerm,
                      r: int, v: int)
    requires 0 <= vaddr < WORD && 0 <= paddr < WORD && 0 <= n <= VPNS
    requires MappedTo(mem, info, mem', root, Vpn(vaddr), paddr, n, perm.Bits())
    requires IsRoot(mem, info, r) && 0 <= v < WORD
    ensures var i := (Vpn(v) - Vpn(vaddr)) % VPNS;
      Translate(mem', r, v) ==
        if Together(mem, r, root, Vpn(v)) && i < n then Some(Ppn(paddr + PG * i) + v % PG) else Translate(mem, r, v)
  {
    IndexMacros(v);
    var i := (Vpn(v) - Vpn(vaddr)) % VPNS;
    if Together(mem, r, root, Vpn(v)) && i < n {
      assert LastIndex(n, i) == i by { assert (n - 1 - i) % VPNS == n - 1 - i; }
      MadeEntry(paddr + PG * i, perm);
    }
  }

  /** Address and presence of the entry `map_pages` writes. */
  lemma MadeEntry(pa: int, perm: MemPerm)
    requires pa >= 0
    ensures Present(Ppn(pa) + PTE_P + perm.Bits()) && Ppn(Ppn(pa) + PTE_P + perm.Bits()) == Ppn(pa)
  {
    PpnPage(pa / PG, pa % PG);
    var m := pa / PG % 0x80_0000_0000;
    PpnPage(m, PTE_P + perm.Bits());
    DivUnique(PG * m + PTE_P + perm.Bits(), 2, 2048 * m + perm.Bits() / 2, 1);
  }
}
