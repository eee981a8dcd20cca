/**
`vpmap_destroy`: the walk over all user page tables of an address space. The model
records the walk's calls to the page allocator in order: a reference dropped for each
present entry, and each page table page freed after everything below it. That the
cleared entries are also zeroed is not recorded, since their tables are given back.
 */
module PageTableTeardown {
  import opened Common
  import opened PageTable

  /** The range `vpmap_destroy` passes to `unmap_pages`. */
  const START := 0
  const USTACK_UPPERBOUND := 0xFFFF_FF7F_FFFF_F000

  /** The top-level slots of user space; slot 511 is the kernel's. */
  const USER_SLOTS := 511

  /** Page tables with every entry decoded: the page it leads to, or None if not present. */
  type Tables = map<int, seq<Option<int>>>

  function Child(e: int): Option<int> { if Present(e) then Some(Ppn(e)) else None }

  function Decode(mem: Mem): (tabs: Tables)
    ensures tabs.Keys == mem.Keys
    ensures forall t :: t in mem ==> |tabs[t]| == |mem[t]|
    ensures forall t, i :: t in mem && 0 <= i < |mem[t]| ==> tabs[t][i] == Child(mem[t][i])
  {
    map t | t in mem :: seq(|mem[t]|, i requires 0 <= i < |mem[t]| => Child(mem[t][i]))
  }

  /** The tables are a forest placed as `info` says, but for the kernel's slot, which roots share. */
  ghost predicate Forest(tabs: Tables, info: map<int, Node>) {
    && tabs.Keys == info.Keys
    && (forall t :: t in tabs ==> |tabs[t]| == ENTRIES && info[t].level <= 3)
    && (forall t, i :: t in tabs && info[t].level > 0 && 0 <= i < Own(info[t].level) && tabs[t][i].Some? ==>
          && tabs[t][i].value in info
          && info[tabs[t][i].value] == Node(info[t].root, info[t].level - 1, info[t].prefix * ENTRIES + i, t))
  }

  /** How many entries of a table of this level lead to tables of its own address space. */
  function Own(level: nat): nat { if level == 3 then USER_SLOTS else ENTRIES }

  lemma DecodeForest(mem: Mem, info: map<int, Node>)
    requires Wf(mem, info)
    ensures Forest(Decode(mem), info)
  {
    var tabs: Tables := Decode(mem);
    forall t | t in tabs ensures |tabs[t]| == ENTRIES && info[t].level <= 3 { assert TableOk(mem, info, t); }
    forall t, i | t in tabs && info[t].level > 0 && 0 <= i < Own(info[t].level) && tabs[t][i].Some?
      ensures tabs[t][i].value in info
      ensures info[tabs[t][i].value] == Node(info[t].root, info[t].level - 1, info[t].prefix * ENTRIES + i, t)
    {
      assert TableOk(mem, info, t) && ChildOk(mem, info, t, i);
    }
  }

  // ---------------------------------------------------------------- the walk

  datatype Call = Drop(vpn: int, frame: int) | Free(page: int)

  function Row(tabs: Tables, t: int): seq<Option<int>> { if t in tabs then tabs[t] else [] }

  /** The calls for entries i to limit of table t, which covers the page numbers under `prefix`. */
  function Calls(tabs: Tables, t: int, level: nat, prefix: int, i: int, limit: int): seq<Call>
    decreases level, |Row(tabs, t)| - i
  {
    if i < 0 || i >= limit || t !in tabs || limit > |tabs[t]| then []
    else EntryCalls(tabs, tabs[t][i], level, prefix * ENTRIES + i) + Calls(tabs, t, level, prefix, i + 1, limit)
  }

  /** The calls for one entry. */
  function EntryCalls(tabs: Tables, e: Option<int>, level: nat, q: int): seq<Call>
    decreases level, -1, |tabs|
  {
    if e.None? then []
    else if level == 0 then [Drop(q, e.value)]
    else (if e.value in tabs then Calls(tabs, e.value, level - 1, q, 0, |tabs[e.value]|) else []) + [Free(e.value)]
  }

  lemma Advance(calls: seq<Call>, tabs: Tables, t: int, level: nat, prefix: int, i: int, limit: int)
    requires t in tabs && 0 <= i < limit <= |tabs[t]|
    ensures calls + Calls(tabs, t, level, prefix, i, limit) ==
      (calls + EntryCalls(tabs, tabs[t][i], level, prefix * ENTRIES + i)) + Calls(tabs, t, level, prefix, i + 1, limit)
  {
  }

  /** The loop over one page table in unmap_pd. */
  method UnmapPt(tabs: Tables, t: int, ghost level: nat, q: int, start: int, limit: int) returns (calls: seq<Call>)
    requires t in tabs && 0 <= start <= limit <= |tabs[t]| && level == 0
    ensures calls == Calls(tabs, t, level, q, start, limit)
  {
    calls := [];
    ghost var all := Calls(tabs, t, level, q, start, limit);
    for ptx := start to limit
      invariant calls + Calls(tabs, t, level, q, ptx, limit) == all
    {
      Advance(calls, tabs, t, level, q, ptx, limit);
      if tabs[t][ptx].Some? {
        calls := calls + [Drop(q * ENTRIES + ptx, tabs[t][ptx].value)];
      }
    }
  }

  /** The limit each level of the walk passes to the next: to the end, unless the range ends at
      or before the first index. */
  function Limit(first: int, last: int): int { if first < last then ENTRIES else last + 1 }

  /** unmap_pd over the range of vpmap_destroy; it frees each page table it has cleared. */
  method UnmapPd(tabs: Tables, info: map<int, Node>, t: int, start: int, end: int) returns (calls: seq<Call>)
    requires Forest(tabs, info) && t in tabs && info[t].level == 1 && 0 <= start <= end <= ENTRIES
    ensures calls == Calls(tabs, t, info[t].level, info[t].prefix, start, end)
  {
    hide Calls;
    calls := [];
    ghost var all := Calls(tabs, t, info[t].level, info[t].prefix, start, end);
    CallsNone(tabs, t, info[t].level, info[t].prefix, end);
    var ptx := PTX(START);
    for pdx := start to end
      invariant ptx == 0 && calls + Calls(tabs, t, info[t].level, info[t].prefix, pdx, end) == all
    {
      Advance(calls, tabs, t, info[t].level, info[t].prefix, pdx, end);
      if tabs[t][pdx].Some? {
        var limit := Limit(ptx, PTX(USTACK_UPPERBOUND));
        var pgtable := tabs[t][pdx].value;
        var cleared := UnmapPt(tabs, pgtable, info[pgtable].level, info[t].prefix * ENTRIES + pdx, ptx, limit);
        calls := calls + (cleared + [Free(pgtable)]);
      }
      ptx := 0;
    }
  }

  /** unmap_pdpt, likewise. */
  method UnmapPdpt(tabs: Tables, info: map<int, Node>, t: int, start: int, end: int) returns (calls: seq<Call>)
    requires Forest(tabs, info) && t in tabs && info[t].level == 2 && 0 <= start <= end <= ENTRIES
    ensures calls == Calls(tabs, t, info[t].level, info[t].prefix, start, end)
  {
    hide Calls;
    calls := [];
    ghost var all := Calls(tabs, t, info[t].level, info[t].prefix, start, end);
    CallsNone(tabs, t, info[t].level, info[t].prefix, end);
    var pdx := PDX(START);
    for pdptx := start to end
      invariant pdx == 0 && calls + Calls(tabs, t, info[t].level, info[t].prefix, pdptx, end) == all
    {
      Advance(calls, tabs, t, info[t].level, info[t].prefix, pdptx, end);
      if tabs[t][pdptx].Some? {
        var limit := Limit(pdx, PDX(USTACK_UPPERBOUND));
        var pgdir := tabs[t][pdptx].value;
        var below := UnmapPd(tabs, info, pgdir, pdx, limit);
        calls := calls + (below + [Free(pgdir)]);
      }
      pdx := 0;
    }
  }

  lemma UserSlots()
    ensures PML4X(START) == 0 && PML4X(USTACK_UPPERBOUND - 1) + 1 == USER_SLOTS
  {
  }

  lemma CallsNone(tabs: Tables, t: int, level: nat, prefix: int, limit: int)
    ensures Calls(tabs, t, level, prefix, limit, limit) == []
  {
  }

  /** unmap_pages for the whole user space, with the top-level page freed last. */
  method VpmapDestroy(tabs: Tables, info: map<int, Node>, root: int) returns (calls: seq<Call>)
    requires Forest(tabs, info) && root in tabs && info[root] == Node(root, 3, 0, 0)
    ensures calls == Calls(tabs, root, info[root].level, 0, 0, USER_SLOTS) + [Free(root)]
  {
    hide Calls;
    calls := [];
    ghost var all := Calls(tabs, root, info[root].level, 0, 0, USER_SLOTS);
    CallsNone(tabs, root, info[root].level, 0, USER_SLOTS);
    UserSlots();
    var slot, end, pdptx := PML4X(START), PML4X(USTACK_UPPERBOUND - 1) + 1, PDPTX(START);
    for pml4x := slot to end
      invariant pdptx == 0 && calls + Calls(tabs, root, info[root].level, 0, pml4x, USER_SLOTS) == all
    {
      Advance(calls, tabs, root, info[root].level, 0, pml4x, USER_SLOTS);
      if tabs[root][pml4x].Some? {
        var limit := Limit(pdptx, PDPTX(USTACK_UPPERBOUND));
        var pdpt := tabs[root][pml4x].value;
        var below := UnmapPdpt(tabs, info, pdpt, pdptx, limit);
        calls := calls + (below + [Free(pdpt)]);
      }
      pdptx := 0;
    }
    calls := calls + [Free(root)];
  }

  // ---------------------------------------------------------------- every mapping once

  /** The entry below a table on decoded tables. */
  function FrameBelow(tabs: Tables, t: int, level: nat, w: int): Option<int>
    decreases level, |tabs|
  {
    var i := Shift(w, level) % ENTRIES;
    if t !in tabs || |tabs[t]| != ENTRIES then None
    else if level == 0 || tabs[t][i].None? then tabs[t][i]
    else FrameBelow(tabs, tabs[t][i].value, level - 1, w)
  }

  lemma {:induction false} DecodedBelow(mem: Mem, t: int, level: nat, w: int)
    ensures FrameBelow(Decode(mem), t, level, w) == Child(EntryBelow(mem, t, level, w))
    decreases level
  {
    if level > 0 && t in mem && |mem[t]| == ENTRIES && Present(mem[t][Shift(w, level) % ENTRIES]) {
      DecodedBelow(mem, Ppn(mem[t][Shift(w, level) % ENTRIES]), level - 1, w);
    }
  }

  /** The dropped references are exactly the present entries under the range. */
  lemma {:induction false} DropsExact(tabs: Tables, info: map<int, Node>, t: int, level: nat, i: int, limit: int,
                                      w: int, f: int)
    requires Forest(tabs, info) && t in tabs && info[t].level == level && 0 <= i <= limit <= Own(level) && w >= 0
    ensures Drop(w, f) in Calls(tabs, t, level, info[t].prefix, i, limit) <==>
      && info[t].prefix * ENTRIES + i <= Shift(w, level) < info[t].prefix * ENTRIES + limit
      && FrameBelow(tabs, t, level, w) == Some(f)
    decreases level, limit - i
  {
    if i < limit {
      var q := info[t].prefix * ENTRIES + i;
      EntryDrop(tabs, info, t, level, i, w, f);
      DropsExact(tabs, info, t, level, i + 1, limit, w, f);
    }
  }

  lemma LowIndex(prefix: int, i: int)
    requires 0 <= i < ENTRIES
    ensures (prefix * ENTRIES + i) % ENTRIES == i
  {
  }

  /** A page lies under the prefix of a table exactly if it lies under one of its entries. */
  lemma Under(w: int, level: nat, q: int)
    requires level > 0
    ensures q * ENTRIES <= Shift(w, level - 1) < q * ENTRIES + ENTRIES <==> Shift(w, level) == q
  {
  }

  lemma {:induction false} EntryDrop(tabs: Tables, info: map<int, Node>, t: int, level: nat, i: int, w: int, f: int)
    requires Forest(tabs, info) && t in tabs && info[t].level == level && 0 <= i < Own(level) && w >= 0
    ensures var q := info[t].prefix * ENTRIES + i;
      Drop(w, f) in EntryCalls(tabs, tabs[t][i], level, q) <==>
        Shift(w, level) == q && FrameBelow(tabs, t, level, w) == Some(f)
    decreases level, 0
  {
    var e, q := tabs[t][i], info[t].prefix * ENTRIES + i;
    LowIndex(info[t].prefix, i);
    hide Calls;
    hide Shift;
    if level > 0 && e.Some? {
      DropsExact(tabs, info, e.value, level - 1, 0, |tabs[e.value]|, w, f);
      Under(w, level, q);
    }
  }

  // ---------------------------------------------------------------- every table once, after its contents

  /** The first page number under a prefix. */
  function FirstPage(q: int, level: nat): int
    decreases level
  {
    if level == 0 then q else FirstPage(q * ENTRIES, level - 1)
  }

  lemma {:induction false} FirstPageGrows(q: int, p: int, level: nat)
    requires q < p
    ensures FirstPage(q, level) < FirstPage(p, level)
    decreases level
  {
    if level > 0 { FirstPageGrows(q * ENTRIES, p * ENTRIES, level - 1); }
  }

  /** Where a call belongs in the walk: by last page covered, then from leaf to root. */
  ghost function Key(info: map<int, Node>, c: Call): int {
    match c
    case Drop(w, _) => 8 * w
    case Free(t) =>
      if t in info then 8 * (FirstPage(info[t].prefix + 1, info[t].level + 1) - 1) + info[t].level + 1 else 0
  }

  ghost predicate InOrder(info: map<int, Node>, s: seq<Call>, lo: int, hi: int) {
    && (forall a :: 0 <= a < |s| ==> lo <= Key(info, s[a]) < hi)
    && (forall a, b :: 0 <= a < b < |s| ==> Key(info, s[a]) < Key(info, s[b]))
  }

  lemma InOrderConcat(info: map<int, Node>, s: seq<Call>, r: seq<Call>, lo: int, mid: int, hi: int)
    requires InOrder(info, s, lo, mid) && InOrder(info, r, mid, hi) && lo <= mid <= hi
    ensures InOrder(info, s + r, lo, hi)
  {
  }

  lemma InOrderWiden(info: map<int, Node>, s: seq<Call>, lo: int, lo': int, hi: int)
    requires InOrder(info, s, lo, hi) && lo' <= lo
    ensures InOrder(info, s, lo', hi)
  {
  }

  lemma InOrderNone(info: map<int, Node>, lo: int, hi: int)
    ensures InOrder(info, [], lo, hi)
  {
  }

  lemma InOrderOne(info: map<int, Node>, c: Call)
    ensures InOrder(info, [c], Key(info, c), Key(info, c) + 1)
  {
  }

  lemma FirstPageDown(q: int, level: nat)
    ensures FirstPage(q, level) == if level == 0 then q else FirstPage(q * ENTRIES, level - 1)
  {
  }

  /** The walk takes the calls strictly in order. */
  lemma {:induction false} CallsInOrder(tabs: Tables, info: map<int, Node>, t: int, level: nat, i: int, limit: int)
    requires Forest(tabs, info) && t in tabs && info[t].level == level && 0 <= i < limit <= Own(level)
    ensures InOrder(info, Calls(tabs, t, level, info[t].prefix, i, limit),
                    8 * FirstPage(info[t].prefix * ENTRIES + i, level),
                    8 * (FirstPage(info[t].prefix * ENTRIES + limit, level) - 1) + level + 1)
    decreases level, limit - i
  {
    hide FirstPage;
    hide EntryCalls;
    hide InOrder;
    var q, last := info[t].prefix * ENTRIES + i, info[t].prefix * ENTRIES + limit;
    EntryInOrder(tabs, info, t, level, i);
    var first, rest := EntryCalls(tabs, tabs[t][i], level, q), Calls(tabs, t, level, info[t].prefix, i + 1, limit);
    var mid, hi := 8 * (FirstPage(q + 1, level) - 1) + level + 1, 8 * (FirstPage(last, level) - 1) + level + 1;
    assert Calls(tabs, t, level, info[t].prefix, i, limit) == first + rest;
    if i + 1 < limit {
      CallsInOrder(tabs, info, t, level, i + 1, limit);
      FirstPageGrows(q + 1, last, level);
      InOrderWiden(info, rest, 8 * FirstPage(q + 1, level), mid, hi);
      InOrderConcat(info, first, rest, 8 * FirstPage(q, level), mid, hi);
    } else {
      assert first + rest == first;
    }
  }

  lemma {:induction false} EntryInOrder(tabs: Tables, info: map<int, Node>, t: int, level: nat, i: int)
    requires Forest(tabs, info) && t in tabs && info[t].level == level && 0 <= i < Own(level)
    ensures var q := info[t].prefix * ENTRIES + i;
      && FirstPage(q, level) < FirstPage(q + 1, level)
      && InOrder(info, EntryCalls(tabs, tabs[t][i], level, q),
                 8 * FirstPage(q, level), 8 * (FirstPage(q + 1, level) - 1) + level + 1)
    decreases level, 0
  {
    hide Calls;
    hide FirstPage;
    hide InOrder;
    var e, q := tabs[t][i], info[t].prefix * ENTRIES + i;
    FirstPageGrows(q, q + 1, level);
    InOrderNone(info, 8 * FirstPage(q, level), 8 * (FirstPage(q + 1, level) - 1) + level + 1);
    if e.Some? && level == 0 {
      FirstPageDown(q, 0);
      FirstPageDown(q + 1, 0);
      InOrderOne(info, Drop(q, e.value));
    }
    if e.Some? && level > 0 {
      CallsInOrder(tabs, info, e.value, level - 1, 0, |tabs[e.value]|);
      var below := Calls(tabs, e.value, level - 1, q, 0, |tabs[e.value]|);
      var top := 8 * (FirstPage(q + 1, level) - 1) + level;
      FirstPageDown(q, level);
      FirstPageDown(q + 1, level);
      assert Key(info, Free(e.value)) == top;
      InOrderOne(info, Free(e.value));
      InOrderConcat(info, below, [Free(e.value)], 8 * FirstPage(q, level), top, top + 1);
    }
  }

  // ---------------------------------------------------------------- no table is left behind

  /** The top-level slot a table hangs below. */
  function TopSlot(n: Node): int
    requires n.level < 3
  {
    Shift(n.prefix, 2 - n.level)
  }

  /** On decoded tables: the parent's entry leads to the table. */
  ghost predicate Hangs(tabs: Tables, info: map<int, Node>, c: int)
    requires c in info
  {
    var p, i := info[c].parent, info[c].prefix % ENTRIES;
    && p in tabs && p in info && i < |tabs[p]| && tabs[p][i] == Some(c)
    && info[p].level == info[c].level + 1 && info[p].root == info[c].root
    && info[c].prefix == info[p].prefix * ENTRIES + i
  }

  lemma {:induction false} CallsOfEntry(tabs: Tables, t: int, level: nat, prefix: int, i: int, limit: int, k: int,
                                        x: Call)
    requires t in tabs && 0 <= i <= k < limit <= |tabs[t]|
    requires x in EntryCalls(tabs, tabs[t][k], level, prefix * ENTRIES + k)
    ensures x in Calls(tabs, t, level, prefix, i, limit)
    decreases k - i
  {
    if i < k { CallsOfEntry(tabs, t, level, prefix, i + 1, limit, k, x); }
  }

  /** What is done below a table, and the freeing of the table, is done below its parent. */
  lemma CallsOfChild(tabs: Tables, info: map<int, Node>, c: int, limit: int, x: Call)
    requires Forest(tabs, info) && c in info && Hangs(tabs, info, c)
    requires info[c].prefix % ENTRIES < limit <= ENTRIES
    requires x == Free(c) || x in Calls(tabs, c, info[c].level, info[c].prefix, 0, |tabs[c]|)
    ensures var p := info[c].parent; x in Calls(tabs, p, info[p].level, info[p].prefix, 0, limit)
  {
    var p, i := info[c].parent, info[c].prefix % ENTRIES;
    CallsOfEntry(tabs, p, info[p].level, info[p].prefix, 0, limit, i, x);
  }

  lemma FreesAll(tabs: Tables, info: map<int, Node>, root: int, c: int)
    requires Forest(tabs, info) && root in tabs && info[root] == Node(root, 3, 0, 0)
    requires forall t :: t in info && info[t].level < 3 ==> Hangs(tabs, info, t)
    requires forall t :: t in info && info[t].level >= 3 ==> info[t] == Node(t, 3, 0, 0)
    requires c in info && info[c].root == root && info[c].level < 3 && TopSlot(info[c]) < USER_SLOTS
    ensures Free(c) in Calls(tabs, root, info[root].level, 0, 0, USER_SLOTS)
  {
    var x, a := Free(c), c;
    if info[a].level == 0 {
      CallsOfChild(tabs, info, a, ENTRIES, x);
      a := info[a].parent;
      assert info[a].prefix == info[c].prefix / ENTRIES == Shift(info[c].prefix, 1);
    }
    if info[a].level == 1 {
      CallsOfChild(tabs, info, a, ENTRIES, x);
      ghost var b := info[a].parent;
      assert info[b].prefix == info[a].prefix / ENTRIES;
      a := b;
    }
    var y := info[c].prefix;
    assert Shift(y, 2) == Shift(y, 1) / ENTRIES && Shift(y, 1) == Shift(y, 0) / ENTRIES && Shift(y, 0) == y;
    assert info[a].prefix == TopSlot(info[c]);
    CallsOfChild(tabs, info, a, USER_SLOTS, x);
  }

  lemma {:induction false} FreesOwn(tabs: Tables, info: map<int, Node>, t: int, level: nat, i: int, limit: int, c: int)
    requires Forest(tabs, info) && t in tabs && info[t].level == level && 0 <= i <= limit <= Own(level)
    requires Free(c) in Calls(tabs, t, level, info[t].prefix, i, limit)
    ensures c in info && info[c].root == info[t].root && info[c].level < level
    ensures var top := Shift(info[c].prefix, level - 1 - info[c].level);
      info[t].prefix * ENTRIES + i <= top < info[t].prefix * ENTRIES + limit
    decreases level, limit - i
  {
    var e, q := tabs[t][i], info[t].prefix * ENTRIES + i;
    if Free(c) in EntryCalls(tabs, e, level, q) {
      if e != Some(c) {
        FreesOwn(tabs, info, e.value, level - 1, 0, |tabs[e.value]|, c);
        assert Shift(info[c].prefix, level - 1 - info[c].level) == q;
      }
    } else {
      FreesOwn(tabs, info, t, level, i + 1, limit, c);
    }
  }

  /** The walk of vpmap_destroy, and the last page it frees. */
  ghost function Destroy(mem: Mem, info: map<int, Node>, root: int): seq<Call>
    requires root in info
  {
    Calls(Decode(mem), root, info[root].level, 0, 0, USER_SLOTS) + [Free(root)]
  }

  /** Destroying an address space drops one reference for every present user entry, and no other. */
  lemma DestroyDrops(mem: Mem, info: map<int, Node>, root: int, w: int, f: int)
    requires Wf(mem, info) && IsRoot(mem, info, root) && 0 <= w < VPNS
    ensures Drop(w, f) in Destroy(mem, info, root) <==>
      Shift(w, 3) < USER_SLOTS && Present(Entry(mem, root, w)) && f == Ppn(Entry(mem, root, w))
  {
    DecodeForest(mem, info);
    assert TableOk(mem, info, root);
    DropsExact(Decode(mem), info, root, info[root].level, 0, USER_SLOTS, w, f);
    DecodedBelow(mem, root, info[root].level, w);
    ShiftNat(w, 3);
  }

  /** It frees every page table page of the user part of the space, and no other page. */
  lemma DestroyFrees(mem: Mem, info: map<int, Node>, root: int, c: int)
    requires Wf(mem, info) && AllLinked(mem, info) && IsRoot(mem, info, root)
    ensures Free(c) in Destroy(mem, info, root) <==>
      c == root || (c in info && info[c].root == root && info[c].level < 3 && TopSlot(info[c]) < USER_SLOTS)
  {
    var tabs: Tables := Decode(mem);
    DecodeForest(mem, info);
    assert TableOk(mem, info, root);
    forall t | t in info && info[t].level < 3 ensures Hangs(tabs, info, t) { assert Linked(mem, info, t); }
    forall t | t in info && info[t].level >= 3 ensures info[t] == Node(t, 3, 0, 0) { assert TableOk(mem, info, t); }
    if Free(c) in Calls(tabs, root, info[root].level, 0, 0, USER_SLOTS) {
      FreesOwn(tabs, info, root, info[root].level, 0, USER_SLOTS, c);
    } else if c in info && info[c].root == root && info[c].level < 3 && TopSlot(info[c]) < USER_SLOTS {
      FreesAll(tabs, info, root, c);
    }
  }

  /** It makes no call twice, and frees a page only after everything below that page. */
  lemma DestroyOrder(mem: Mem, info: map<int, Node>, root: int)
    requires Wf(mem, info) && IsRoot(mem, info, root)
    ensures var calls := Destroy(mem, info, root);
      forall a, b :: 0 <= a < b < |calls| ==> Key(info, calls[a]) < Key(info, calls[b]) && calls[a] != calls[b]
  {
    DecodeForest(mem, info);
    assert TableOk(mem, info, root);
    CallsInOrder(Decode(mem), info, root, info[root].level, 0, USER_SLOTS);
    FirstPageGrows(USER_SLOTS, ENTRIES, 3);
    assert Key(info, Free(root)) == 8 * (FirstPage(1, 4) - 1) + 4 == 8 * (FirstPage(ENTRIES, 3) - 1) + 4;
  }
}
