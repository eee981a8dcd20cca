/**
The heap of the Kernighan and Ritchie allocator, in units of one header: blocks that tile
the memory obtained, and the ring that links the free ones.
 */
module KrHeap {
  datatype Block = Block(units: int, free: bool)

  type Blocks = map<int, Block>

  /** Which block each unit of memory belongs to. */
  type Owner = map<int, int>

  // ---------------------------------------------------------------- blocks tile the memory

  ghost predicate BlockOk(blocks: Blocks, owner: Owner, h: int)
    requires h in blocks
  {
    blocks[h].units > 0 && forall u :: h <= u < h + blocks[h].units ==> u in owner && owner[u] == h
  }

  ghost predicate UnitOk(blocks: Blocks, owner: Owner, u: int)
    requires u in owner
  {
    owner[u] in blocks && owner[u] <= u < owner[u] + blocks[owner[u]].units
  }

  /** Every unit lies in exactly one block. */
  ghost predicate Tiled(blocks: Blocks, owner: Owner) {
    && (forall h {:trigger BlockOk(blocks, owner, h)} :: h in blocks ==> BlockOk(blocks, owner, h))
    && (forall u {:trigger UnitOk(blocks, owner, u)} :: u in owner ==> UnitOk(blocks, owner, u))
  }

  /** Blocks do not overlap. */
  lemma Disjoint(blocks: Blocks, owner: Owner, g: int, h: int)
    requires Tiled(blocks, owner) && g in blocks && h in blocks && g < h
    ensures g + blocks[g].units <= h
  {
    assert BlockOk(blocks, owner, g) && BlockOk(blocks, owner, h);
    assert h in owner && owner[h] == h;
  }

  ghost predicate LiveUnit(blocks: Blocks, owner: Owner, u: int) {
    u in owner && owner[u] in blocks && !blocks[owner[u]].free
  }

  ghost function LiveUnits(blocks: Blocks, owner: Owner): set<int> { set u | u in owner && LiveUnit(blocks, owner, u) }

  /** Units h to h + n. */
  ghost function Span(h: int, n: int): set<int> { set u | h <= u < h + n && Inside(u, h, n) }

  predicate Inside(u: int, h: int, n: int) { h <= u < h + n }

  ghost function Mark(blocks: Blocks, h: int, free: bool): Blocks
    requires h in blocks
  {
    blocks[h := blocks[h].(free := free)]
  }

  lemma MarkTiled(blocks: Blocks, owner: Owner, h: int, free: bool)
    requires Tiled(blocks, owner) && h in blocks
    ensures Tiled(Mark(blocks, h, free), owner)
    ensures LiveUnits(Mark(blocks, h, free), owner) ==
      if free then LiveUnits(blocks, owner) - Span(h, blocks[h].units)
      else LiveUnits(blocks, owner) + Span(h, blocks[h].units)
  {
    var m := Mark(blocks, h, free);
    assert BlockOk(blocks, owner, h);
    forall g | g in m ensures BlockOk(m, owner, g) { assert BlockOk(blocks, owner, g); }
    forall u | u in owner ensures UnitOk(m, owner, u) && (owner[u] == h <==> u in Span(h, blocks[h].units)) {
      assert UnitOk(blocks, owner, u);
    }
  }

  /** The last n units of block h made a block of their own. */
  ghost function Cut(blocks: Blocks, h: int, n: int, free: bool): Blocks
    requires h in blocks
  {
    var rest := blocks[h].units - n;
    blocks[h := Block(rest, blocks[h].free)][h + rest := Block(n, free)]
  }

  ghost function CutOwner(owner: Owner, h: int,
                          at: int): Owner { map u | u in owner :: if owner[u] == h && at <= u then at else owner[u] }

  lemma CutApartFrom(blocks: Blocks, owner: Owner, h: int, n: int)
    requires Tiled(blocks, owner) && h in blocks && 0 < n < blocks[h].units
    ensures h + blocks[h].units - n !in blocks
  {
    if h + blocks[h].units - n in blocks { Disjoint(blocks, owner, h, h + blocks[h].units - n); }
  }

  lemma CutBlock(blocks: Blocks, owner: Owner, h: int, n: int, g: int)
    requires Tiled(blocks, owner) && h in blocks && 0 < n < blocks[h].units && g in Cut(blocks, h, n, false)
    ensures BlockOk(Cut(blocks, h, n, false), CutOwner(owner, h, h + blocks[h].units - n), g)
  {
    assert BlockOk(blocks, owner, h) && (g in blocks ==> BlockOk(blocks, owner, g));
    CutApartFrom(blocks, owner, h, n);
  }

  lemma CutUnit(blocks: Blocks, owner: Owner, h: int, n: int, u: int)
    requires Tiled(blocks, owner) && h in blocks && 0 < n < blocks[h].units && u in owner
    ensures var at := h + blocks[h].units - n;
      UnitOk(Cut(blocks, h, n, false), CutOwner(owner, h, at), u) && (CutOwner(owner, h, at)[u] == at <==>
        u in Span(at, n))
  {
    assert UnitOk(blocks, owner, u) && BlockOk(blocks, owner, h);
    CutApartFrom(blocks, owner, h, n);
  }

  lemma CutTiled(blocks: Blocks, owner: Owner, h: int, n: int)
    requires Tiled(blocks, owner) && h in blocks && 0 < n < blocks[h].units
    ensures Tiled(Cut(blocks, h, n, false), CutOwner(owner, h, h + blocks[h].units - n))
  {
    var at := h + blocks[h].units - n;
    var cut, owner' := Cut(blocks, h, n, false), CutOwner(owner, h, at);
    forall g | g in cut ensures BlockOk(cut, owner', g) { CutBlock(blocks, owner, h, n, g); }
    forall u | u in owner' ensures UnitOk(cut, owner', u) { CutUnit(blocks, owner, h, n, u); }
  }

  lemma CutLive(blocks: Blocks, owner: Owner, h: int, n: int)
    requires Tiled(blocks, owner) && h in blocks && 0 < n < blocks[h].units && blocks[h].free
    ensures var at := h + blocks[h].units - n;
      && LiveUnits(Cut(blocks, h, n, false), CutOwner(owner, h, at)) == LiveUnits(blocks, owner) + Span(at, n)
      && Span(at, n) !! LiveUnits(blocks, owner)
  {
    var at := h + blocks[h].units - n;
    var cut, owner' := Cut(blocks, h, n, false), CutOwner(owner, h, at);
    assert BlockOk(blocks, owner, h);
    forall u | u in Span(at, n) ensures u in owner && owner[u] == h { }
    forall u | u in owner ensures LiveUnit(cut, owner', u) <==> LiveUnit(blocks, owner, u) || u in Span(at, n) {
      CutUnit(blocks, owner, h, n, u);
      assert UnitOk(blocks, owner, u);
    }
  }

  /** Two neighbouring free blocks made one. */
  ghost function Fuse(blocks: Blocks, a: int, b: int): Blocks
    requires a in blocks && b in blocks
  {
    (blocks - {b})[a := Block(blocks[a].units + blocks[b].units, true)]
  }

  ghost function FuseOwner(owner: Owner, a: int,
                           b: int): Owner { map u | u in owner :: if owner[u] == b then a else owner[u] }

  lemma FuseTiled(blocks: Blocks, owner: Owner, a: int, b: int)
    requires Tiled(blocks, owner) && a in blocks && b in blocks && a + blocks[a].units == b && blocks[a].free
    requires blocks[b].free
    ensures a < b && Tiled(Fuse(blocks, a, b), FuseOwner(owner, a, b))
    ensures LiveUnits(Fuse(blocks, a, b), FuseOwner(owner, a, b)) == LiveUnits(blocks, owner)
  {
    var fused, owner' := Fuse(blocks, a, b), FuseOwner(owner, a, b);
    assert BlockOk(blocks, owner, a) && BlockOk(blocks, owner, b);
    forall g | g in fused ensures BlockOk(fused, owner', g) { assert BlockOk(blocks, owner, g); }
    forall u | u in owner ensures UnitOk(fused, owner', u) { assert UnitOk(blocks, owner, u); }
  }

  /** A new block in new memory. */
  ghost function GrowOwner(owner: Owner, h: int,
                           n: int): Owner { map u | u in owner.Keys + Span(h, n) :: if u in owner then owner[u] else h }

  lemma GrowTiled(blocks: Blocks, owner: Owner, h: int, n: int)
    requires Tiled(blocks, owner) && n > 0 && Span(h, n) !! owner.Keys
    ensures h !in blocks && Tiled(blocks[h := Block(n, false)], GrowOwner(owner, h, n))
  {
    assert h in Span(h, n);
    assert h in blocks ==> BlockOk(blocks, owner, h);
    var more, owner' := blocks[h := Block(n, false)], GrowOwner(owner, h, n);
    forall u | h <= u < h + n ensures u in owner' && owner'[u] == h { assert u in Span(h, n); }
    forall g | g in more ensures BlockOk(more, owner', g) {
      if g != h { assert BlockOk(blocks, owner, g); }
    }
    forall u | u in owner' ensures UnitOk(more, owner', u) { assert u in owner ==> UnitOk(blocks, owner, u); }
  }

  lemma GrowLive(blocks: Blocks, owner: Owner, h: int, n: int)
    requires Tiled(blocks, owner) && h !in blocks && Span(h, n) !! owner.Keys
    ensures GrowOwner(owner, h, n).Keys == owner.Keys + Span(h, n)
    ensures LiveUnits(blocks[h := Block(n, false)], GrowOwner(owner, h, n)) == LiveUnits(blocks, owner) + Span(h, n)
  {
    forall u | u in owner ensures owner[u] != h { assert UnitOk(blocks, owner, u); }
  }

  // ---------------------------------------------------------------- the free ring

  function Succ(n: int, k: int): int { if k + 1 == n then 0 else k + 1 }

  ghost predicate Sorted(ring: seq<int>) { forall j, k :: 0 <= j < k < |ring| ==> ring[j] < ring[k] }

  /** The pointers link the nodes in a circle. */
  ghost predicate Linked(ring: seq<int>, ptr: map<int, int>) {
    forall k {:trigger LinkAt(ring, ptr, k)} :: 0 <= k < |ring| ==> LinkAt(ring, ptr, k)
  }

  ghost predicate LinkAt(ring: seq<int>, ptr: map<int, int>, k: int)
    requires 0 <= k < |ring|
  {
    ring[k] in ptr && ptr[ring[k]] == ring[Succ(|ring|, k)]
  }

  /** The nodes are the base and the free blocks. */
  ghost predicate Covers(ring: seq<int>, base: int, blocks: Blocks) {
    && |ring| > 0 && ring[0] == base && base !in blocks
    && (forall k :: 1 <= k < |ring| ==> ring[k] in blocks && blocks[ring[k]].free)
    && (forall h :: h in blocks && blocks[h].free ==> h in ring)
    && (forall h :: h in blocks ==> base < h)
  }

  ghost predicate SizesOk(base: int, blocks: Blocks, size: map<int, int>) {
    base in size && size[base] == 0 && forall h :: h in blocks ==> h in size && size[h] == blocks[h].units
  }

  // ---------------------------------------------------------------- changes of the ring

  ghost predicate HeapOk(base: int, ptr: map<int, int>, size: map<int, int>, ring: seq<int>, blocks: Blocks,
                         owner: Owner) {
    Tiled(blocks, owner) && Sorted(ring) && Linked(ring, ptr) && Covers(ring, base, blocks) &&
    SizesOk(base, blocks, size)
  }

  ghost function Inserted(ring: seq<int>, t: int, b: int): seq<int>
    requires 0 <= t < |ring|
  {
    ring[..t + 1] + [b] + ring[t + 1..]
  }

  ghost function Dropped(ring: seq<int>, k: int): seq<int>
    requires 0 <= k < |ring|
  {
    ring[..k] + ring[k + 1..]
  }

  /** Node t is the last below b. */
  ghost predicate Spot(ring: seq<int>, t: int, b: int) {
    0 <= t < |ring| && ring[t] < b && (t + 1 < |ring| ==> b < ring[t + 1])
  }

  lemma InsertSorted(ring: seq<int>, t: int, b: int)
    requires Sorted(ring) && Spot(ring, t, b)
    ensures Sorted(Inserted(ring, t, b))
  {
    assert forall k :: 0 <= k <= t ==> ring[k] < b;
    assert forall k :: t < k < |ring| ==> b < ring[k];
  }

  lemma InsertLinked(ring: seq<int>, ptr: map<int, int>, t: int, b: int)
    requires Sorted(ring) && Linked(ring, ptr) && Spot(ring, t, b)
    ensures LinkAt(ring, ptr, t) && Linked(Inserted(ring, t, b), ptr[b := ptr[ring[t]]][ring[t] := b])
  {
    assert LinkAt(ring, ptr, t);
    var ring', ptr' := Inserted(ring, t, b), ptr[b := ptr[ring[t]]][ring[t] := b];
    forall k | 0 <= k < |ring'| ensures LinkAt(ring', ptr', k) {
      if k < t {
        assert LinkAt(ring, ptr, k) && ring[k] < ring[t];
      } else if k > t + 1 {
        assert LinkAt(ring, ptr, k - 1) && ring[t] < ring[k - 1] && b < ring[k - 1];
      }
    }
  }

  lemma DropSorted(ring: seq<int>, k: int)
    requires Sorted(ring) && 0 <= k < |ring|
    ensures Sorted(Dropped(ring, k))
  {
  }

  lemma DropLinked(ring: seq<int>, ptr: map<int, int>, k: int)
    requires Sorted(ring) && Linked(ring, ptr) && 1 <= k < |ring|
    ensures LinkAt(ring, ptr, k) && Linked(Dropped(ring, k), ptr[ring[k - 1] := ptr[ring[k]]])
  {
    assert LinkAt(ring, ptr, k);
    var ring', ptr' := Dropped(ring, k), ptr[ring[k - 1] := ptr[ring[k]]];
    forall j | 0 <= j < |ring'| ensures LinkAt(ring', ptr', j) {
      if j < k - 1 {
        assert LinkAt(ring, ptr, j) && ring[j] < ring[k - 1];
      } else if j >= k {
        assert LinkAt(ring, ptr, j + 1) && ring[k - 1] < ring[j + 1];
      }
    }
  }

  lemma InsertMembers(ring: seq<int>, t: int, b: int, x: int)
    requires 0 <= t < |ring|
    ensures x in Inserted(ring, t, b) <==> x in ring || x == b
  {
    assert ring == ring[..t + 1] + ring[t + 1..];
  }

  lemma DropMembers(ring: seq<int>, k: int, x: int)
    requires Sorted(ring) && 0 <= k < |ring|
    ensures x in Dropped(ring, k) <==> x in ring && x != ring[k]
  {
    assert ring == ring[..k] + [ring[k]] + ring[k + 1..];
  }

  /** A live block enters the ring. */
  lemma InsertOk(base: int, ptr: map<int, int>, size: map<int, int>, ring: seq<int>, blocks: Blocks, owner: Owner,
                 t: int, b: int)
    requires HeapOk(base, ptr, size, ring, blocks, owner) && Spot(ring, t, b) && b in blocks && !blocks[b].free
    ensures ring[t] in ptr
    ensures HeapOk(base, ptr[b := ptr[ring[t]]][ring[t] := b], size, Inserted(ring, t, b), Mark(blocks, b, true), owner)
  {
    InsertLinked(ring, ptr, t, b);
    InsertSorted(ring, t, b);
    MarkTiled(blocks, owner, b, true);
    InsertCovers(base, ring, blocks, t, b);
  }

  lemma InsertCovers(base: int, ring: seq<int>, blocks: Blocks, t: int, b: int)
    requires Covers(ring, base, blocks) && 0 <= t < |ring| && b in blocks
    ensures Covers(Inserted(ring, t, b), base, Mark(blocks, b, true))
  {
    var ring', marked := Inserted(ring, t, b), Mark(blocks, b, true);
    forall h | h in marked && marked[h].free ensures h in ring' { InsertMembers(ring, t, b, h); }
    forall k | 1 <= k < |ring'| ensures ring'[k] in marked && marked[ring'[k]].free {
      assert ring'[k] == if k <= t then ring[k] else if k == t + 1 then b else ring[k - 1];
    }
  }

  /** Node k takes over its neighbour, node k + 1. */
  lemma FuseOk(base: int, ptr: map<int, int>, size: map<int, int>, ring: seq<int>, blocks: Blocks, owner: Owner, k: int)
    requires HeapOk(base, ptr, size, ring, blocks, owner) && 1 <= k < |ring| - 1
    requires var a, b := ring[k], ring[k + 1]; a + blocks[a].units == b
    ensures var a, b := ring[k], ring[k + 1];
      b in ptr && HeapOk(base, ptr[a := ptr[b]], size[a := size[a] + size[b]], Dropped(ring, k + 1), Fuse(blocks, a,
          b), FuseOwner(owner, a, b))
  {
    var a, b := ring[k], ring[k + 1];
    DropLinked(ring, ptr, k + 1);
    DropSorted(ring, k + 1);
    FuseTiled(blocks, owner, a, b);
    FuseSizes(base, size, blocks, a, b);
    hide Tiled;
    hide Linked;
    hide SizesOk;
    DropCovers(base, ring, blocks, k + 1, Fuse(blocks, a, b));
  }

  lemma FuseSizes(base: int, size: map<int, int>, blocks: Blocks, a: int, b: int)
    requires SizesOk(base, blocks, size) && a in blocks && b in blocks && a != base && a != b
    ensures SizesOk(base, Fuse(blocks, a, b), size[a := size[a] + size[b]])
  {
  }

  /** The free blocks are listed but for one. */
  lemma DropListed(ring: seq<int>, blocks: Blocks, k: int, blocks': Blocks, h: int)
    requires Sorted(ring) && 1 <= k < |ring| && (h in blocks && blocks[h].free ==> h in ring)
    requires h != ring[k] ==> (h in blocks' <==> h in blocks) && (h in blocks' ==> blocks'[h].free == blocks[h].free)
    requires ring[k] in blocks' ==> !blocks'[ring[k]].free
    ensures h in blocks' && blocks'[h].free ==> h in Dropped(ring, k)
  {
    DropMembers(ring, k, h);
  }

  lemma DropNode(ring: seq<int>, k: int, j: int)
    requires Sorted(ring) && 1 <= k < |ring| && 0 <= j < |ring| - 1
    ensures |Dropped(ring, k)| == |ring| - 1
    ensures Dropped(ring, k)[j] == ring[if j < k then j else j + 1] != ring[k]
  {
  }

  /** A node leaves the ring when its block does, or is live. */
  lemma DropCovers(base: int, ring: seq<int>, blocks: Blocks, k: int, blocks': Blocks)
    requires Sorted(ring) && Covers(ring, base, blocks) && 1 <= k < |ring|
    requires forall h :: h != ring[k] ==>
      (h in blocks' <==> h in blocks) && (h in blocks' ==> blocks'[h].free == blocks[h].free)
    requires ring[k] in blocks' ==> !blocks'[ring[k]].free
    ensures Covers(Dropped(ring, k), base, blocks')
  {
    hide Dropped;
    hide Sorted;
    var ring' := Dropped(ring, k);
    DropNode(ring, k, 0);
    forall h | h in blocks' && blocks'[h].free ensures h in ring' { DropListed(ring, blocks, k, blocks', h); }
    forall j | 1 <= j < |ring'| ensures ring'[j] in blocks' && blocks'[ring'[j]].free { DropNode(ring, k, j); }
    assert ring[k] in blocks;
  }

  // ---------------------------------------------------------------- gaps

  ghost predicate ApartAt(ring: seq<int>, blocks: Blocks, k: int)
    requires 0 <= k < |ring|
  {
    1 <= k < |ring| - 1 ==> ring[k] in blocks && ring[k] + blocks[ring[k]].units != ring[k + 1]
  }

  /** There are gaps after all nodes but those from lo to hi. */
  ghost predicate ApartBut(ring: seq<int>, blocks: Blocks, lo: int, hi: int) {
    forall k :: 0 <= k < |ring| && !(lo <= k < hi) ==> ApartAt(ring, blocks, k)
  }

  lemma InsertApart(ring: seq<int>, blocks: Blocks, t: int, b: int)
    requires ApartBut(ring, blocks, 0, 0) && 0 <= t < |ring| && b in blocks
    ensures ApartBut(Inserted(ring, t, b), Mark(blocks, b, true), t, t + 2)
  {
    var ring' := Inserted(ring, t, b);
    forall k | 0 <= k < |ring'| && !(t <= k < t + 2) ensures ApartAt(ring', Mark(blocks, b, true), k) {
      assert ApartAt(ring, blocks, if k < t then k else k - 1);
    }
  }

  /** After a merge the gap is that after the upper block. */
  lemma FuseApart(ring: seq<int>, blocks: Blocks, k: int, lo: int)
    requires Sorted(ring) && ApartBut(ring, blocks, lo, k + 1) && 1 <= k < |ring| - 1 && lo <= k
    requires var a, b := ring[k], ring[k + 1]; a in blocks && b in blocks && a + blocks[a].units == b
    ensures ApartBut(Dropped(ring, k + 1), Fuse(blocks, ring[k], ring[k + 1]), lo, k)
  {
    var ring', fused := Dropped(ring, k + 1), Fuse(blocks, ring[k], ring[k + 1]);
    forall j | 0 <= j < |ring'| && !(lo <= j < k) ensures ApartAt(ring', fused, j) {
      assert ApartAt(ring, blocks, if j < k then j else j + 1);
      if j > k { assert ring'[j] == ring[j + 1] && ring[j + 1] != ring[k] && ring[j + 1] != ring[k + 1]; }
    }
  }

  // ---------------------------------------------------------------- freeing a block

  /** The live blocks and their sizes. */
  ghost function Live(blocks: Blocks): map<int, int> { map h | h in blocks && !blocks[h].free :: blocks[h].units }

  /** The header fields after the first half of free: bp merged with, or linked to, what follows p. */
  function SizeUp(ptr: map<int, int>, size: map<int, int>, p: int, bp: int): map<int, int>
    requires p in ptr && ptr[p] in size && bp in size
  {
    if bp + size[bp] == ptr[p] then size[bp := size[bp] + size[ptr[p]]] else size
  }

  function PtrUp(ptr: map<int, int>, size: map<int, int>, p: int, bp: int): map<int, int>
    requires p in ptr && ptr[p] in ptr && bp in size
  {
    if bp + size[bp] == ptr[p] then ptr[bp := ptr[ptr[p]]] else ptr[bp := ptr[p]]
  }

  /** And after the second half: p merged with, or linked to, bp. */
  function SizeDown(size: map<int, int>, p: int, bp: int): map<int, int>
    requires p in size && bp in size
  {
    if p + size[p] == bp then size[p := size[p] + size[bp]] else size
  }

  function PtrDown(ptr: map<int, int>, size: map<int, int>, p: int, bp: int): map<int, int>
    requires p in size && bp in ptr
  {
    if p + size[p] == bp then ptr[p := ptr[bp]] else ptr[p := bp]
  }

  /** One stage of a heap: everything the invariant speaks of. */
  datatype Stage = Stage(ptr: map<int, int>, size: map<int, int>, ring: seq<int>, blocks: Blocks, owner: Owner) {
    ghost predicate Ok(base: int) { HeapOk(base, ptr, size, ring, blocks, owner) }
  }

  lemma NodeFacts(base: int, g: Stage, k: int)
    requires g.Ok(base) && 0 <= k < |g.ring|
    ensures LinkAt(g.ring, g.ptr, k) && g.ring[k] in g.size
    ensures k > 0 ==> g.ring[k] in g.blocks && g.ring[k] > base && g.size[g.ring[k]] == g.blocks[g.ring[k]].units > 0
  {
    assert LinkAt(g.ring, g.ptr, k);
    if k > 0 { assert BlockOk(g.blocks, g.owner, g.ring[k]); }
  }

  /** bp enters the ring after node k. */
  lemma FreeInsert(base: int, g: Stage, k: int, bp: int) returns (g': Stage)
    requires g.Ok(base) && ApartBut(g.ring, g.blocks, 0, 0) && Spot(g.ring, k, bp) && bp in g.blocks
    requires !g.blocks[bp].free
    ensures g.ring[k] in g.ptr && g'.ptr == g.ptr[bp := g.ptr[g.ring[k]]][g.ring[k] := bp] && g'.size == g.size
    ensures g'.Ok(base) && ApartBut(g'.ring, g'.blocks, k, k + 2) && g'.ring == Inserted(g.ring, k, bp)
    ensures g'.owner == g.owner && g'.blocks == Mark(g.blocks, bp, true)
    ensures Live(g'.blocks) == Live(g.blocks) - {bp}
    ensures LiveUnits(g'.blocks, g'.owner) == LiveUnits(g.blocks, g.owner) - Span(bp, g.blocks[bp].units)
    ensures k + 1 < |g'.ring| && g'.ring[k + 1] == bp && g'.ring[k] == g.ring[k]
  {
    NodeFacts(base, g, k);
    MarkTiled(g.blocks, g.owner, bp, true);
    InsertOk(base, g.ptr, g.size, g.ring, g.blocks, g.owner, k, bp);
    InsertApart(g.ring, g.blocks, k, bp);
    g' := Stage(g.ptr[bp := g.ptr[g.ring[k]]][g.ring[k] := bp], g.size, Inserted(g.ring, k, bp), Mark(g.blocks, bp,
        true), g.owner);
  }

  /** Node k is merged with the next one if it ends where that begins. */
  lemma FreeFuse(base: int, g: Stage, k: int, lo: int, a: int) returns (g': Stage)
    requires 0 <= k < |g.ring| && g.ring[k] == a
    requires g.Ok(base) && 0 <= k < |g.ring| && |g.ring| > 1 && lo <= k && ApartBut(g.ring, g.blocks, lo, k + 1)
    ensures a in g.ptr && a in g.size
    ensures if a + g.size[a] == g.ptr[a]
      then g.ptr[a] in g.ptr && g.ptr[a] in g.size && g'.ptr == g.ptr[a := g.ptr[g.ptr[a]]] &&
      g'.size == g.size[a := g.size[a] + g.size[g.ptr[a]]]
      else g'.ptr == g.ptr && g'.size == g.size
    ensures g'.Ok(base) && ApartBut(g'.ring, g'.blocks, lo, k) && Live(g'.blocks) == Live(g.blocks)
    ensures g'.owner.Keys == g.owner.Keys
    ensures LiveUnits(g'.blocks, g'.owner) == LiveUnits(g.blocks, g.owner)
    ensures k < |g'.ring| && forall j :: 0 <= j <= k ==> g'.ring[j] == g.ring[j]
  {
    NodeFacts(base, g, k);
    NodeFacts(base, g, Succ(|g.ring|, k));
    var b := g.ptr[a];
    if a + g.size[a] == b {
      FuseHere(base, g, k);
      FuseOk(base, g.ptr, g.size, g.ring, g.blocks, g.owner, k);
      FuseTiled(g.blocks, g.owner, a, b);
      FuseApart(g.ring, g.blocks, k, lo);
      g' := Stage(g.ptr[a := g.ptr[b]], g.size[a := g.size[a] + g.size[b]], Dropped(g.ring, k + 1), Fuse(g.blocks, a,
          b), FuseOwner(g.owner, a, b));
    } else {
      g' := g;
      assert ApartAt(g.ring, g.blocks, k);
    }
  }

  /** Only neighbours in the ring above the base touch. */
  lemma FuseHere(base: int, g: Stage, k: int)
    requires g.Ok(base) && 0 <= k < |g.ring| && |g.ring| > 1 && LinkAt(g.ring, g.ptr, k) && g.ring[k] in g.size
    requires g.ring[k] + g.size[g.ring[k]] == g.ptr[g.ring[k]]
    ensures 1 <= k < |g.ring| - 1
  {
    NodeFacts(base, g, k);
  }

  lemma NotInRing(base: int, g: Stage, k: int, b: int)
    requires g.Ok(base) && Spot(g.ring, k, b)
    ensures b !in g.ring && g.ring[Succ(|g.ring|, k)] != b && g.ring[k] != b
  {
  }

  lemma BlockFacts(base: int, g: Stage, h: int)
    requires g.Ok(base) && h in g.blocks
    ensures h in g.size && g.size[h] == g.blocks[h].units > 0
  {
    assert BlockOk(g.blocks, g.owner, h);
  }

  /** The first half of free, with p already linked to bp. */
  lemma ReleasedUp(base: int, g: Stage, k: int, bp: int) returns (g2: Stage)
    requires g.Ok(base) && ApartBut(g.ring, g.blocks, 0, 0) && Spot(g.ring, k, bp) && bp in g.blocks
    requires !g.blocks[bp].free
    ensures g.ring[k] in g.ptr && bp in g.size && g.ptr[g.ring[k]] in g.ptr && g.ptr[g.ring[k]] in g.size
    ensures g2.size == SizeUp(g.ptr, g.size, g.ring[k], bp)
    ensures g2.ptr == PtrUp(g.ptr, g.size, g.ring[k], bp)[g.ring[k] := bp]
    ensures g2.Ok(base) && ApartBut(g2.ring, g2.blocks, k, k + 1)
    ensures k + 1 < |g2.ring| && g2.ring[k] == g.ring[k] && g2.ring[k + 1] == bp
    ensures Live(g2.blocks) == Live(g.blocks) - {bp} && g2.owner.Keys == g.owner.Keys
    ensures LiveUnits(g2.blocks, g2.owner) == LiveUnits(g.blocks, g.owner) - Span(bp, g.blocks[bp].units)
  {
    NotInRing(base, g, k, bp);
    BlockFacts(base, g, bp);
    hide HeapOk;
    hide ApartBut;
    hide Live;
    hide LiveUnits;
    hide Span;
    hide Inserted;
    NodeFacts(base, g, k);
    NodeFacts(base, g, Succ(|g.ring|, k));
    var g1 := FreeInsert(base, g, k, bp);
    g2 := FreeFuse(base, g1, k + 1, k, bp);
    UpMaps(g.ptr, g.size, g.ring[k], bp, g1.ptr, g2.ptr, g2.size);
  }

  /** The header fields after the insertion and one merge are those the code computes. */
  lemma UpMaps(ptr: map<int, int>, size: map<int, int>, p: int, bp: int, ptr1: map<int, int>, ptr2: map<int, int>,
               size2: map<int, int>)
    requires p in ptr && ptr[p] in ptr && ptr[p] in size && bp in size && p != bp && p < bp && ptr[p] != bp
    requires size[bp] >= 0
    requires ptr1 == ptr[bp := ptr[p]][p := bp]
    requires if bp + size[bp] == ptr1[bp]
      then ptr1[bp] in ptr1 && ptr2 == ptr1[bp := ptr1[ptr1[bp]]] && size2 == size[bp := size[bp] + size[ptr1[bp]]]
      else ptr2 == ptr1 && size2 == size
    ensures ptr2 == PtrUp(ptr, size, p, bp)[p := bp] && size2 == SizeUp(ptr, size, p, bp)
  {
  }

  /** The whole of free, given the place it found. */
  lemma Released(base: int, g: Stage, k: int, bp: int) returns (g': Stage)
    requires g.Ok(base) && ApartBut(g.ring, g.blocks, 0, 0) && Spot(g.ring, k, bp) && bp in g.blocks
    requires !g.blocks[bp].free
    ensures g.ring[k] in g.ptr && g.ring[k] in g.size && bp in g.size && g.ptr[g.ring[k]] in g.ptr
    ensures g.ptr[g.ring[k]] in g.size
    ensures g'.size == SizeDown(SizeUp(g.ptr, g.size, g.ring[k], bp), g.ring[k], bp)
    ensures g'.ptr == PtrDown(PtrUp(g.ptr, g.size, g.ring[k], bp), SizeUp(g.ptr, g.size, g.ring[k], bp), g.ring[k], bp)
    ensures g'.Ok(base) && ApartBut(g'.ring, g'.blocks, 0, 0) && g.ring[k] in g'.ring
    ensures Live(g'.blocks) == Live(g.blocks) - {bp} && g'.owner.Keys == g.owner.Keys
    ensures LiveUnits(g'.blocks, g'.owner) == LiveUnits(g.blocks, g.owner) - Span(bp, g.blocks[bp].units)
  {
    NodeFacts(base, g, k);
    var g2 := ReleasedUp(base, g, k, bp);
    NodeFacts(base, g2, k);
    g' := FreeFuse(base, g2, k, k, g.ring[k]);
  }

  // ---------------------------------------------------------------- taking a block

  /** A whole free block leaves the ring. */
  lemma TakeWhole(base: int, g: Stage, k: int) returns (g': Stage)
    requires g.Ok(base) && ApartBut(g.ring, g.blocks, 0, 0) && 1 <= k < |g.ring|
    ensures g.ring[k] in g.ptr && g.ring[k] in g.blocks
    ensures g'.ptr == g.ptr[g.ring[k - 1] := g.ptr[g.ring[k]]] && g'.size == g.size && g'.owner == g.owner
    ensures g'.Ok(base) && ApartBut(g'.ring, g'.blocks, 0, 0) && g.ring[k - 1] in g'.ring
    ensures Live(g'.blocks) == Live(g.blocks)[g.ring[k] := g.blocks[g.ring[k]].units]
    ensures LiveUnits(g'.blocks, g'.owner) == LiveUnits(g.blocks, g.owner) + Span(g.ring[k], g.blocks[g.ring[k]].units)
    ensures Span(g.ring[k], g.blocks[g.ring[k]].units) !! LiveUnits(g.blocks, g.owner)
  {
    var p := g.ring[k];
    NodeFacts(base, g, k);
    WholeOk(base, g, k);
    MarkTiled(g.blocks, g.owner, p, false);
    DropMembers(g.ring, k, g.ring[k - 1]);
    DropApart(base, g, k);
    FreeNotLive(g.blocks, g.owner, p);
    hide HeapOk;
    hide ApartBut;
    hide LiveUnits;
    hide Span;
    hide Dropped;
    g' := Stage(g.ptr[g.ring[k - 1] := g.ptr[p]], g.size, Dropped(g.ring, k), Mark(g.blocks, p, false), g.owner);
  }

  lemma WholeOk(base: int, g: Stage, k: int)
    requires g.Ok(base) && 1 <= k < |g.ring|
    ensures g.ring[k] in g.ptr && g.ring[k] in g.blocks && g.blocks[g.ring[k]].free
    ensures HeapOk(base, g.ptr[g.ring[k - 1] := g.ptr[g.ring[k]]], g.size, Dropped(g.ring, k), Mark(g.blocks,
        g.ring[k], false), g.owner)
  {
    NodeFacts(base, g, k);
    DropLinked(g.ring, g.ptr, k);
    DropSorted(g.ring, k);
    MarkTiled(g.blocks, g.owner, g.ring[k], false);
    hide Tiled;
    hide Linked;
    DropCovers(base, g.ring, g.blocks, k, Mark(g.blocks, g.ring[k], false));
  }

  lemma FreeNotLive(blocks: Blocks, owner: Owner, h: int)
    requires Tiled(blocks, owner) && h in blocks && blocks[h].free
    ensures Span(h, blocks[h].units) !! LiveUnits(blocks, owner)
  {
    assert BlockOk(blocks, owner, h);
  }

  lemma DropApart(base: int, g: Stage, k: int)
    requires g.Ok(base) && ApartBut(g.ring, g.blocks, 0, 0) && 1 <= k < |g.ring| && g.ring[k] in g.blocks
    ensures ApartBut(Dropped(g.ring, k), Mark(g.blocks, g.ring[k], false), 0, 0)
  {
    var ring', marked := Dropped(g.ring, k), Mark(g.blocks, g.ring[k], false);
    forall j | 0 <= j < |ring'| ensures ApartAt(ring', marked, j) {
      if 1 <= j < |ring'| - 1 {
        NodeFacts(base, g, if j < k then j else j + 1);
        assert ApartAt(g.ring, g.blocks, if j < k then j else j + 1);
        if j == k - 1 { Disjoint(g.blocks, g.owner, g.ring[j], g.ring[k]); }
      }
    }
  }

  /** The tail of a larger free block becomes a live block; the ring stays. */
  lemma TakeTail(base: int, g: Stage, k: int, n: int) returns (g': Stage)
    requires g.Ok(base) && ApartBut(g.ring, g.blocks, 0, 0) && 1 <= k < |g.ring| && g.ring[k] in g.blocks
    requires 0 < n < g.blocks[g.ring[k]].units
    ensures var rest := g.blocks[g.ring[k]].units - n;
      && g'.ptr == g.ptr && g'.size == g.size[g.ring[k] := rest][g.ring[k] + rest := n] && g'.ring == g.ring
      && g'.Ok(base) && ApartBut(g'.ring, g'.blocks, 0, 0) && g'.owner.Keys == g.owner.Keys
      && Live(g'.blocks) == Live(g.blocks)[g.ring[k] + rest := n]
      && LiveUnits(g'.blocks, g'.owner) == LiveUnits(g.blocks, g.owner) + Span(g.ring[k] + rest, n)
      && Span(g.ring[k] + rest, n) !! LiveUnits(g.blocks, g.owner)
  {
    var p := g.ring[k];
    var rest := g.blocks[p].units - n;
    NodeFacts(base, g, k);
    CutApartFrom(g.blocks, g.owner, p, n);
    CutTiled(g.blocks, g.owner, p, n);
    CutLive(g.blocks, g.owner, p, n);
    CutApart(base, g, k, n);
    g' := Stage(g.ptr, g.size[p := rest][p + rest := n], g.ring, Cut(g.blocks, p, n, false), CutOwner(g.owner, p,
        p + rest));
  }

  lemma CutApart(base: int, g: Stage, k: int, n: int)
    requires g.Ok(base) && ApartBut(g.ring, g.blocks, 0, 0) && 1 <= k < |g.ring| && g.ring[k] in g.blocks
    requires 0 < n < g.blocks[g.ring[k]].units && g.ring[k] + g.blocks[g.ring[k]].units - n !in g.blocks
    ensures ApartBut(g.ring, Cut(g.blocks, g.ring[k], n, false), 0, 0)
  {
    forall j | 0 <= j < |g.ring| ensures ApartAt(g.ring, Cut(g.blocks, g.ring[k], n, false), j) {
      if 1 <= j < |g.ring| - 1 {
        NodeFacts(base, g, j);
        NodeFacts(base, g, j + 1);
        assert ApartAt(g.ring, g.blocks, j);
        if j == k { Disjoint(g.blocks, g.owner, g.ring[k], g.ring[k + 1]); }
      }
    }
  }
}
