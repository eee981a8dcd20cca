/**
The slab allocator of `kmalloc.c`. A slab is a run of pages: a header, an array of free
indices that threads the free slots, and the objects.
 */
module Slab {
  import opened Common
  import opened Arithmetic
  import opened Lists

  const PG := 4096
  const HEADER := 40        // sizeof(struct slab)
  const INDEX := 4          // sizeof(int)
  const MIN_OBJS := 128

  // ---------------------------------------------------------------- layout

  /** The pages of a slab for objects of this size. */
  function Pages(size: int): int { (HEADER + (size + INDEX) * MIN_OBJS + PG - 1) / PG }

  /** How many objects these pages hold. */
  function Objs(size: int): int
    requires size > 0
  {
    (Pages(size) * PG - HEADER) / (size + INDEX)
  }

  /** The assertion of slab_create holds, and header, indices and objects fit the pages. */
  lemma LayoutFits(size: int)
    requires size > 0
    ensures Pages(size) > 0 && Objs(size) >= MIN_OBJS
    ensures HEADER + INDEX * Objs(size) + size * Objs(size) <= Pages(size) * PG
  {
    var unit := size + INDEX;
    PagesFit(size);
    DivAtLeast(Pages(size) * PG - HEADER, unit, MIN_OBJS);
    assert unit * Objs(size) == size * Objs(size) + INDEX * Objs(size);
  }

  lemma PagesFit(size: int)
    requires size > 0
    ensures Pages(size) > 0 && Pages(size) * PG - HEADER >= (size + INDEX) * MIN_OBJS
  {
  }

  /** A slot of a slab whose objects start at `objs`. */
  function Address(objs: int, size: int, i: int): int { objs + size * i }

  /** The index computation of kmem_cache_free inverts the address computation of kmem_cache_alloc. */
  lemma IndexInverts(objs: int, size: int, i: int)
    requires size > 0 && i >= 0
    ensures (Address(objs, size, i) - objs) / size == i
  {
    DivUnique(size * i, size, i, 0);
  }

  /** Different slots do not overlap. */
  lemma SlotsApart(objs: int, size: int, i: int, j: int)
    requires size > 0 && i < j
    ensures Address(objs, size, i) + size <= Address(objs, size, j)
  {
    assert size * (i + 1) <= size * j;
  }

  // ---------------------------------------------------------------- the chain of free slots

  function Head(chain: seq<int>, k: int): int { if 0 <= k < |chain| then chain[k] else -1 }

  ghost predicate LinkAt(arr: seq<int>, chain: seq<int>, k: int)
    requires 0 <= k < |chain|
  {
    0 <= chain[k] < |arr| && arr[chain[k]] == Head(chain, k + 1)
  }

  /** From `free` the array leads through the chain, each slot once, to -1. */
  ghost predicate ChainOk(free: int, arr: seq<int>, chain: seq<int>) {
    free == Head(chain, 0) && NoDup(chain) &&
    forall k {:trigger LinkAt(arr, chain, k)} :: 0 <= k < |chain| ==> LinkAt(arr, chain, k)
  }

  lemma PopChain(free: int, arr: seq<int>, chain: seq<int>)
    requires ChainOk(free, arr, chain) && free != -1
    ensures chain != [] && free == chain[0] && 0 <= free < |arr| && ChainOk(arr[free], arr, chain[1..])
    ensures free !in chain[1..]
  {
    assert LinkAt(arr, chain, 0);
    forall k | 0 <= k < |chain| - 1 ensures LinkAt(arr, chain[1..], k) { assert LinkAt(arr, chain, k + 1); }
  }

  lemma PushChain(free: int, arr: seq<int>, chain: seq<int>, i: int)
    requires ChainOk(free, arr, chain) && 0 <= i < |arr| && i !in chain
    ensures ChainOk(i, arr[i := free], [i] + chain)
  {
    var arr', chain' := arr[i := free], [i] + chain;
    forall k | 0 <= k < |chain'| ensures LinkAt(arr', chain', k) {
      if k > 0 { assert LinkAt(arr, chain, k - 1) && chain'[k] == chain[k - 1]; }
    }
  }

  // ---------------------------------------------------------------- slabs

  datatype SlabRec = SlabRec(objs: int, free: int, pages: int, arr: seq<int>)

  /** A slab at address a, for objects of this size, with the given free slots. */
  ghost predicate SlabOk(size: int, a: int, s: SlabRec, chain: seq<int>) {
    && size > 0 && a % PG == 0 && s.pages == Pages(size) && |s.arr| == Objs(size)
    && s.objs == a + HEADER + INDEX * |s.arr| && ChainOk(s.free, s.arr, chain)
  }

  /** A slot lies in the pages of its slab, after the index array. */
  lemma SlotInside(size: int, a: int, s: SlabRec, chain: seq<int>, i: int)
    requires SlabOk(size, a, s, chain) && 0 <= i < |s.arr|
    ensures a + HEADER + INDEX * |s.arr| <= Address(s.objs, size, i)
    ensures Address(s.objs, size, i) + size <= a + s.pages * PG
  {
    LayoutFits(size);
    MulWithin(size, i, |s.arr|);
  }

  /** The page of a slot is one of the slab's pages. */
  lemma SlotPage(size: int, a: int, s: SlabRec, chain: seq<int>, i: int)
    requires SlabOk(size, a, s, chain) && 0 <= i < |s.arr|
    ensures a / PG <= Address(s.objs, size, i) / PG < a / PG + s.pages
  {
    SlotInside(size, a, s, chain, i);
    LayoutFits(size);
  }

  // ---------------------------------------------------------------- caches

  /** Slabs by address, their free slots, the lists of slabs with and without a free slot, and page->slab. */
  datatype CacheState = CacheState(
    slabs: map<int, SlabRec>, free: seq<int>, full: seq<int>, pageSlab: map<int, int>, chains: map<int, seq<int>>)

  ghost predicate PageOk(st: CacheState, a: int, q: int) { q in st.pageSlab && st.pageSlab[q] == a }

  ghost predicate SlabAt(st: CacheState, size: int, a: int)
    requires a in st.slabs
  {
    && a in st.chains && SlabOk(size, a, st.slabs[a], st.chains[a])
    && (forall q {:trigger PageOk(st, a, q)} :: a / PG <= q < a / PG + st.slabs[a].pages ==> PageOk(st, a, q))
    && (a in st.full <==> st.chains[a] == []) && (a in st.free <==> st.chains[a] != [])
  }

  ghost predicate CacheOk(st: CacheState, size: int) {
    && size > 0 && NoDup(st.free) && NoDup(st.full)
    && (forall a {:trigger SlabAt(st, size, a)} :: a in st.slabs ==> SlabAt(st, size, a))
    && (forall a :: a in st.free || a in st.full ==> a in st.slabs)
  }

  /** Slot i of slab a is in use. */
  ghost predicate InUse(st: CacheState, a: int, i: int) {
    a in st.slabs && a in st.chains && 0 <= i < |st.slabs[a].arr| && i !in st.chains[a]
  }

  /** Slabs share no page. */
  lemma SlabsApart(st: CacheState, size: int, a: int, b: int)
    requires CacheOk(st, size) && a in st.slabs && b in st.slabs && a != b
    ensures a + st.slabs[a].pages * PG <= b || b + st.slabs[b].pages * PG <= a
  {
    assert SlabAt(st, size, a) && SlabAt(st, size, b);
    LayoutFits(size);
    assert PageOk(st, a, a / PG) && PageOk(st, b, b / PG);
    assert a < b < a + st.slabs[a].pages * PG ==> PageOk(st, a, b / PG);
    assert b < a < b + st.slabs[b].pages * PG ==> PageOk(st, b, a / PG);
  }

  /** Objects in use do not overlap, whichever slabs they are in. */
  lemma ObjectsApart(st: CacheState, size: int, a: int, i: int, b: int, j: int)
    requires CacheOk(st, size) && InUse(st, a, i) && InUse(st, b, j) && (a != b || i != j)
    ensures var x, y := Address(st.slabs[a].objs, size, i), Address(st.slabs[b].objs, size, j);
      x + size <= y || y + size <= x
  {
    assert SlabAt(st, size, a) && SlabAt(st, size, b);
    if a == b {
      if i < j { SlotsApart(st.slabs[a].objs, size, i, j); } else { SlotsApart(st.slabs[a].objs, size, j, i); }
    } else {
      SlotInside(size, a, st.slabs[a], st.chains[a], i);
      SlotInside(size, b, st.slabs[b], st.chains[b], j);
      SlabsApart(st, size, a, b);
    }
  }

  // ---------------------------------------------------------------- changes

  ghost function Fresh(n: int): (c: seq<int>)
    requires n >= 0
    ensures |c| == n && forall i :: 0 <= i < n ==> c[i] == i
  {
    seq(n, i => i)
  }

  /** A new slab, all of whose slots are free, at the end of the list. */
  lemma CreateOk(st: CacheState, size: int, a: int, arr: seq<int>, pageSlab: map<int, int>)
    requires CacheOk(st, size) && a % PG == 0 && a !in st.slabs && |arr| == Objs(size)
    requires forall i :: 0 <= i < |arr| ==> arr[i] == if i + 1 < |arr| then i + 1 else -1
    requires forall q :: q in st.pageSlab ==> q in pageSlab && pageSlab[q] == st.pageSlab[q]
    requires forall q :: a / PG <= q < a / PG + Pages(size) ==> q in pageSlab && pageSlab[q] == a
    ensures CacheOk(CacheState(st.slabs[a := SlabRec(a + HEADER + INDEX * |arr|, 0, Pages(size), arr)], st.free + [a],
        st.full,
                               pageSlab, st.chains[a := Fresh(|arr|)]), size)
  {
    LayoutFits(size);
    var st' := CacheState(st.slabs[a := SlabRec(a + HEADER + INDEX * |arr|, 0, Pages(size), arr)], st.free + [a],
        st.full,
                          pageSlab, st.chains[a := Fresh(|arr|)]);
    forall k | 0 <= k < |arr| ensures LinkAt(arr, Fresh(|arr|), k) {}
    forall b | b in st'.slabs ensures SlabAt(st', size, b) {
      if b != a {
        assert SlabAt(st, size, b);
        forall q | b / PG <= q < b / PG + st.slabs[b].pages ensures PageOk(st', b, q) { assert PageOk(st, b, q); }
      }
    }
  }

  /** Slab a with a new free chain, and on the list it belongs to. */
  ghost predicate Rechained(st: CacheState, st': CacheState, size: int, a: int) {
    && a in st.slabs && st'.slabs.Keys == st.slabs.Keys && st'.pageSlab == st.pageSlab
    && st'.chains.Keys == st.chains.Keys
    && (forall b :: b in st.slabs && b != a ==> st'.slabs[b] == st.slabs[b])
    && (forall b :: b in st.chains && b != a ==> st'.chains[b] == st.chains[b])
    && (forall b :: b != a ==> (b in st'.free <==> b in st.free) && (b in st'.full <==> b in st.full))
  }

  lemma RechainOk(st: CacheState, st': CacheState, size: int, a: int)
    requires CacheOk(st, size) && Rechained(st, st', size, a) && NoDup(st'.free) && NoDup(st'.full)
    requires a in st'.chains && SlabOk(size, a, st'.slabs[a], st'.chains[a])
    requires (a in st'.full <==> st'.chains[a] == []) && (a in st'.free <==> st'.chains[a] != [])
    ensures CacheOk(st', size)
  {
    assert SlabAt(st, size, a);
    forall b | b in st'.slabs ensures SlabAt(st', size, b) {
      assert SlabAt(st, size, b);
      forall q | b / PG <= q < b / PG + st.slabs[b].pages ensures PageOk(st', b, q) { assert PageOk(st, b, q); }
    }
  }

  /** The first free slot of slab a is taken; a slab without free slots changes lists. */
  ghost function Taken(st: CacheState, a: int): CacheState
    requires a in st.slabs && 0 <= st.slabs[a].free < |st.slabs[a].arr| && a in st.chains && st.chains[a] != []
  {
    var next := st.slabs[a].arr[st.slabs[a].free];
    var st1 := st.(slabs := st.slabs[a := st.slabs[a].(free := next)], chains := st.chains[a := st.chains[a][1..]]);
    if next == -1 then st1.(free := Without(st.free, a), full := st.full + [a]) else st1
  }

  lemma TakeOk(st: CacheState, size: int, a: int)
    requires CacheOk(st, size) && a in st.free
    ensures a in st.slabs && 0 <= st.slabs[a].free < |st.slabs[a].arr| && a in st.chains && st.chains[a] != []
    ensures CacheOk(Taken(st, a), size) && !InUse(st, a, st.slabs[a].free)
    ensures forall b, j :: InUse(Taken(st, a), b, j) <==> (b == a && j == st.slabs[a].free) || InUse(st, b, j)
  {
    assert SlabAt(st, size, a);
    var s, chain := st.slabs[a], st.chains[a];
    assert LinkAt(s.arr, chain, 0);
    PopChain(s.free, s.arr, chain);
    WithoutFacts(st.free, a);
    LastOne(s, chain);
    RechainOk(st, Taken(st, a), size, a);
    assert chain == [chain[0]] + chain[1..];
  }

  lemma LastOne(s: SlabRec, chain: seq<int>)
    requires ChainOk(s.free, s.arr, chain) && chain != [] && 0 <= s.free < |s.arr|
    ensures s.arr[s.free] == -1 <==> chain[1..] == []
  {
    assert LinkAt(s.arr, chain, 0);
    if |chain| > 1 { assert LinkAt(s.arr, chain, 1); }
  }

  /** Slot i of slab a is given back; a slab that was full changes lists. */
  ghost function Returned(st: CacheState, a: int, i: int): CacheState
    requires a in st.slabs && 0 <= i < |st.slabs[a].arr| && a in st.chains
  {
    var s := st.slabs[a];
    var st1 := st.(slabs := st.slabs[a := s.(free := i, arr := s.arr[i := s.free])],
        chains := st.chains[a := [i] + st.chains[a]]);
    if s.free == -1 then st1.(full := Without(st.full, a), free := st.free + [a]) else st1
  }

  lemma ReturnOk(st: CacheState, size: int, a: int, i: int)
    requires CacheOk(st, size) && InUse(st, a, i)
    ensures CacheOk(Returned(st, a, i), size)
    ensures forall b, j :: InUse(Returned(st, a, i), b, j) <==> !(b == a && j == i) && InUse(st, b, j)
  {
    assert SlabAt(st, size, a);
    var s, chain := st.slabs[a], st.chains[a];
    PushChain(s.free, s.arr, chain, i);
    WithoutFacts(st.full, a);
    if |chain| > 0 { assert LinkAt(s.arr, chain, 0); }
    RechainOk(st, Returned(st, a, i), size, a);
  }

  /** The size classes of kmalloc. */
  function Classes(): (c: seq<int>)
    ensures |c| == 8 && forall i, j :: 0 <= i < j < |c| ==> c[i] < c[j]
  {
    [32, 64, 128, 256, 512, 1024, 2048, 4096]
  }

  /** The choice of kmalloc: the smallest class that is large enough; none for size 0 and above 4096. */
  method SizeClass(size: int) returns (c: Option<int>)
    requires size >= 0
    ensures c.None? <==> size == 0 || size > 4096
    ensures c.Some? ==>
      c.value in Classes() && c.value >= size && forall d :: d in Classes() && d >= size ==> c.value <= d
  {
    if size == 0 || size > Classes()[|Classes()| - 1] {
      return None;
    }
    for i := 0 to |Classes()|
      invariant forall j :: 0 <= j < i ==> Classes()[j] < size
    {
      if Classes()[i] >= size {
        return Some(Classes()[i]);
      }
    }
    assert false;
  }

  class Cache {
    const size: int
    var slabs: map<int, SlabRec>
    var free: seq<int>
    var full: seq<int>
    var pageSlab: map<int, int>
    ghost var chains: map<int, seq<int>>

    ghost function St(): CacheState
      reads this
    {
      CacheState(slabs, free, full, pageSlab, chains)
    }

    ghost predicate Valid()
      reads this
    {
      CacheOk(St(), size)
    }

    /** The slots in use are those of before, and slot i of slab a if `more`, without it if not. */
    ghost predicate InUseBut(st: CacheState, a: int, i: int, more: bool)
      reads this
    {
      forall b, j :: InUse(St(), b, j) <==> if b == a && j == i then more else InUse(st, b, j)
    }

    /** The loop that fills the index array. */
    static method FreeArray(n: int) returns (arr: seq<int>)
      requires n > 0
      ensures |arr| == n && forall i :: 0 <= i < n ==> arr[i] == if i + 1 < n then i + 1 else -1
    {
      arr := [];
      for i := 0 to n - 1
        invariant |arr| == i && forall j :: 0 <= j < i ==> arr[j] == j + 1
      {
        arr := arr + [i + 1];
      }
      arr := arr + [-1];
    }

    /** The loop that links pages to their slab. */
    static method LinkPages(pages: map<int, int>, first: int, n: int, a: int) returns (pages': map<int, int>)
      requires n >= 0 && forall q :: first <= q < first + n ==> q !in pages
      ensures forall q :: q in pages ==> q in pages' && pages'[q] == pages[q]
      ensures forall q :: first <= q < first + n ==> q in pages' && pages'[q] == a
    {
      pages' := pages;
      for i := 0 to n
        invariant forall q :: q in pages ==> q in pages' && pages'[q] == pages[q]
        invariant forall q :: first <= q < first + i ==> q in pages' && pages'[q] == a
      {
        pages' := pages'[first + i := a];
      }
    }

    /** slab_create on new pages: every slot is free. */
    method SlabCreate(a: int)
      requires Valid() && a % PG == 0 && a !in slabs
      requires forall q :: a / PG <= q < a / PG + Pages(size) ==> q !in pageSlab
      modifies this
      ensures Valid() && a in slabs && free == old(free) + [a] && InUseBut(old(St()), a, -1, false)
    {
      LayoutFits(size);
      var n := Objs(size);
      var arr := FreeArray(n);
      var pages := LinkPages(pageSlab, a / PG, Pages(size), a);
      CreateOk(St(), size, a, arr, pages);
      hide CacheOk;
      slabs := slabs[a := SlabRec(a + HEADER + INDEX * n, 0, Pages(size), arr)];
      pageSlab := pages;
      chains := chains[a := Fresh(n)];
      free := free + [a];
      forall j | 0 <= j < n ensures j in chains[a] { assert chains[a][j] == j; }
    }

    /**
    kmem_cache_alloc, with the pages the page allocator would give. The object is a slot that
    was free; it fails only if no slab has a free slot and there are no pages.
     */
    method Alloc(pages: Option<int>) returns (obj: Option<int>, ghost a: int, ghost i: int)
      requires Valid()
      requires pages.Some? ==> pages.value % PG == 0 && pages.value !in slabs
      requires pages.Some? ==> forall q :: pages.value / PG <= q < pages.value / PG + Pages(size) ==> q !in pageSlab
      modifies this
      ensures Valid() && (obj.None? <==> old(free) == [] && pages.None?)
      ensures obj.None? ==> St() == old(St())
      ensures obj.Some? ==> InUse(St(), a, i) && obj.value == Address(slabs[a].objs, size, i) && !old(InUse(St(), a, i))
      ensures obj.Some? ==> InUseBut(old(St()), a, i, true)
    {
      var slab;
      if free == [] {
        if pages.None? {
          return None, 0, 0;
        }
        slab := pages.value;
        SlabCreate(slab);
      } else {
        slab := free[0];
      }
      TakeOk(St(), size, slab);
      a, i := slab, slabs[slab].free;
      obj := Some(Address(slabs[slab].objs, size, slabs[slab].free));
      var next := slabs[slab].arr[slabs[slab].free];
      slabs := slabs[slab := slabs[slab].(free := next)];
      chains := chains[slab := chains[slab][1..]];
      if next == -1 {
        free, full := Without(free, slab), full + [slab];
      }
    }

    /** kmem_cache_free of an object in use: the slab and the slot are found from the address alone. */
    method Free(obj: int, ghost a: int, ghost i: int)
      requires Valid() && InUse(St(), a, i) && obj == Address(slabs[a].objs, size, i)
      modifies this
      ensures Valid() && InUseBut(old(St()), a, i, false)
    {
      assert SlabAt(St(), size, a);
      SlotPage(size, a, slabs[a], chains[a], i);
      assert PageOk(St(), a, obj / PG);
      IndexInverts(slabs[a].objs, size, i);
      ReturnOk(St(), size, a, i);
      var slab := pageSlab[obj / PG];
      var s := slabs[slab];
      var index := (obj - s.objs) / size;
      slabs := slabs[slab := s.(free := index, arr := s.arr[index := s.free])];
      chains := chains[slab := [index] + chains[slab]];
      if s.free == -1 {
        full, free := Without(full, slab), free + [slab];
      }
    }
  }
}
