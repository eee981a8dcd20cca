/**
Tilings of physical memory by aligned power-of-two blocks, as the binary buddy
allocator maintains them.

Alignment and the side of a block within its pair are read off the binary digits of
its first page, so that two aligned blocks are nested or disjoint by induction on
digits. The `%`, `/` and shifts of the source are tied to these digits at the end.
 */
module BuddyModel {
  import opened Arithmetic

  const MAX_ORDER: nat := 10

  /** 1 << o. */
  function Pow2(o: nat): (r: int)
    ensures r > 0
  {
    if o == 0 then 1 else 2 * Pow2(o - 1)
  }

  /** The low o digits of h are zero. */
  predicate Aligned(h: int, o: nat)
    decreases o
  {
    o == 0 || (h % 2 == 0 && Aligned(h / 2, o - 1))
  }

  /** Digit o of h is one: an order-o block at h is the upper of its pair. */
  predicate Upper(h: int, o: nat)
    decreases o
  {
    if o == 0 then h % 2 == 1 else Upper(h / 2, o - 1)
  }

  /** The other block of the pair. */
  function Buddy(h: int, o: nat): int { if Upper(h, o) then h - Pow2(o) else h + Pow2(o) }

  /** Where the pair starts. */
  function Lower(h: int, o: nat): int { if Upper(h, o) then h - Pow2(o) else h }

  // ---------------------------------------------------------------- dyadic nesting

  lemma {:induction false} AlignedDown(h: int, o: nat, r: nat)
    requires Aligned(h, o) && r <= o
    ensures Aligned(h, r)
    decreases o
  {
    if 0 < r { AlignedDown(h / 2, o - 1, r - 1); }
  }

  lemma {:induction false} BuddyBasics(h: int, o: nat)
    requires Aligned(h, o)
    ensures Aligned(Buddy(h, o), o) && Upper(Buddy(h, o), o) == !Upper(h, o) && Buddy(Buddy(h, o), o) == h
    ensures Aligned(Lower(h, o), o + 1) && Lower(Buddy(h, o), o) == Lower(h, o)
    decreases o
  {
    if o > 0 {
      BuddyBasics(h / 2, o - 1);
      assert Buddy(h, o) / 2 == Buddy(h / 2, o - 1) && Lower(h, o) / 2 == Lower(h / 2, o - 1);
    }
  }

  /** The two halves of an aligned block. */
  lemma {:induction false} Halves(h: int, o: nat)
    requires Aligned(h, o + 1)
    ensures Aligned(h, o) && !Upper(h, o) && Aligned(h + Pow2(o), o) && Buddy(h, o) == h + Pow2(o)
    decreases o
  {
    if o > 0 {
      Halves(h / 2, o - 1);
      assert (h + Pow2(o)) / 2 == h / 2 + Pow2(o - 1);
    }
  }

  /** Aligned blocks that share a page are nested. */
  lemma {:induction false} Nest(h: int, o: nat, g: int, r: nat, p: int)
    requires Aligned(h, o) && Aligned(g, r) && o <= r
    requires h <= p < h + Pow2(o) && g <= p < g + Pow2(r)
    ensures g <= h && h + Pow2(o) <= g + Pow2(r)
    decreases o
  {
    if o > 0 { Nest(h / 2, o - 1, g / 2, r - 1, p / 2); }
  }

  lemma {:induction false} LowerNat(h: int, o: nat)
    requires 0 <= h
    ensures 0 <= Lower(h, o)
    decreases o
  {
    if o > 0 {
      LowerNat(h / 2, o - 1);
      assert Upper(h, o) ==> Pow2(o - 1) <= h / 2;
    }
  }

  // ---------------------------------------------------------------- tilings

  datatype Block = Block(order: nat, free: bool)

  /** Pages 0 to n cut into blocks; `owner` names the block each page lies in. */
  datatype Tiling = Tiling(n: nat, blocks: map<int, Block>, owner: seq<int>)
  {
    predicate Within(p: int, h: int)
      requires h in blocks
    {
      h <= p < h + Pow2(blocks[h].order)
    }

    ghost predicate BlockOk(h: int)
      requires h in blocks
    {
      0 <= h && blocks[h].order <= MAX_ORDER && Aligned(h, blocks[h].order) && h + Pow2(blocks[h].order) <= n
    }

    /** Page p lies in the block that owns it, and in no other. */
    ghost predicate PageOk(p: int)
      requires 0 <= p < |owner|
    {
      && owner[p] in blocks && Within(p, owner[p])
      && forall h {:trigger Within(p, h)} :: h in blocks && Within(p, h) ==> owner[p] == h
    }

    /** The blocks partition the pages. */
    ghost predicate Partition() {
      && |owner| == n
      && (forall h {:trigger BlockOk(h)} :: h in blocks ==> BlockOk(h))
      && (forall p {:trigger PageOk(p)} :: 0 <= p < n ==> PageOk(p))
    }

    ghost predicate IsFree(h: int) { h in blocks && blocks[h].free }

    /** Block h, free and below the maximal order, and its buddy do not make up one free block. */
    ghost predicate Single(h: int, aside: int)
      requires h in blocks
    {
      blocks[h].free && h != aside && blocks[h].order < MAX_ORDER ==>
        var b := Buddy(h, blocks[h].order);
        !(IsFree(b) && b != aside && blocks[b].order == blocks[h].order)
    }

    /** No two free buddies below the maximal order, leaving out block `aside`. */
    ghost predicate Coalesced(aside: int) {
      forall h {:trigger Single(h, aside)} :: h in blocks ==> Single(h, aside)
    }

    ghost predicate FreePage(p: int) {
      0 <= p < n && p < |owner| && owner[p] in blocks && blocks[owner[p]].free
    }

    ghost function FreePages(): set<int> { set p | 0 <= p < n && FreePage(p) }

    ghost function Pages(h: int): set<int>
      requires h in blocks
    {
      set p | 0 <= p < n && Within(p, h)
    }
  }

  lemma OwnBlock(t: Tiling, h: int)
    requires t.Partition() && h in t.blocks
    ensures 0 <= h < t.n && t.owner[h] == h && t.BlockOk(h)
  {
    assert t.BlockOk(h);
    assert t.PageOk(h) && t.Within(h, h);
  }

  lemma Owner(t: Tiling, p: int)
    requires t.Partition() && 0 <= p < t.n
    ensures t.owner[p] in t.blocks && t.Within(p, t.owner[p]) && t.BlockOk(t.owner[p])
  {
    assert t.PageOk(p) && t.BlockOk(t.owner[p]);
  }

  lemma Owned(t: Tiling, p: int, h: int)
    requires t.Partition() && h in t.blocks && h <= p < h + Pow2(t.blocks[h].order)
    ensures 0 <= p < t.n && t.owner[p] == h
  {
    assert t.BlockOk(h);
    assert t.PageOk(p) && t.Within(p, h);
  }

  /** A block that holds the first page of another's buddy, but not that other, starts there. */
  lemma BuddyHead(h: int, o: nat, g: int, r: nat)
    requires Aligned(h, o) && Aligned(g, r) && g <= Buddy(h, o) < g + Pow2(r) && !(g <= h < g + Pow2(r))
    ensures g == Buddy(h, o) && r <= o
  {
    BuddyBasics(h, o);
    if r <= o {
      Nest(g, r, Buddy(h, o), o, Buddy(h, o));
    } else {
      Nest(Lower(h, o), o + 1, g, r, Buddy(h, o));
      assert false;
    }
  }

  /**
  Whatever block holds the first page of a block's buddy starts there: a page that the
  allocator looks at to decide a merge is always the head of a block, so its `order` and
  `refcnt` are current.
   */
  lemma BuddyIsHead(t: Tiling, h: int)
    requires t.Partition() && h in t.blocks && Buddy(h, t.blocks[h].order) < t.n
    ensures Buddy(h, t.blocks[h].order) in t.blocks
    ensures t.blocks[Buddy(h, t.blocks[h].order)].order <= t.blocks[h].order
  {
    OwnBlock(t, h);
    var o := t.blocks[h].order;
    LowerNat(h, o);
    Owner(t, Buddy(h, o));
    var g := t.owner[Buddy(h, o)];
    if g <= h < g + Pow2(t.blocks[g].order) { Owned(t, h, g); }
    BuddyHead(h, o, g, t.blocks[g].order);
  }

  // ---------------------------------------------------------------- canonical free lists

  /** The order-o block at h lies in memory, and all its pages are free. */
  ghost predicate AllFree(n: int, free: set<int>, h: int, o: nat) {
    0 <= h && h + Pow2(o) <= n && forall p :: h <= p < h + Pow2(o) ==> p in free
  }

  /** A maximal aligned free block of at most the maximal order. */
  ghost predicate Maximal(n: int, free: set<int>, h: int, o: nat) {
    && o <= MAX_ORDER && Aligned(h, o) && AllFree(n, free, h, o)
    && (o < MAX_ORDER ==> !AllFree(n, free, Lower(h, o), o + 1))
  }

  /** In a coalesced tiling, an aligned run of free pages lies inside one block. */
  lemma {:induction false} FreeRunIsCovered(t: Tiling, h: int, o: nat)
    requires t.Partition() && t.Coalesced(-1) && o <= MAX_ORDER && Aligned(h, o) && AllFree(t.n, t.FreePages(), h, o)
    ensures 0 <= h < t.n && t.IsFree(t.owner[h]) && t.blocks[t.owner[h]].order >= o
    decreases o
  {
    assert h in t.FreePages();
    if o > 0 {
      Halves(h, o - 1);
      FreeRunIsCovered(t, h, o - 1);
      FreeRunIsCovered(t, h + Pow2(o - 1), o - 1);
      HalvesCovered(t, h, o);
    }
  }

  /** Aligned blocks of one order that share a page are one block. */
  lemma Same(g: int, h: int, o: nat)
    requires Aligned(g, o) && Aligned(h, o) && g <= h < g + Pow2(o)
    ensures g == h
  {
    Nest(g, o, h, o, h);
  }

  /** A block no smaller than an aligned run that holds its middle page holds its first page. */
  lemma Covers(h: int, o: nat, c: int, q: nat)
    requires 0 < o <= q && Aligned(h, o) && Aligned(c, q) && c <= h + Pow2(o - 1) < c + Pow2(q)
    ensures c <= h < c + Pow2(q)
  {
    Nest(h, o, c, q, h + Pow2(o - 1));
  }

  /** Two blocks over the halves of an aligned run that do not cover it are its halves. */
  lemma TwoHalves(h: int, o: nat, g: int, c: int)
    requires Aligned(h, o + 1) && Aligned(g, o) && Aligned(c, o)
    requires g <= h < g + Pow2(o) && c <= h + Pow2(o) < c + Pow2(o)
    ensures g == h && c == Buddy(h, o)
  {
    Halves(h, o);
    Same(g, h, o);
    Same(c, h + Pow2(o), o);
  }

  /** Of a coalesced tiling no two buddies are free blocks of the same order. */
  lemma NoFreePair(t: Tiling, h: int, o: nat)
    requires t.Partition() && t.Coalesced(-1) && o < MAX_ORDER && t.IsFree(h) && t.blocks[h].order == o && h >= 0
    ensures Buddy(h, o) >= 0 && t.IsFree(Buddy(h, o)) ==> t.blocks[Buddy(h, o)].order != o
  {
    assert t.Single(h, -1);
  }

  lemma HalvesCovered(t: Tiling, h: int, o: nat)
    requires t.Partition() && t.Coalesced(-1) && 0 < o <= MAX_ORDER && Aligned(h, o) && 0 <= h && h + Pow2(o) <= t.n
    requires t.IsFree(t.owner[h]) && t.blocks[t.owner[h]].order >= o - 1
    requires t.IsFree(t.owner[h + Pow2(o - 1)]) && t.blocks[t.owner[h + Pow2(o - 1)]].order >= o - 1
    ensures t.blocks[t.owner[h]].order >= o
  {
    Owner(t, h);
    Owner(t, h + Pow2(o - 1));
    var g, c := t.owner[h], t.owner[h + Pow2(o - 1)];
    if t.blocks[c].order >= o {
      Covers(h, o, c, t.blocks[c].order);
      Owned(t, h, c);
    } else if t.blocks[g].order < o {
      TwoHalves(h, o - 1, g, c);
      NoFreePair(t, h, o - 1);
    }
  }

  /** A free block of a coalesced tiling cannot be extended. */
  lemma FreeIsMaximal(t: Tiling, h: int)
    requires t.Partition() && t.Coalesced(-1) && t.IsFree(h)
    ensures Maximal(t.n, t.FreePages(), h, t.blocks[h].order)
  {
    OwnBlock(t, h);
    var o := t.blocks[h].order;
    InsideFree(t, h, h, o);
    if o < MAX_ORDER && AllFree(t.n, t.FreePages(), Lower(h, o), o + 1) {
      BuddyBasics(h, o);
      var l := Lower(h, o);
      FreeRunIsCovered(t, l, o + 1);
      Owner(t, l);
      Nest(l, o + 1, t.owner[l], t.blocks[t.owner[l]].order, l);
      Owned(t, h, t.owner[l]);
      assert false;
    }
  }

  /** A block larger than an aligned run inside it holds its pair. */
  lemma HoldsPair(h: int, o: nat, g: int, r: nat)
    requires o < r && Aligned(h, o) && Aligned(g, r) && g <= h < g + Pow2(r)
    ensures g <= Lower(h, o) && Lower(h, o) + Pow2(o + 1) <= g + Pow2(r)
  {
    BuddyBasics(h, o);
    Nest(Lower(h, o), o + 1, g, r, h);
  }

  /** A maximal run of free pages is one free block. */
  lemma MaximalIsFree(t: Tiling, h: int, o: nat)
    requires t.Partition() && t.Coalesced(-1) && Maximal(t.n, t.FreePages(), h, o)
    ensures t.IsFree(h) && t.blocks[h].order == o
  {
    FreeRunIsCovered(t, h, o);
    var g := t.owner[h];
    hide AllFree;
    hide Tiling.Partition;
    hide Tiling.Coalesced;
    hide Tiling.FreePages;
    Owner(t, h);
    if t.blocks[g].order > o {
      HoldsPair(h, o, g, t.blocks[g].order);
      InsideFree(t, g, Lower(h, o), o + 1);
      assert false;
    }
    Same(g, h, o);
  }

  /** Any run inside a free block is free. */
  lemma InsideFree(t: Tiling, g: int, h: int, o: nat)
    requires t.Partition() && t.IsFree(g) && g <= h && h + Pow2(o) <= g + Pow2(t.blocks[g].order)
    ensures AllFree(t.n, t.FreePages(), h, o)
  {
    OwnBlock(t, g);
    forall p | h <= p < h + Pow2(o) ensures p in t.FreePages() {
      Owned(t, p, g);
    }
  }

  /**
  The free lists are canonical: the free blocks of a coalesced tiling are exactly the
  maximal aligned blocks of its free pages.
   */
  lemma Canonical(t: Tiling, h: int, o: nat)
    requires t.Partition() && t.Coalesced(-1)
    ensures t.IsFree(h) && t.blocks[h].order == o <==> Maximal(t.n, t.FreePages(), h, o)
  {
    if t.IsFree(h) { FreeIsMaximal(t, h); }
    if Maximal(t.n, t.FreePages(), h, o) { MaximalIsFree(t, h, o); }
  }

  /** Equal free pages mean equal free blocks, whatever the order of allocations and frees. */
  lemma FreeBlocksDetermined(t: Tiling, s: Tiling, h: int)
    requires t.Partition() && t.Coalesced(-1) && s.Partition() && s.Coalesced(-1)
    requires t.n == s.n && t.FreePages() == s.FreePages()
    ensures t.IsFree(h) <==> s.IsFree(h)
    ensures t.IsFree(h) ==> t.blocks[h].order == s.blocks[h].order
  {
    if t.IsFree(h) { Canonical(t, h, t.blocks[h].order); Canonical(s, h, t.blocks[h].order); }
    if s.IsFree(h) { Canonical(t, h, s.blocks[h].order); Canonical(s, h, s.blocks[h].order); }
  }

  // ---------------------------------------------------------------- splitting and joining

  /** Block h cut into its halves. */
  ghost function Split(t: Tiling, h: int): Tiling
    requires h in t.blocks && t.blocks[h].order > 0
  {
    var half := t.blocks[h].(order := t.blocks[h].order - 1);
    var m := h + Pow2(half.order);
    t.(blocks := t.blocks[h := half][m := half],
       owner := seq(|t.owner|, p requires 0 <= p < |t.owner| => if t.owner[p] == h && m <= p then m else t.owner[p]))
  }

  lemma SplitBlocks(t: Tiling, h: int)
    requires t.Partition() && h in t.blocks && t.blocks[h].order > 0
    ensures var m := h + Pow2(t.blocks[h].order - 1);
      h < m < t.n && m !in t.blocks && m == Buddy(h, t.blocks[h].order - 1)
    ensures forall g :: g in Split(t, h).blocks ==> Split(t, h).BlockOk(g)
  {
    OwnBlock(t, h);
    var o := t.blocks[h].order - 1;
    var m := h + Pow2(o);
    Halves(h, o);
    Owned(t, m, h);
    if m in t.blocks { OwnBlock(t, m); }
    forall g | g in Split(t, h).blocks ensures Split(t, h).BlockOk(g) {
      assert g in t.blocks ==> t.BlockOk(g);
    }
  }

  lemma SplitPage(t: Tiling, h: int, p: int)
    requires t.Partition() && h in t.blocks && t.blocks[h].order > 0 && 0 <= p < t.n
    requires h + Pow2(t.blocks[h].order - 1) !in t.blocks
    ensures Split(t, h).PageOk(p)
  {
    var s, m := Split(t, h), h + Pow2(t.blocks[h].order - 1);
    assert t.PageOk(p);
    forall g | g in s.blocks && s.Within(p, g) ensures s.owner[p] == g {
      if g == h || g == m { assert t.Within(p, h); } else { assert t.Within(p, g); }
    }
  }

  lemma SplitPartition(t: Tiling, h: int)
    requires t.Partition() && h in t.blocks && t.blocks[h].order > 0
    ensures Split(t, h).Partition() && Split(t, h).FreePages() == t.FreePages()
  {
    SplitBlocks(t, h);
    forall p | 0 <= p < t.n ensures Split(t, h).PageOk(p) && (Split(t, h).FreePage(p) <==> t.FreePage(p)) {
      SplitPage(t, h, p);
      Owner(t, p);
    }
  }

  lemma SplitCoalesced(t: Tiling, h: int)
    requires t.Partition() && t.Coalesced(h) && h in t.blocks && t.blocks[h].order > 0
    ensures Split(t, h).Coalesced(h)
  {
    var s, o := Split(t, h), t.blocks[h].order - 1;
    SplitBlocks(t, h);
    OwnBlock(t, h);
    Halves(h, o);
    BuddyBasics(h, o);
    forall g | g in s.blocks ensures s.Single(g, h) {
      if g in t.blocks { SplitSingle(t, h, g); }
    }
  }

  lemma SplitSingle(t: Tiling, h: int, g: int)
    requires t.Partition() && t.Coalesced(h) && h in t.blocks && t.blocks[h].order > 0 && g in t.blocks
    requires var o := t.blocks[h].order - 1; h + Pow2(o) !in t.blocks && Buddy(h + Pow2(o), o) == h
    ensures Split(t, h).Single(g, h)
  {
    assert t.Single(g, h) && t.BlockOk(g);
    var b := Buddy(g, t.blocks[g].order);
    assert Buddy(b, t.blocks[g].order) == g by { BuddyBasics(g, t.blocks[g].order); }
    hide Tiling.Partition;
    hide Tiling.Coalesced;
    hide Tiling.BlockOk;
    hide Buddy;
    hide Pow2;
  }

  /** The block set aside and its buddy are free blocks of one order. */
  ghost predicate CanJoin(t: Tiling, h: int) {
    t.IsFree(h) && t.blocks[h].order < MAX_ORDER &&
    var b := Buddy(h, t.blocks[h].order); t.IsFree(b) && t.blocks[b] == t.blocks[h]
  }

  /** Where the upper half of the pair starts. */
  function Higher(h: int, o: nat): int { if Upper(h, o) then h else h + Pow2(o) }

  /** Block h and its buddy made one block. */
  ghost function Join(t: Tiling, h: int): Tiling
    requires h in t.blocks
  {
    var o := t.blocks[h].order;
    var l, m := Lower(h, o), Higher(h, o);
    t.(blocks := (t.blocks - {m})[l := t.blocks[h].(order := o + 1)],
       owner := seq(|t.owner|, p requires 0 <= p < |t.owner| => if t.owner[p] == m then l else t.owner[p]))
  }

  lemma JoinBlocks(t: Tiling, h: int)
    requires t.Partition() && CanJoin(t, h)
    ensures var o := t.blocks[h].order; var l, m := Lower(h, o), Higher(h, o);
      && m == l + Pow2(o) && 0 <= l < m && m + Pow2(o) <= t.n && t.IsFree(l) && t.IsFree(m)
      && t.blocks[l].order == o == t.blocks[m].order && Aligned(l, o + 1) && {l, m} == {h, Buddy(h, o)}
  {
    var o := t.blocks[h].order;
    OwnBlock(t, h);
    OwnBlock(t, Buddy(h, o));
    BuddyBasics(h, o);
  }

  lemma JoinPage(t: Tiling, h: int, p: int)
    requires t.Partition() && CanJoin(t, h) && 0 <= p < t.n
    ensures Join(t, h).PageOk(p) && (Join(t, h).FreePage(p) <==> t.FreePage(p))
  {
    JoinBlocks(t, h);
    var o := t.blocks[h].order;
    var s, l, m := Join(t, h), Lower(h, o), Higher(h, o);
    assert t.PageOk(p);
    forall g | g in s.blocks && s.Within(p, g) ensures s.owner[p] == g {
      if g == l { assert t.Within(p, l) || t.Within(p, m); } else { assert t.Within(p, g); }
    }
  }

  lemma JoinPartition(t: Tiling, h: int)
    requires t.Partition() && CanJoin(t, h)
    ensures Join(t, h).Partition() && Join(t, h).FreePages() == t.FreePages()
  {
    JoinBlocks(t, h);
    var s := Join(t, h);
    forall g | g in s.blocks ensures s.BlockOk(g) {
      assert t.BlockOk(g);
    }
    forall p | 0 <= p < t.n ensures s.PageOk(p) && (s.FreePage(p) <==> t.FreePage(p)) {
      JoinPage(t, h, p);
    }
  }

  lemma JoinCoalesced(t: Tiling, h: int)
    requires t.Partition() && t.Coalesced(h) && CanJoin(t, h)
    ensures Join(t, h).Coalesced(Lower(h, t.blocks[h].order))
  {
    var o := t.blocks[h].order;
    JoinBlocks(t, h);
    forall g | g in Join(t, h).blocks ensures Join(t, h).Single(g, Lower(h, o)) {
      assert t.Single(g, h);
    }
  }

  /** A block with nothing to join goes into the lists. */
  lemma InsertCoalesced(t: Tiling, h: int)
    requires t.Partition() && t.Coalesced(h) && t.IsFree(h) && !CanJoin(t, h)
    ensures t.Coalesced(-1)
  {
    OwnBlock(t, h);
    forall g | g in t.blocks ensures t.Single(g, -1) {
      assert t.Single(g, h) && t.BlockOk(g);
      BuddyBasics(g, t.blocks[g].order);
    }
  }

  /** A block may be taken out of the lists. */
  lemma AsideCoalesced(t: Tiling, h: int)
    requires t.Partition() && t.Coalesced(-1)
    ensures t.Coalesced(h)
  {
    assert -1 in t.blocks ==> t.BlockOk(-1);
    forall g | g in t.blocks ensures t.Single(g, h) { assert t.Single(g, -1); }
  }

  /** Block h made free, or taken. */
  ghost function Mark(t: Tiling, h: int, free: bool): Tiling
    requires h in t.blocks
  {
    t.(blocks := t.blocks[h := t.blocks[h].(free := free)])
  }

  lemma MarkPartition(t: Tiling, h: int, free: bool)
    requires t.Partition() && h in t.blocks
    ensures Mark(t, h, free).Partition()
    ensures Mark(t, h, free).FreePages() == if free then t.FreePages() + t.Pages(h) else t.FreePages() - t.Pages(h)
    ensures t.blocks[h].free ==> t.Pages(h) <= t.FreePages()
  {
    var s := Mark(t, h, free);
    forall g | g in s.blocks ensures s.BlockOk(g) { assert t.BlockOk(g); }
    forall p | 0 <= p < t.n
      ensures s.PageOk(p) && (t.owner[p] == h <==> t.Within(p, h))
      ensures s.FreePage(p) <==> if t.Within(p, h) then free else t.FreePage(p)
    {
      assert t.PageOk(p);
      forall g | g in s.blocks && s.Within(p, g) ensures s.owner[p] == g { assert t.Within(p, g); }
    }
  }

  lemma MarkCoalesced(t: Tiling, h: int, free: bool)
    requires t.Partition() && h in t.blocks && t.Coalesced(if free then -1 else h)
    ensures Mark(t, h, free).Coalesced(if free then h else -1)
  {
    assert -1 in t.blocks ==> t.BlockOk(-1);
    var s := Mark(t, h, free);
    forall g | g in s.blocks ensures s.Single(g, if free then h else -1) {
      assert t.Single(g, if free then -1 else h);
    }
  }

  // ---------------------------------------------------------------- growing a tiling

  /** One more block at the end. */
  ghost function Extend(t: Tiling, o: nat, free: bool): Tiling {
    Tiling(t.n + Pow2(o), t.blocks[t.n := Block(o, free)], t.owner + seq(Pow2(o), _ => t.n))
  }

  lemma ExtendPartition(t: Tiling, o: nat, free: bool)
    requires t.Partition() && o <= MAX_ORDER && Aligned(t.n, o)
    ensures Extend(t, o, free).Partition() && t.n !in t.blocks
    ensures forall p :: 0 <= p < t.n + Pow2(o) ==>
      (Extend(t, o, free).FreePage(p) <==> if p < t.n then t.FreePage(p) else free)
  {
    var s := Extend(t, o, free);
    if t.n in t.blocks { OwnBlock(t, t.n); }
    forall g | g in s.blocks ensures s.BlockOk(g) { assert g != t.n ==> t.BlockOk(g); }
    forall p | 0 <= p < s.n ensures s.PageOk(p) && (s.FreePage(p) <==> if p < t.n then t.FreePage(p) else free) {
      assert p < t.n ==> t.PageOk(p);
      forall g | g in s.blocks && s.Within(p, g) ensures s.owner[p] == g {
        assert g != t.n ==> t.BlockOk(g) && t.Within(p, g);
      }
    }
  }

  /** A free lower half has no wholly free pair within the n pages of which the target is to be free. */
  ghost predicate Blocked(t: Tiling, n: int, target: set<int>, h: int)
    requires h in t.blocks
  {
    var o := t.blocks[h].order;
    t.blocks[h].free && o < MAX_ORDER && Aligned(h, o + 1) ==> !AllFree(n, target, h, o + 1)
  }

  ghost predicate RightBlocked(t: Tiling, n: int, target: set<int>) {
    forall h {:trigger Blocked(t, n, target, h)} :: h in t.blocks ==> Blocked(t, n, target, h)
  }

  lemma RightBlockedCoalesced(t: Tiling)
    requires t.Partition() && RightBlocked(t, t.n, t.FreePages())
    ensures t.Coalesced(-1)
  {
    forall h | h in t.blocks ensures t.Single(h, -1) {
      if CanJoin(t, h) {
        JoinBlocks(t, h);
        assert Blocked(t, t.n, t.FreePages(), Lower(h, t.blocks[h].order));
        PairFree(t, h);
      }
    }
  }

  lemma PairFree(t: Tiling, h: int)
    requires t.Partition() && CanJoin(t, h)
    ensures var l := Lower(h, t.blocks[h].order);
      && t.IsFree(l) && t.blocks[l].order == t.blocks[h].order && Aligned(l, t.blocks[h].order + 1)
      && AllFree(t.n, t.FreePages(), l, t.blocks[h].order + 1)
  {
    JoinBlocks(t, h);
    var o := t.blocks[h].order;
    var l, m := Lower(h, o), Higher(h, o);
    InsideFree(t, l, l, o);
    InsideFree(t, m, m, o);
  }

  // ---------------------------------------------------------------- the source's arithmetic

  lemma HalfDiv(h: int, q: int)
    requires q > 0
    ensures h / (2 * q) == (h / 2) / q
    ensures h % (2 * q) == 0 <==> h % 2 == 0 && (h / 2) % q == 0
  {
    var a := h / 2;
    DivUnique(h, 2 * q, a / q, 2 * (a % q) + h % 2);
  }

  /** Alignment and the side of a block as `find_buddy` computes them. */
  lemma {:induction false} BuddyArithmetic(h: int, o: nat)
    requires o <= MAX_ORDER
    ensures Aligned(h, o) <==> h % Pow2(o) == 0
    ensures Upper(h, o) <==> (h / Pow2(o)) % 2 == 1
    decreases o
  {
    if o > 0 {
      BuddyArithmetic(h / 2, o - 1);
      HalfDiv(h, Pow2(o - 1));
    }
  }
}
