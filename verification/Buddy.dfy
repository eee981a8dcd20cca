/**
The binary buddy allocator of `pmem.c`: the page records, the free lists, and the
operations that split and merge blocks.
 */
module Buddy {
  import opened BuddyModel
  import opened Common
  import opened Lists

  /** get_min_page_order: the smallest order of at least n pages; None stands for the panic. */
  method GetMinPageOrder(n: int) returns (o: Option<int>)
    ensures o.Some? ==> 0 <= o.value <= MAX_ORDER && Pow2(o.value) >= n && (o.value > 0 ==> Pow2(o.value - 1) < n)
    ensures o.None? <==> n > Pow2(MAX_ORDER)
  {
    for order := 0 to MAX_ORDER + 1
      invariant order > 0 ==> Pow2(order - 1) < n
    {
      if Pow2(order) >= n {
        Pow2Grows(order, MAX_ORDER);
        return Some(order);
      }
    }
    return None;
  }

  lemma {:induction false} Pow2Grows(a: nat, b: nat)
    requires a <= b
    ensures 0 < Pow2(a) <= Pow2(b)
    decreases b
  {
    if a < b { Pow2Grows(a, b - 1); } else if a > 0 { Pow2Grows(a - 1, b - 1); }
  }

  /** get_max_page_order: the largest order that is aligned at `start` and does not pass `end`. */
  method GetMaxPageOrder(start: int, end: int) returns (o: int)
    requires 0 <= start < end
    ensures 0 <= o <= MAX_ORDER && Aligned(start, o) && start + Pow2(o) <= end
    ensures o < MAX_ORDER && Aligned(start, o + 1) ==> end < start + Pow2(o + 1)
  {
    o := MAX_ORDER;
    while o > 0
      invariant 0 <= o <= MAX_ORDER
      invariant o < MAX_ORDER && Aligned(start, o + 1) ==> end < start + Pow2(o + 1)
    {
      BuddyArithmetic(start, o);
      if start % Pow2(o) == 0 && start + Pow2(o) <= end {
        return;
      }
      o := o - 1;
    }
    assert Aligned(start, 0);
  }

  // ---------------------------------------------------------------- records and lists of a tiling

  /** The free lists hold the free blocks by order, each once; block `aside` is in none. */
  ghost predicate ListsOk(t: Tiling, free: seq<seq<int>>, aside: int) {
    |free| == MAX_ORDER + 1 && forall o :: 0 <= o <= MAX_ORDER ==>
      NoDup(free[o]) && forall h :: h in free[o] <==> t.IsFree(h) && h != aside && t.blocks[h].order == o
  }

  /** The records of block heads are current. Records of other pages may be stale. */
  ghost predicate HeadsOk(t: Tiling, refcnt: seq<int>, order: seq<int>) {
    |refcnt| == |order| == t.n && forall h :: h in t.blocks && 0 <= h < t.n ==>
      order[h] == t.blocks[h].order && refcnt[h] >= 0 && (refcnt[h] == 0 <==> t.blocks[h].free)
  }

  lemma AppendLists(t: Tiling, free: seq<seq<int>>, h: int, o: nat)
    requires ListsOk(t, free, h) && t.IsFree(h) && t.blocks[h].order == o <= MAX_ORDER && h != -1
    requires -1 !in t.blocks
    ensures ListsOk(t, free[o := free[o] + [h]], -1)
  {
  }

  lemma RemoveLists(t: Tiling, free: seq<seq<int>>, h: int, o: nat)
    requires ListsOk(t, free, -1) && t.IsFree(h) && t.blocks[h].order == o <= MAX_ORDER
    requires -1 !in t.blocks
    ensures ListsOk(t, free[o := Without(free[o], h)], h)
  {
    WithoutFacts(free[o], h);
  }

  /** The upper half joins the list of its order. */
  lemma SplitLists(t: Tiling, free: seq<seq<int>>, h: int, o: nat)
    requires t.Partition() && ListsOk(t, free, h) && t.IsFree(h) && t.blocks[h].order == o + 1 <= MAX_ORDER
    ensures ListsOk(Split(t, h), free[o := free[o] + [Buddy(h, o)]], h)
  {
    SplitBlocks(t, h);
    var s, m := Split(t, h), Buddy(h, o);
    var free' := free[o := free[o] + [m]];
    forall r | 0 <= r <= MAX_ORDER
      ensures NoDup(free'[r]) && forall g :: g in free'[r] <==> s.IsFree(g) && g != h && s.blocks[g].order == r
    {
      assert m !in free[r];
    }
  }

  /** The buddy leaves the list of its order. */
  lemma JoinLists(t: Tiling, free: seq<seq<int>>, h: int, o: nat)
    requires t.Partition() && CanJoin(t, h) && ListsOk(t, free, h) && t.blocks[h].order == o
    ensures ListsOk(Join(t, h), free[o := Without(free[o], Buddy(h, o))], Lower(h, o))
  {
    JoinBlocks(t, h);
    var s, b := Join(t, h), Buddy(h, o);
    WithoutFacts(free[o], b);
    var free' := free[o := Without(free[o], b)];
    forall r | 0 <= r <= MAX_ORDER
      ensures NoDup(free'[r]) && forall g :: g in free'[r] <==>
        s.IsFree(g) && g != Lower(h, o) && s.blocks[g].order == r
    {
      assert forall g :: g in free'[r] <==> t.IsFree(g) && g != h && g != b && t.blocks[g].order == r;
    }
  }

  lemma SplitHeads(t: Tiling, refcnt: seq<int>, order: seq<int>, h: int, o: nat)
    requires t.Partition() && HeadsOk(t, refcnt, order) && t.IsFree(h) && t.blocks[h].order == o + 1
    ensures 0 <= h < Buddy(h, o) < t.n
    ensures HeadsOk(Split(t, h), refcnt[Buddy(h, o) := 0], order[h := o][Buddy(h, o) := o])
  {
    SplitBlocks(t, h);
    OwnBlock(t, h);
  }

  lemma JoinHeads(t: Tiling, refcnt: seq<int>, order: seq<int>, h: int, o: nat)
    requires t.Partition() && CanJoin(t, h) && HeadsOk(t, refcnt, order) && t.blocks[h].order == o
    ensures 0 <= Lower(h, o) < t.n
    ensures HeadsOk(Join(t, h), refcnt, order[Lower(h, o) := o + 1])
  {
    JoinBlocks(t, h);
  }

  lemma ExtendLists(t: Tiling, free: seq<seq<int>>, o: nat, isFree: bool)
    requires t.Partition() && ListsOk(t, free, -1) && o <= MAX_ORDER && Pow2(o) > 0 && t.n !in t.blocks
    ensures ListsOk(Extend(t, o, isFree), if isFree then free[o := free[o] + [t.n]] else free, -1)
  {
    var s, free' := Extend(t, o, isFree), if isFree then free[o := free[o] + [t.n]] else free;
    forall r | 0 <= r <= MAX_ORDER
      ensures NoDup(free'[r]) && forall g :: g in free'[r] <==> s.IsFree(g) && g != -1 && s.blocks[g].order == r
    {
      assert t.n !in free[r];
    }
  }

  /** A page missing from the target keeps the block around it from being free. */
  lemma BlockedBy(n: int, target: set<int>, h: int, o: nat, end: int)
    requires 0 <= h && o <= MAX_ORDER && Aligned(h, o) && h < end < h + Pow2(o) && end <= n && end !in target
    ensures !AllFree(n, target, h, o)
  {
    assert !(forall p :: h <= p < h + Pow2(o) ==> p in target) by { assert end !in target; }
  }

  /** A block that stops short of the page `end` outside the target cannot be a left half. */
  lemma ExtendTarget(t: Tiling, target: set<int>, o: nat, isFree: bool)
    requires t.Partition() && o <= MAX_ORDER && Aligned(t.n, o) && Pow2(o) > 0
    requires forall p :: 0 <= p < t.n ==> (p in t.FreePages() <==> p in target)
    requires forall p :: t.n <= p < t.n + Pow2(o) ==> (p in target <==> isFree)
    ensures forall p :: 0 <= p < t.n + Pow2(o) ==> (p in Extend(t, o, isFree).FreePages() <==> p in target)
  {
    ExtendPartition(t, o, isFree);
    forall p | 0 <= p < t.n + Pow2(o) ensures p in Extend(t, o, isFree).FreePages() <==> p in target {
      assert p < t.n ==> (p in t.FreePages() <==> p in target);
    }
  }

  lemma NothingTiled(n: int, target: set<int>)
    ensures var t := Tiling(0, map[], []);
      && t.Partition() && RightBlocked(t, n, target) && HeadsOk(t, [], [])
      && ListsOk(t, seq(MAX_ORDER + 1, _ => []), -1)
  {
  }

  lemma ExtendHeads(t: Tiling, rc: seq<int>, od: seq<int>, o: nat, isFree: bool)
    requires |rc| == |od| && t.n + Pow2(o) <= |rc| && HeadsOk(t, rc[..t.n], od[..t.n])
    requires t.n !in t.blocks && forall h :: h in t.blocks ==> h < t.n
    ensures var rc', od' := rc[t.n := if isFree then 0 else 1], od[t.n := o]; var m := t.n + Pow2(o);
      HeadsOk(Extend(t, o, isFree), rc'[..m], od'[..m])
  {
    var rc', od' := rc[t.n := if isFree then 0 else 1][..t.n + Pow2(o)], od[t.n := o][..t.n + Pow2(o)];
    forall h | h in t.blocks && 0 <= h < t.n ensures rc'[h] == rc[h] && od'[h] == od[h] {
      assert rc[..t.n][h] == rc[h] && od[..t.n][h] == od[h];
    }
  }

  lemma ExtendBlocked(t: Tiling, n: int, target: set<int>, o: nat, isFree: bool, end: int)
    requires RightBlocked(t, n, target) && t.n !in t.blocks && Pow2(o) > 0 && o <= MAX_ORDER
    requires isFree && o < MAX_ORDER && Aligned(t.n, o + 1) ==>
      t.n < end < t.n + Pow2(o + 1) && end <= n && end !in target
    ensures RightBlocked(Extend(t, o, isFree), n, target)
  {
    var s := Extend(t, o, isFree);
    forall h | h in s.blocks ensures Blocked(s, n, target, h) {
      if h != t.n {
        assert Blocked(t, n, target, h);
      } else if isFree && o < MAX_ORDER && Aligned(h, o + 1) {
        BlockedBy(n, target, h, o + 1, end);
      }
    }
  }

  lemma NonNegative(t: Tiling)
    requires t.Partition()
    ensures forall h :: h in t.blocks ==> 0 <= h < t.n
    ensures -1 !in t.blocks
  {
    forall h | h in t.blocks ensures 0 <= h < t.n { OwnBlock(t, h); }
  }

  /** What the tiled part needs of the tiling, the lists and the target. */
  ghost predicate Built(t: Tiling, free: seq<seq<int>>, n: int, target: set<int>) {
    && t.Partition() && ListsOk(t, free, -1) && RightBlocked(t, n, target)
    && forall p :: 0 <= p < t.n ==> (p in t.FreePages() <==> p in target)
  }

  lemma ExtendBuilt(t: Tiling, free: seq<seq<int>>, n: int, target: set<int>, o: nat, isFree: bool, end: int)
    requires Built(t, free, n, target) && o <= MAX_ORDER && Aligned(t.n, o)
    requires forall p :: t.n <= p < t.n + Pow2(o) ==> (p in target <==> isFree)
    requires isFree && o < MAX_ORDER && Aligned(t.n, o + 1) ==>
      t.n < end < t.n + Pow2(o + 1) && end <= n && end !in target
    ensures Built(Extend(t, o, isFree), if isFree then free[o := free[o] + [t.n]] else free, n, target)
    ensures Extend(t, o, isFree).n == t.n + Pow2(o) && t.n !in t.blocks && t.n >= 0
    ensures forall h :: h in t.blocks ==> h < t.n
  {
    ExtendPartition(t, o, isFree);
    ExtendLists(t, free, o, isFree);
    ExtendBlocked(t, n, target, o, isFree, end);
    ExtendTarget(t, target, o, isFree);
    NonNegative(t);
  }

  ghost predicate IsAllocated(t: Tiling, g: int) { g in t.blocks && !t.blocks[g].free }

  /** The free pages and the allocated blocks are the same in both tilings. */
  ghost predicate Recut(t: Tiling, s: Tiling) {
    && t.n == s.n && t.FreePages() == s.FreePages()
    && forall g :: (IsAllocated(t, g) <==> IsAllocated(s, g)) && (IsAllocated(t, g) ==> t.blocks[g] == s.blocks[g])
  }

  lemma SplitRecuts(t: Tiling, h: int)
    requires t.Partition() && t.IsFree(h) && t.blocks[h].order > 0
    ensures Recut(t, Split(t, h))
  {
    SplitPartition(t, h);
    SplitBlocks(t, h);
  }

  lemma JoinRecuts(t: Tiling, h: int)
    requires t.Partition() && CanJoin(t, h)
    ensures Recut(t, Join(t, h))
  {
    JoinPartition(t, h);
    JoinBlocks(t, h);
  }

  /** What taking a free block out of a recut tiling does to the tiling it was cut from. */
  lemma TakeFree(t0: Tiling, t: Tiling, h: int)
    requires t.Partition() && Recut(t0, t) && t.IsFree(h)
    ensures var s := Mark(t, h, false);
      && s.Partition() && s.Pages(h) <= t0.FreePages() && s.FreePages() == t0.FreePages() - s.Pages(h)
      && forall g :: IsAllocated(t0, g) ==> IsAllocated(s, g) && s.blocks[g] == t0.blocks[g]
  {
    MarkPartition(t, h, false);
    assert Mark(t, h, false).Pages(h) == t.Pages(h);
  }

  lemma MarkLists(t: Tiling, free: seq<seq<int>>, h: int, isFree: bool)
    requires ListsOk(t, free, if isFree then -1 else h) && h in t.blocks && -1 !in t.blocks
    requires t.blocks[h].free != isFree
    ensures ListsOk(Mark(t, h, isFree), free, if isFree then h else -1)
  {
  }

  lemma MarkHeads(t: Tiling, refcnt: seq<int>, order: seq<int>, h: int, isFree: bool)
    requires HeadsOk(t, refcnt, order) && h in t.blocks && 0 <= h < t.n
    ensures HeadsOk(Mark(t, h, isFree), refcnt[h := if isFree then 0 else 1], order)
  {
  }

  class Pmem {
    const n: nat
    const refcnt: array<int>
    const order: array<int>
    var free: seq<seq<int>>
    ghost var t: Tiling

    /** The records and the lists describe the coalesced tiling t; block `aside` is in no list. */
    ghost predicate Valid(aside: int)
      reads this, refcnt, order
    {
      && refcnt.Length == order.Length == n == t.n && refcnt != order
      && t.Partition() && t.Coalesced(aside)
      && HeadsOk(t, refcnt[..], order[..]) && ListsOk(t, free, aside)
    }

    /** The free list of order o holds exactly the maximal aligned blocks of order o of the free pages. */
    lemma ListsCanonical(h: int, o: nat)
      requires Valid(-1) && o <= MAX_ORDER
      ensures h in free[o] <==> Maximal(n, t.FreePages(), h, o)
    {
      NonNegative(t);
      Canonical(t, h, o);
    }

    /** find_buddy. Its alignment assertion holds, and the page it returns is the head of a block. */
    method FindBuddy(page: int) returns (buddy: Option<int>)
      requires refcnt.Length == order.Length == n == t.n && t.Partition() && page in t.blocks && 0 <= page < n
      requires order[page] == t.blocks[page].order
      ensures buddy.Some? <==> Buddy(page, t.blocks[page].order) < n
      ensures buddy.Some? ==>
        buddy.value == Buddy(page, t.blocks[page].order) && 0 <= buddy.value && buddy.value in t.blocks
    {
      assert t.BlockOk(page);
      BuddyArithmetic(page, order[page]);
      LowerNat(page, order[page]);
      assert page % Pow2(order[page]) == 0;
      var index := page / Pow2(order[page]);
      var b := if index % 2 == 1 then page - Pow2(order[page]) else page + Pow2(order[page]);
      if b >= n {
        return None;
      }
      BuddyIsHead(t, page);
      return Some(b);
    }

    /** freeblocks_insert of the block set aside. */
    method FreeblocksInsert(page: int)
      requires Valid(page) && t.IsFree(page) && t.Coalesced(-1)
      modifies this`free, refcnt
      ensures Valid(-1) && t == old(t)
    {
      NonNegative(t);
      assert t.BlockOk(page);
      AppendLists(t, free, page, order[page]);
      refcnt[page] := 0;
      free := free[order[page] := free[order[page]] + [page]];
    }

    /** freeblocks_remove of a listed block, which is then set aside. */
    method FreeblocksRemove(page: int)
      requires Valid(-1) && t.IsFree(page)
      modifies this`free
      ensures Valid(page) && t == old(t)
    {
      NonNegative(t);
      assert t.BlockOk(page);
      RemoveLists(t, free, page, order[page]);
      AsideCoalesced(t, page);
      free := free[order[page] := Without(free[order[page]], page)];
    }

    /** The split in find_freeblock: page keeps the lower half, the upper half is listed. */
    method SplitBlock(page: int, o: int)
      requires Valid(page) && t.IsFree(page) && t.blocks[page].order == o > 0
      modifies this, refcnt, order
      ensures Valid(page) && t == Split(old(t), page)
    {
      NonNegative(t);
      assert t.BlockOk(page);
      SplitBlocks(t, page);
      SplitPartition(t, page);
      SplitCoalesced(t, page);
      SplitLists(t, free, page, o - 1);
      SplitHeads(t, refcnt[..], order[..], page, o - 1);
      order[page] := o - 1;
      t := Split(t, page);
      var buddy := FindBuddy(page);
      assert buddy == Some(Buddy(page, o - 1));
      order[buddy.value] := o - 1;
      refcnt[buddy.value] := 0;
      free := free[o - 1 := free[o - 1] + [buddy.value]];
    }

    /**
    find_freeblock. A block of the order asked for (of the next smaller order, after a split)
    is taken out of the lists, or there is no free block of that order or above.
     */
    method FindFreeblock(o: int, split: bool) returns (page: Option<int>)
      requires Valid(-1) && 0 <= o && (split ==> o > 0)
      modifies this, refcnt, order
      ensures Recut(old(t), t)
      ensures page.Some? ==>
        && Valid(page.value) && t.IsFree(page.value)
        && t.blocks[page.value].order == if split then o - 1 else o
      ensures page.None? ==> Valid(-1) && t == old(t) && forall h :: t.IsFree(h) ==> t.blocks[h].order < o
      decreases MAX_ORDER + 1 - o
    {
      if o > MAX_ORDER {
        forall h | t.IsFree(h) ensures t.blocks[h].order < o { assert t.BlockOk(h); }
        return None;
      }
      if free[o] != [] {
        assert free[o][0] in free[o];
        page := Some(free[o][0]);
        FreeblocksRemove(page.value);
      } else {
        page := FindFreeblock(o + 1, true);
        if page.None? {
          forall h | t.IsFree(h) ensures t.blocks[h].order < o {
            assert h !in free[o];
            NonNegative(t);
          }
          return None;
        }
      }
      if split {
        SplitRecuts(t, page.value);
        SplitBlock(page.value, o);
      }
    }

    /** The page at physical address 0 is not free, so that no block can start there. */
    ghost predicate NullTaken()
      reads this
    {
      0 !in t.FreePages()
    }

    /**
    pmem_nalloc: a block of the smallest sufficient order, whose pages were free and are now
    the only pages no longer free; it fails only if no free block is large enough.
     */
    method Nalloc(count: int) returns (page: Option<int>)
      requires Valid(-1) && 0 < count <= Pow2(MAX_ORDER)
      modifies this, refcnt, order
      ensures Valid(-1)
      ensures page.Some? ==>
        && 0 <= page.value < n && IsAllocated(t, page.value) && refcnt[page.value] == 1
        && Pow2(t.blocks[page.value].order) >= count
        && (t.blocks[page.value].order > 0 ==> Pow2(t.blocks[page.value].order - 1) < count)
        && t.Pages(page.value) <= old(t.FreePages())
        && t.FreePages() == old(t.FreePages()) - t.Pages(page.value)
        && (forall g :: IsAllocated(old(t), g) ==> IsAllocated(t, g) && t.blocks[g] == old(t).blocks[g])
      ensures page.None? ==> t == old(t) && forall h :: t.IsFree(h) ==> Pow2(t.blocks[h].order) < count
      ensures old(NullTaken()) ==> NullTaken() && (page.Some? ==> page.value != 0)
    {
      var o := GetMinPageOrder(count);
      page := FindFreeblock(o.value, false);
      if page.None? {
        forall h | t.IsFree(h) ensures Pow2(t.blocks[h].order) < count {
          Pow2Grows(t.blocks[h].order, o.value - 1);
        }
        return;
      }
      NonNegative(t);
      TakeFree(old(t), t, page.value);
      MarkCoalesced(t, page.value, false);
      MarkLists(t, free, page.value, false);
      MarkHeads(t, refcnt[..], order[..], page.value, false);
      OwnBlock(Mark(t, page.value, false), page.value);
      hide ListsOk;
      hide HeadsOk;
      hide Tiling.Partition;
      hide Tiling.Coalesced;
      hide Tiling.FreePages;
      ghost var rc := refcnt[..];
      refcnt[page.value] := 1;
      t := Mark(t, page.value, false);
      assert refcnt[..] == rc[page.value := 1];
      assert page.value in t.Pages(page.value);
    }

    /**
    merge_block of the block set aside: it is joined with its buddy as long as that is a free
    block of the same order, so that the result can be listed.
     */
    method MergeBlock(page: int) returns (merged: int)
      requires Valid(page) && t.IsFree(page)
      modifies this, order
      ensures Valid(merged) && t.IsFree(merged) && t.Coalesced(-1)
      ensures Recut(old(t), t)
      decreases MAX_ORDER - t.blocks[page].order
    {
      NonNegative(t);
      assert t.BlockOk(page);
      var o := order[page];
      if o == MAX_ORDER {
        InsertCoalesced(t, page);
        return page;
      }
      var buddy := FindBuddy(page);
      if buddy.Some? && refcnt[buddy.value] == 0 && order[buddy.value] == o {
        JoinBlocks(t, page);
        JoinPartition(t, page);
        JoinRecuts(t, page);
        JoinCoalesced(t, page);
        JoinLists(t, free, page, o);
        JoinHeads(t, refcnt[..], order[..], page, o);
        hide ListsOk;
        hide HeadsOk;
        hide Tiling.Partition;
        hide Tiling.Coalesced;
        free := free[o := Without(free[o], buddy.value)];
        var l := if page < buddy.value then page else buddy.value;
        order[l] := o + 1;
        t := Join(t, page);
        merged := MergeBlock(l);
      } else {
        InsertCoalesced(t, page);
        merged := page;
      }
    }

    /** pmem_nfree of an allocated block: exactly its pages become free. */
    method Nfree(page: int)
      requires Valid(-1) && 0 <= page < n && IsAllocated(t, page)
      modifies this, refcnt, order
      ensures Valid(-1)
      ensures t.FreePages() == old(t.FreePages()) + old(t.Pages(page))
      ensures old(NullTaken()) && page != 0 ==> NullTaken()
      ensures forall g :: IsAllocated(old(t), g) && g != page ==> IsAllocated(t, g) && t.blocks[g] == old(t).blocks[g]
    {
      NonNegative(t);
      OwnBlock(t, page);
      MarkPartition(t, page, true);
      MarkCoalesced(t, page, true);
      MarkLists(t, free, page, true);
      MarkHeads(t, refcnt[..], order[..], page, true);
      hide ListsOk;
      hide HeadsOk;
      hide Tiling.Partition;
      hide Tiling.Coalesced;
      ghost var rc := refcnt[..];
      refcnt[page] := 0;
      t := Mark(t, page, true);
      assert refcnt[..] == rc[page := 0];
      var merged := MergeBlock(page);
      FreeblocksInsert(merged);
    }

    /** pmem_inc_refcnt. Its assertions are the precondition. */
    method IncRefcnt(page: int, k: int)
      requires Valid(-1) && 0 <= page < n && IsAllocated(t, page) && t.blocks[page].order == 0 && k >= 0
      modifies refcnt
      ensures Valid(-1) && t == old(t)
      ensures refcnt[..] == old(refcnt[..])[page := old(refcnt[page]) + k]
    {
      NonNegative(t);
      refcnt[page] := refcnt[page] + k;
    }

    /** pmem_dec_refcnt: the last reference frees the page, and only the last. */
    method DecRefcnt(page: int)
      requires Valid(-1) && 0 <= page < n && IsAllocated(t, page) && t.blocks[page].order == 0
      modifies this, refcnt, order
      ensures Valid(-1)
      ensures old(refcnt[page]) > 1 ==> t == old(t) && refcnt[..] == old(refcnt[..])[page := old(refcnt[page]) - 1]
      ensures old(refcnt[page]) == 1 ==> t.FreePages() == old(t.FreePages()) + {page}
      ensures old(NullTaken()) && page != 0 ==> NullTaken()
      ensures forall g :: IsAllocated(old(t), g) && g != page ==> IsAllocated(t, g) && t.blocks[g] == old(t).blocks[g]
    {
      NonNegative(t);
      OwnBlock(t, page);
      if refcnt[page] > 1 {
        refcnt[page] := refcnt[page] - 1;
      } else {
        assert t.Pages(page) == {page};
        Nfree(page);
      }
    }

    // -------------------------------------------------------------- freeblocks_init

    /** Pages below t.n are tiled, and free exactly if they are in the target. */
    ghost predicate Building(target: set<int>)
      reads this, refcnt, order
    {
      && refcnt.Length == order.Length == n && refcnt != order && t.n <= n
      && Built(t, free, n, target) && HeadsOk(t, refcnt[..][..t.n], order[..][..t.n])
    }

    /** The block at the end of the tiled pages: free and listed, or in use. */
    method AddBlock(page: int, o: int, isFree: bool, ghost target: set<int>, ghost end: int)
      requires Building(target) && page == t.n && 0 <= o <= MAX_ORDER && Aligned(page, o) && page + Pow2(o) <= n
      requires forall p :: page <= p < page + Pow2(o) ==> (p in target <==> isFree)
      requires isFree && o < MAX_ORDER && Aligned(page, o + 1) ==>
        page < end < page + Pow2(o + 1) && end <= n && end !in target
      modifies this, refcnt, order
      ensures Building(target) && t.n == page + Pow2(o)
    {
      ExtendBuilt(t, free, n, target, o, isFree, end);
      assert page < n;
      hide Built;
      hide HeadsOk;
      hide Extend;
      hide Pow2;
      hide Aligned;
      ghost var rc, od := refcnt[..], order[..];
      ExtendHeads(t, rc, od, o, isFree);
      SetRecords(page, o, isFree);
      t := Extend(t, o, isFree);
    }

    /** The records of a new block, and its place in the lists. */
    method SetRecords(page: int, o: int, isFree: bool)
      requires refcnt.Length == order.Length == n && refcnt != order && 0 <= page < n && 0 <= o < |free|
      modifies this`free, refcnt, order
      ensures free == if isFree then old(free)[o := old(free)[o] + [page]] else old(free)
      ensures order[..] == old(order[..])[page := o] && refcnt[..] == old(refcnt[..])[page := if isFree then 0 else 1]
    {
      order[page] := o;
      refcnt[page] := if isFree then 0 else 1;
      if isFree {
        free := free[o := free[o] + [page]];
      }
    }

    /** freeblocks_insert_range, up to a page that stays in use or the end of memory. */
    method FreeblocksInsertRange(lo: int, hi: int, ghost target: set<int>)
      requires Building(target) && lo == t.n && lo <= hi <= n && hi !in target
      requires forall p :: lo <= p < hi ==> p in target
      modifies this, refcnt, order
      ensures Building(target) && t.n == hi
    {
      var start := lo;
      while start < hi
        invariant Building(target) && start == t.n && lo <= start <= hi
        decreases hi - start
      {
        var o := GetMaxPageOrder(start, hi);
        Pow2Grows(o, o);
        AddBlock(start, o, true, target, hi);
        start := start + Pow2(o);
      }
    }

    /** freeblocks_init, from any bitmap of the boot allocator: the free pages are those it left free. */
    constructor (total: nat, start: int, bitmap: seq<bool>, contig: int)
      requires 0 <= start && 0 <= contig <= |bitmap| && start + contig <= total
      requires contig == 0 || bitmap[contig - 1]
      ensures Valid(-1) && n == total && fresh(refcnt) && fresh(order)
      ensures t.FreePages() == BootFree(total, start, bitmap, contig) && (start > 0 ==> NullTaken())
    {
      n := total;
      refcnt := new int[total];
      order := new int[total];
      free := seq(MAX_ORDER + 1, _ => []);
      t := Tiling(0, map[], []);
      new;
      NothingTiled(n, BootFree(total, start, bitmap, contig));
      hide ListsOk;
      hide HeadsOk;
      hide RightBlocked;
      hide Tiling.Partition;
      ghost var target := BootFree(total, start, bitmap, contig);
      var page := 0;
      while page < start
        invariant 0 <= page <= start && Building(target) && page == t.n
      {
        AddBlock(page, 0, false, target, 0);
        page := page + 1;
      }
      var index := 0;
      while index < contig
        invariant 0 <= index <= contig && Building(target) && start + index == t.n
        decreases contig - index
      {
        if bitmap[index] {
          AddBlock(start + index, 0, false, target, 0);
          index := index + 1;
        } else {
          var probe := index + 1;
          while probe < contig && !bitmap[probe]
            invariant index < probe <= contig && forall k :: index <= k < probe ==> !bitmap[k]
          {
            probe := probe + 1;
          }
          FreeblocksInsertRange(start + index, start + probe, target);
          index := probe;
        }
      }
      FreeblocksInsertRange(start + contig, total, target);
      assert t.FreePages() == target;
      RightBlockedCoalesced(t);
      assert refcnt[..t.n] == refcnt[..] && order[..t.n] == order[..];
    }
  }

  /** The boot allocator's bitmap leaves page p free; beyond `contig` all pages are free. */
  predicate LeftFree(start: int, bitmap: seq<bool>, contig: int, p: int)
    requires 0 <= contig <= |bitmap|
  {
    start <= p && (p - start >= contig || !bitmap[p - start])
  }

  ghost function BootFree(total: int, start: int, bitmap: seq<bool>, contig: int): set<int>
    requires 0 <= contig <= |bitmap|
  {
    set p | 0 <= p < total && LeftFree(start, bitmap, contig, p)
  }
}
