/** malloc, free and morecore of `malloc.c`. Addresses and sizes are in units of one header. */
module KrMalloc {
  import opened Common
  import opened KrHeap

  const WORD := 0x1_0000_0000_0000_0000
  const HEADER := 16
  const CHUNK := 4096

  /** The units a request of nbytes takes, in 64-bit arithmetic. */
  function Units(nbytes: int): int { (nbytes + HEADER - 1) % WORD / HEADER + 1 }

  /** The check that rejects requests too large. */
  predicate Overflows(nbytes: int) { Units(nbytes) * HEADER % WORD < nbytes }

  /** The check rejects exactly the requests whose size does not fit, and what passes has room for all bytes. */
  lemma UnitsFit(nbytes: int)
    requires 0 <= nbytes < WORD
    ensures Overflows(nbytes) <==> nbytes > WORD - 2 * HEADER
    ensures !Overflows(nbytes) ==>
      Units(nbytes) > 0 && (Units(nbytes) - 1) * HEADER >= nbytes && Units(nbytes) * HEADER < WORD
  {
  }

  ghost function Dist(n: int, k: int, t: int): int { if k <= t then t - k else n - k + t }

  /** There is a place for an address above the base. */
  lemma {:induction false} FindSpot(ring: seq<int>, b: int, n: int) returns (t: int)
    requires Sorted(ring) && 0 < n <= |ring| && ring[0] < b && b !in ring && (n < |ring| ==> b < ring[n])
    ensures Spot(ring, t, b)
    decreases n
  {
    if ring[n - 1] < b {
      t := n - 1;
    } else {
      t := FindSpot(ring, b, n - 1);
    }
  }

  class Heap {
    /** Address of the static header that starts the ring. */
    const base: int
    var ptr: map<int, int>
    var size: map<int, int>
    /** 0 before the first call. */
    var freep: int
    ghost var ring: seq<int>
    ghost var blocks: Blocks
    ghost var owner: Owner

    /** The units obtained are tiled by blocks; the free ones form one address-ordered ring and do not touch. */
    ghost predicate Ready()
      reads this
    {
      0 < base && HeapOk(base, ptr, size, ring, blocks, owner) && ApartBut(ring, blocks, 0, 0) && freep in ring
    }

    ghost predicate Valid()
      reads this
    {
      0 < base && if freep == 0 then blocks == map[] && owner == map[] else Ready()
    }

    /** The search of free: the last node of the ring below bp. */
    method FindPrev(bp: int) returns (p: int, ghost k: int)
      requires Ready() && base < bp && bp !in ring
      ensures 0 <= k < |ring| && p == ring[k] && Spot(ring, k, bp)
      ensures p in ptr && if p < ptr[p] then p < bp < ptr[p] else p < bp || bp < ptr[p]
    {
      ghost var t := FindSpot(ring, bp, |ring|);
      k :| 0 <= k < |ring| && ring[k] == freep;
      p := freep;
      assert LinkAt(ring, ptr, k);
      while !(bp > p && bp < ptr[p])
        invariant 0 <= k < |ring| && p == ring[k] && LinkAt(ring, ptr, k)
        decreases Dist(|ring|, k, t)
      {
        if p >= ptr[p] && (bp > p || bp < ptr[p]) {
          break;
        }
        p := ptr[p];
        k := Succ(|ring|, k);
        assert LinkAt(ring, ptr, k);
      }
    }

    ghost function Now(): Stage
      reads this
    {
      Stage(ptr, size, ring, blocks, owner)
    }

    ghost method Adopt(g: Stage)
      modifies this`ring, this`blocks, this`owner
      ensures ring == g.ring && blocks == g.blocks && owner == g.owner
    {
      ring, blocks, owner := g.ring, g.blocks, g.owner;
    }

    /**
    free: the block is live no more, and nothing else changes hands. The node left in freep,
    or the next one, is the block freed or contains it.
     */
    method Free(ap: int)
      requires Ready() && ap - 1 in blocks && !blocks[ap - 1].free
      modifies this
      ensures Ready() && freep != 0 && owner.Keys == old(owner.Keys) && Live(blocks) == old(Live(blocks)) - {ap - 1}
      ensures LiveUnits(blocks, owner) == old(LiveUnits(blocks, owner)) - Span(ap - 1, old(blocks[ap - 1].units))
      ensures freep in size && freep in ptr && ptr[freep] in size
      ensures size[freep] >= old(blocks[ap - 1].units) || size[ptr[freep]] >= old(blocks[ap - 1].units)
    {
      var bp := ap - 1;
      LiveNotInRing(bp);
      var p, k := FindPrev(bp);
      ghost var g := Released(base, Now(), k, bp);
      NodeFacts(base, Now(), k);
      NodeFacts(base, Now(), Succ(|ring|, k));
      assert BlockOk(blocks, owner, bp);
      Relink(p, bp);
      freep := p;
      Adopt(g);
      ghost var j := NodeOf(p);
    }

    /** The header updates of free. */
    method Relink(p: int, bp: int)
      requires p in ptr && p in size && bp in size && ptr[p] in ptr && ptr[p] in size && p != bp
      requires size[p] >= 0 && size[bp] >= 0 && size[ptr[p]] >= 0
      modifies this`ptr, this`size
      ensures size == SizeDown(SizeUp(old(ptr), old(size), p, bp), p, bp)
      ensures ptr == PtrDown(PtrUp(old(ptr), old(size), p, bp), SizeUp(old(ptr), old(size), p, bp), p, bp)
      ensures p in size && p in ptr
      ensures (size[p] >= old(size[bp]) || (ptr[p] == bp && bp in size && size[bp] >= old(size[bp])))
    {
      if bp + size[bp] == ptr[p] {
        size, ptr := size[bp := size[bp] + size[ptr[p]]], ptr[bp := ptr[ptr[p]]];
      } else {
        ptr := ptr[bp := ptr[p]];
      }
      if p + size[p] == bp {
        size, ptr := size[p := size[p] + size[bp]], ptr[p := ptr[bp]];
      } else {
        ptr := ptr[p := bp];
      }
    }

    lemma NodeOf(p: int) returns (k: int)
      requires Ready() && p in ring
      ensures 0 <= k < |ring| && ring[k] == p && p in ptr && p in size && ptr[p] == ring[Succ(|ring|, k)]
      ensures ptr[p] in size && p != 0
    {
      k :| 0 <= k < |ring| && ring[k] == p;
      NodeFacts(base, Now(), k);
      NodeFacts(base, Now(), Succ(|ring|, k));
    }

    lemma LiveNotInRing(bp: int)
      requires Ready() && bp in blocks && !blocks[bp].free
      ensures bp !in ring && base < bp
    {
    }

    /** New memory as a live block, before it is freed into the ring. */
    lemma GrowReady(hp: int, n: int)
      requires Ready() && n > 0 && Span(hp, n) !! owner.Keys && hp > base
      ensures hp !in blocks
      ensures HeapOk(base, ptr, size[hp := n], ring, blocks[hp := Block(n, false)], GrowOwner(owner, hp, n))
      ensures ApartBut(ring, blocks[hp := Block(n, false)], 0, 0)
    {
      GrowTiled(blocks, owner, hp, n);
      var more := blocks[hp := Block(n, false)];
      forall k | 0 <= k < |ring| ensures ApartAt(ring, more, k) {
        assert ApartAt(ring, blocks, k);
        NodeFacts(base, Now(), k);
      }
    }

    /** morecore, with the address sbrk returned, if any. The new memory is free, in a block of at least nu units. */
    method MoreCore(nu: int, sbrk: Option<int>) returns (ok: bool)
      requires Ready() && nu > 0
      requires sbrk.Some? ==> Span(sbrk.value, ChunkUnits(nu)) !! owner.Keys && sbrk.value > base
      modifies this
      ensures Ready() && freep != 0 && ok == sbrk.Some? && Live(blocks) == old(Live(blocks))
      ensures LiveUnits(blocks, owner) == old(LiveUnits(blocks, owner))
      ensures !ok ==> blocks == old(blocks) && owner == old(owner)
      ensures ok ==> owner.Keys == old(owner.Keys) + Span(sbrk.value, ChunkUnits(nu))
      ensures ok ==>
        freep in size && freep in ptr && ptr[freep] in size && (size[freep] >= nu || size[ptr[freep]] >= nu)
    {
      ghost var j := NodeOf(freep);
      if sbrk.None? {
        return false;
      }
      var hp, n := sbrk.value, ChunkUnits(nu);
      GrowReady(hp, n);
      GrowLive(blocks, owner, hp, n);
      Fresh(hp, n);
      size := size[hp := n];
      blocks, owner := blocks[hp := Block(n, false)], GrowOwner(owner, hp, n);
      Free(hp + 1);
      ok := true;
    }

    /** New memory is not live before. */
    lemma Fresh(hp: int, n: int)
      requires Ready() && hp !in blocks && Span(hp, n) !! owner.Keys
      ensures LiveUnits(blocks, owner) + Span(hp, n) - Span(hp, n) == LiveUnits(blocks, owner)
      ensures Live(blocks)[hp := n] - {hp} == Live(blocks)
      ensures Live(blocks[hp := Block(n, false)]) == Live(blocks)[hp := n]
    {
    }

    /** A free block of just the size leaves the ring. */
    method TakeExact(prevp: int, p: int, nunits: int, ghost k: int) returns (q: int)
      requires Ready() && 1 <= k < |ring| && ring[k] == p && ring[k - 1] == prevp && p in size && size[p] == nunits > 0
      modifies this
      ensures Ready() && freep != 0 && owner.Keys == old(owner.Keys)
      ensures q !in old(Live(blocks)) && Live(blocks) == old(Live(blocks))[q := nunits]
      ensures LiveUnits(blocks, owner) == old(LiveUnits(blocks, owner)) + Span(q, nunits)
      ensures Span(q, nunits) !! old(LiveUnits(blocks, owner)) && q > base
    {
      NodeFacts(base, Now(), k);
      NodeFacts(base, Now(), k - 1);
      ghost var g := TakeWhole(base, Now(), k);
      ptr := ptr[prevp := ptr[p]];
      q := p;
      freep := prevp;
      Adopt(g);
    }

    /** The tail of a larger free block. */
    method TakePart(prevp: int, p: int, nunits: int, ghost k: int) returns (q: int)
      requires Ready() && 1 <= k < |ring| && ring[k] == p && ring[k - 1] == prevp && p in size && size[p] > nunits > 0
      modifies this
      ensures Ready() && freep != 0 && owner.Keys == old(owner.Keys)
      ensures q !in old(Live(blocks)) && Live(blocks) == old(Live(blocks))[q := nunits]
      ensures LiveUnits(blocks, owner) == old(LiveUnits(blocks, owner)) + Span(q, nunits)
      ensures Span(q, nunits) !! old(LiveUnits(blocks, owner)) && q > base
    {
      NodeFacts(base, Now(), k);
      NodeFacts(base, Now(), k - 1);
      ghost var g := TakeTail(base, Now(), k, nunits);
      size := size[p := size[p] - nunits];
      q := p + size[p];
      size := size[q := nunits];
      freep := prevp;
      Adopt(g);
      NotLiveBefore(old(blocks), old(owner), q, nunits);
    }

    /** The units taken out of a free block that is large enough. */
    method Take(prevp: int, p: int, nunits: int, ghost k: int) returns (q: int)
      requires Ready() && 1 <= k < |ring| && ring[k] == p && ring[k - 1] == prevp && p in size && size[p] >= nunits > 0
      modifies this
      ensures Ready() && freep != 0 && owner.Keys == old(owner.Keys)
      ensures q !in old(Live(blocks)) && Live(blocks) == old(Live(blocks))[q := nunits]
      ensures LiveUnits(blocks, owner) == old(LiveUnits(blocks, owner)) + Span(q, nunits)
      ensures Span(q, nunits) !! old(LiveUnits(blocks, owner)) && q > base
    {
      if size[p] == nunits {
        q := TakeExact(prevp, p, nunits, k);
      } else {
        q := TakePart(prevp, p, nunits, k);
      }
    }

    static lemma NotLiveBefore(blocks: Blocks, owner: Owner, q: int, n: int)
      requires Tiled(blocks, owner) && n > 0 && Span(q, n) !! LiveUnits(blocks, owner)
      ensures q !in Live(blocks)
    {
      assert q in Span(q, n) && q !in LiveUnits(blocks, owner);
      assert q in blocks ==> BlockOk(blocks, owner, q);
    }

    /** No free block has n units. */
    ghost predicate NoRoom(n: int)
      reads this
    {
      forall h :: h in blocks && blocks[h].free ==> blocks[h].units < n
    }

    /** Nodes the search has passed, on its way from the one after node f round to node f, are too small. */
    ghost predicate Passed(k: int, f: int, n: int)
      reads this
    {
      forall j {:trigger Small(j, n)} :: 0 <= j < |ring| && Dist(|ring|, j, f) > Dist(|ring|, k, f) ==> Small(j, n)
    }

    ghost predicate Small(j: int, n: int)
      requires 0 <= j < |ring|
      reads this
    {
      ring[j] in size && size[ring[j]] < n
    }

    lemma PassFirst(f: int, n: int)
      requires 0 <= f < |ring|
      ensures Passed(Succ(|ring|, f), f, n)
    {
    }

    lemma PassNext(k: int, f: int, n: int)
      requires 0 <= f < |ring| && 0 <= k < |ring| && k != f && Passed(k, f, n) && ring[k] in size && size[ring[k]] < n
      ensures Passed(Succ(|ring|, k), f, n) && 0 <= Dist(|ring|, Succ(|ring|, k), f) < Dist(|ring|, k, f)
    {
      forall j | 0 <= j < |ring| && Dist(|ring|, j, f) > Dist(|ring|, Succ(|ring|, k), f)
        ensures Small(j, n)
      {
        assert j == k || Dist(|ring|, j, f) > Dist(|ring|, k, f);
      }
    }

    lemma AllPassed(f: int, n: int)
      requires Ready() && 0 <= f < |ring| && Passed(f, f, n) && ring[f] in size && size[ring[f]] < n
      ensures NoRoom(n) && forall j {:trigger Small(j, n)} :: 0 <= j < |ring| ==> Small(j, n)
    {
      forall j | 0 <= j < |ring| ensures Small(j, n) { assert j == f || Dist(|ring|, j, f) > 0; }
      forall h | h in blocks && blocks[h].free ensures blocks[h].units < n {
        var j :| 0 <= j < |ring| && ring[j] == h;
        assert Small(j, n);
      }
    }

    /**
    One turn of malloc's loop round the ring, from the node after freep to freep itself: the
    first node with enough units and the node before it, or none has enough.
     */
    method FindFit(nunits: int) returns (found: bool, prevp: int, p: int, ghost k: int, ghost f: int)
      requires Ready() && nunits > 0
      ensures found ==> 1 <= k < |ring| && ring[k] == p && ring[k - 1] == prevp && p in size && size[p] >= nunits
      ensures 0 <= f < |ring| && ring[f] == freep && Passed(k, f, nunits)
      ensures !found ==> NoRoom(nunits) && forall j {:trigger Small(j, nunits)} :: 0 <= j < |ring| ==> Small(j, nunits)
    {
      prevp := freep;
      f := NodeOf(freep);
      p := ptr[prevp];
      k := Succ(|ring|, f);
      PassFirst(f, nunits);
      while true
        invariant 0 <= k < |ring| && ring[k] == p && p in size && (k > 0 ==> prevp == ring[k - 1])
        invariant Passed(k, f, nunits)
        decreases Dist(|ring|, k, f)
      {
        if size[p] >= nunits {
          NotBase(k);
          return true, prevp, p, k, f;
        }
        if p == freep {
          SameNode(k, f);
          AllPassed(f, nunits);
          return false, prevp, p, k, f;
        }
        NextNode(k);
        OtherNode(k, f);
        PassNext(k, f, nunits);
        prevp, p := p, ptr[p];
        k := Succ(|ring|, k);
      }
    }

    lemma NotBase(k: int)
      requires Ready() && 0 <= k < |ring| && ring[k] in size && size[ring[k]] > 0
      ensures k > 0
    {
    }

    lemma OtherNode(k: int, f: int)
      requires 0 <= k < |ring| && 0 <= f < |ring| && ring[k] != ring[f]
      ensures k != f
    {
    }

    lemma NextNode(k: int)
      requires Ready() && 0 <= k < |ring|
      ensures ring[k] in ptr && ptr[ring[k]] == ring[Succ(|ring|, k)] && ptr[ring[k]] in size
    {
      NodeFacts(base, Now(), k);
      NodeFacts(base, Now(), Succ(|ring|, k));
    }

    /**
    The search of malloc. When a turn of the loop finds nothing it asks for memory and starts
    again from the new freep; `grew` tells if it did. The second turn always succeeds.
     */
    method Search(nunits: int, sbrk: Option<int>) returns (q: Option<int>, ghost grew: bool)
      requires Ready() && nunits > 0
      requires sbrk.Some? ==> Span(sbrk.value, ChunkUnits(nunits)) !! owner.Keys && sbrk.value > base
      modifies this
      ensures Ready() && freep != 0 && owner.Keys == old(owner.Keys) + Obtained(sbrk, nunits, grew)
      ensures grew ==> sbrk.Some? && old(NoRoom(nunits))
      ensures q.None? ==> sbrk.None? && old(NoRoom(nunits)) && blocks == old(blocks) && owner == old(owner)
      ensures q.Some? ==>
        q.value !in old(Live(blocks)) && Live(blocks) == old(Live(blocks))[q.value := nunits] && q.value > base
      ensures q.Some? ==> LiveUnits(blocks, owner) == old(LiveUnits(blocks, owner)) + Span(q.value, nunits)
      ensures q.Some? ==> Span(q.value, nunits) !! old(LiveUnits(blocks, owner))
      ensures q.Some? && !grew ==> !old(NoRoom(nunits))
    {
      hide Live;
      hide LiveUnits;
      hide Span;
      grew := false;
      var found, prevp, p, k, f := FindFit(nunits);
      if !found {
        var ok := MoreCore(nunits, sbrk);
        if !ok {
          return None, false;
        }
        grew := true;
        ghost var j := NodeOf(freep);
        found, prevp, p, k, f := FindFit(nunits);
        assert !found ==> Small(j, nunits) && Small(Succ(|ring|, j), nunits);
      } else {
        NodeFacts(base, Now(), k);
      }
      var taken := Take(prevp, p, nunits, k);
      return Some(taken), grew;
    }

    lemma SameNode(j: int, k: int)
      requires Ready() && 0 <= j < |ring| && 0 <= k < |ring| && ring[j] == ring[k]
      ensures j == k
    {
    }

    /**
    malloc. A block handed out has room for nbytes after its header and overlaps no other live
    block; all other live blocks stay. The memory obtained grows by at most one chunk, and only
    if no free block is large enough. It fails exactly for sizes that do not fit 64 bits, or
    when memory is needed and there is none.
     */
    method Malloc(nbytes: int, sbrk: Option<int>) returns (r: Option<int>, ghost grew: bool)
      requires Valid() && 0 <= nbytes < WORD
      requires sbrk.Some? ==> Span(sbrk.value, ChunkUnits(Units(nbytes))) !! owner.Keys && sbrk.value > base
      modifies this
      ensures Valid() && owner.Keys == old(owner.Keys) + Obtained(sbrk, Units(nbytes), grew)
      ensures grew ==> sbrk.Some? && old(NoRoom(Units(nbytes)))
      ensures r.None? <==> nbytes > WORD - 2 * HEADER || (sbrk.None? && old(NoRoom(Units(nbytes))))
      ensures r.None? ==> blocks == old(blocks) && owner == old(owner)
      ensures r.Some? ==> (Units(nbytes) - 1) * HEADER >= nbytes && Units(nbytes) * HEADER < WORD
      ensures r.Some? ==>
        r.value - 1 !in old(Live(blocks)) && Live(blocks) == old(Live(blocks))[r.value - 1 := Units(nbytes)]
      ensures r.Some? ==> LiveUnits(blocks, owner) == old(LiveUnits(blocks, owner)) + Span(r.value - 1, Units(nbytes))
      ensures r.Some? ==> Span(r.value - 1, Units(nbytes)) !! old(LiveUnits(blocks, owner))
    {
      UnitsFit(nbytes);
      grew := false;
      var nunits := Units(nbytes);
      if nunits * HEADER % WORD < nbytes {
        return None, false;
      }
      if freep == 0 {
        ptr, size, freep := ptr[base := base], size[base := 0], base;
        ring := [base];
        FirstRing();
      }
      var q;
      q, grew := Search(nunits, sbrk);
      if q.None? {
        return None, grew;
      }
      r := Some(q.value + 1);
    }

    /** The ring of the base alone. */
    lemma FirstRing()
      requires 0 < base && freep == base && ring == [base] && blocks == map[] && owner == map[]
      requires base in ptr && ptr[base] == base && base in size && size[base] == 0
      ensures Ready()
    {
      assert LinkAt(ring, ptr, 0);
    }
  }

  /** The memory got from sbrk. */
  ghost function Obtained(sbrk: Option<int>, nu: int, grew: bool): set<int> {
    if grew && sbrk.Some? then Span(sbrk.value, ChunkUnits(nu)) else {}
  }

  function ChunkUnits(nu: int): int { if nu < CHUNK then CHUNK else nu }
}
