/**
The regions of an address space (`kernel/mm/vm.c`): which region covers an address, where a
new region goes in the list, and what the overlap test and the search for a free range do.
 */
module Regions {
  import opened Common

  const PG_SIZE := 4096
  const WORD := 0x1_0000_0000_0000_0000

  /** The first address of the kernel (`kvm_base`). */
  const KVM_BASE := 0xFFFF_FFFF_8000_0000

  /** The lowest address of the user stack; ten pages. */
  const USTACK_LOWERBOUND := 0xFFFF_FF7F_FFFF_F000 - 10 * PG_SIZE

  type Vpn = int

  /** Memory permissions of a region (memperm_t). */
  datatype Perm = R | RW | UR | URW {
    predicate Writable() { RW? || URW? }

    predicate Kernel() { R? || RW? }
  }

  function RoundUp(a: int): (r: int)
    ensures a <= r < a + PG_SIZE && r % PG_SIZE == 0
  {
    (a + PG_SIZE - 1) / PG_SIZE * PG_SIZE
  }

  /** A region of an address space, in byte addresses. */
  datatype Region = Region(start: nat, end: nat, perm: Perm) {
    predicate Covers(addr: nat) { start <= addr && addr + 1 <= RoundUp(end) }

    /** The number of pages `memregion_copy_internal` asks `vpmap_cow_copy` to share. */
    function PageCount(): nat {
      if end <= start then 0 else RoundUp(end - start) / PG_SIZE
    }

    predicate HasPage(v: Vpn) {
      start / PG_SIZE <= v < start / PG_SIZE + PageCount()
    }

    /** What the assertions and the first test of `memregion_map_internal` ask of a user region. */
    predicate Fits() {
      start % PG_SIZE == 0 && start <= end && !perm.Kernel() && RoundUp(end) < KVM_BASE
    }

    /** `memregion_find_internal(as, addr, addr+size)`, which finds this region: the end of the
        new range is passed where its size is meant, and the sum wraps. */
    predicate Refuses(r: Region) {
      start <= r.start && (r.start + r.end) % WORD <= RoundUp(end)
    }

    /** The ranges have an address in common. */
    predicate Overlaps(lo: int, hi: int) { start < hi && lo < RoundUp(end) }
  }

  /** `memregion_find_internal` with size 1: the first region that covers the address. */
  function FindRegion(rs: seq<Region>, addr: nat): (r: Option<Region>)
    ensures r.Some? ==> r.value in rs && r.value.Covers(addr)
    ensures r.None? ==> forall x :: x in rs ==> !x.Covers(addr)
  {
    if rs == [] then None
    else if rs[0].Covers(addr) then Some(rs[0])
    else FindRegion(rs[1..], addr)
  }

  // ---------------------------------------------------------------- the overlap test

  /** `memregion_map_internal` goes ahead with the region. */
  predicate Accepts(rs: seq<Region>, r: Region) {
    r.Fits() && forall x :: x in rs ==> !x.Refuses(r)
  }

  /**
  The test against the documented condition that no address is in both ranges. While the sum of
  the bounds does not wrap, only overlapping regions are refused. An overlapping region is
  refused exactly if it starts in or above x and the sum wraps or stays within x; one that is
  apart is refused exactly if it starts above x and the sum wraps to a value within or below x.
   */
  lemma OverlapTest(x: Region, r: Region)
    requires x.Fits() && r.Fits() && r.start < r.end
    ensures var sum, top := r.start + r.end, RoundUp(x.end);
      && (sum < WORD && x.Refuses(r) ==> x.Overlaps(r.start, r.end))
      && (sum >= WORD && x.start <= r.start && x.Overlaps(r.start, r.end) ==> x.Refuses(r))
      && ((x.Refuses(r) <==> x.Overlaps(r.start, r.end)) <==>
           if x.Overlaps(r.start, r.end) then x.start <= r.start && (sum < WORD ==> sum <= top)
           else sum < WORD || r.start < x.start || top < sum - WORD)
  {
    if r.start + r.end >= WORD {
      assert (r.start + r.end) % WORD == r.start + r.end - WORD;
    }
  }

  /** The test does not keep regions apart: the same range can be mapped twice, unless it
      starts at 0 or the sum of its bounds wraps. */
  lemma SameRangeTwice(r: Region)
    requires r.Fits()
    ensures Accepts([r], r) <==> r.start > 0 && (r.start + r.end < WORD || r.start + r.end - WORD > RoundUp(r.end))
  {
    assert Accepts([r], r) <==> !r.Refuses(r) by { assert forall x :: x in [r] <==> x == r; }
    if r.start + r.end >= WORD {
      assert (r.start + r.end) % WORD == r.start + r.end - WORD;
    }
  }

  // ---------------------------------------------------------------- the order of the list

  /** The slab allocator fills objects with 0x2b, and `memregion_map_internal` links a
      region into the list before storing its bounds, so this is the bound compared. */
  const UNSET_BOUND := 0x2b2b2b2b2b2b2b2b

  /** `list_append_ordered` as `memregion_map_internal` uses it. */
  function LinkRegion(rs: seq<Region>, r: Region): (s: seq<Region>)
    ensures forall x :: x in s <==> x in rs || x == r
  {
    if rs == [] then [r]
    else if rs[0].start >= UNSET_BOUND then [r] + rs
    else [rs[0]] + LinkRegion(rs[1..], r)
  }

  /** The new region goes before the first region at or above the unset bound, or at the end. */
  lemma {:induction false} LinkPlace(rs: seq<Region>, r: Region) returns (k: nat)
    ensures k <= |rs| && LinkRegion(rs, r) == rs[..k] + [r] + rs[k..]
    ensures (forall j :: 0 <= j < k ==> rs[j].start < UNSET_BOUND) && (k < |rs| ==> rs[k].start >= UNSET_BOUND)
  {
    if rs == [] || rs[0].start >= UNSET_BOUND {
      k := 0;
    } else {
      var j := LinkPlace(rs[1..], r);
      k := j + 1;
      assert rs[..k] == [rs[0]] + rs[1..][..j] && rs[k..] == rs[1..][j..];
    }
  }

  /** The order `struct addrspace` promises for its list. */
  ghost predicate Sorted(rs: seq<Region>) {
    forall i, j :: 0 <= i < j < |rs| ==> rs[i].start <= rs[j].start
  }

  lemma SortedTail(x: Region, s: seq<Region>)
    requires Sorted([x] + s)
    ensures Sorted(s) && forall y :: y in s ==> x.start <= y.start
  {
    var t := [x] + s;
    forall i, j | 0 <= i < j < |s| ensures s[i].start <= s[j].start {
      assert t[i + 1].start <= t[j + 1].start;
    }
    forall i | 0 <= i < |s| ensures x.start <= s[i].start {
      assert t[0].start <= t[i + 1].start;
    }
  }

  lemma SortedCons(x: Region, s: seq<Region>)
    ensures Sorted([x] + s) <==> Sorted(s) && forall y :: y in s ==> x.start <= y.start
  {
    if Sorted([x] + s) {
      SortedTail(x, s);
    }
  }

  /** The new region does not go past a region of the list it should go past. */
  ghost predicate InPlace(x: Region, r: Region) {
    if x.start < UNSET_BOUND then x.start <= r.start else r.start <= x.start
  }

  ghost predicate AllInPlace(rs: seq<Region>, r: Region) { forall x :: x in rs ==> InPlace(x, r) }

  lemma LinkCons(x: Region, t: seq<Region>, r: Region)
    requires Sorted([x] + t) && x.start < UNSET_BOUND
    requires Sorted(LinkRegion(t, r)) <==> AllInPlace(t, r)
    ensures Sorted([x] + LinkRegion(t, r)) <==> AllInPlace([x] + t, r)
  {
    SortedTail(x, t);
    SortedCons(x, LinkRegion(t, r));
    assert r in LinkRegion(t, r) && forall y :: y in t ==> x.start <= y.start;
    assert (forall y :: y in LinkRegion(t, r) ==> x.start <= y.start) <==> InPlace(x, r);
    assert forall y :: y in [x] + t <==> y == x || y in t;
  }

  lemma LinkFirst(x: Region, t: seq<Region>, r: Region)
    requires Sorted([x] + t) && x.start >= UNSET_BOUND
    ensures Sorted([r] + ([x] + t)) <==> AllInPlace([x] + t, r)
  {
    SortedTail(x, t);
    SortedCons(r, [x] + t);
    forall y | y in [x] + t ensures InPlace(y, r) <==> r.start <= y.start { assert y == x || y in t; }
  }

  /** A list in order stays in order exactly if the new region starts above every region below
      the unset bound, and below every other. */
  lemma {:induction false} LinkSorted(rs: seq<Region>, r: Region)
    requires Sorted(rs)
    ensures Sorted(LinkRegion(rs, r)) <==> AllInPlace(rs, r)
  {
    if rs != [] {
      var x, t := rs[0], rs[1..];
      assert rs == [x] + t;
      if x.start >= UNSET_BOUND {
        LinkFirst(x, t, r);
      } else {
        SortedTail(x, t);
        LinkSorted(t, r);
        LinkCons(x, t, r);
      }
    }
  }

  /** Two regions that any program can map, and a list out of order. */
  lemma LinkUnsorted()
    ensures var a, b := Region(0x2000, 0x3000, URW), Region(0x1000, 0x2000, URW);
      Accepts([], a) && Accepts([a], b) && LinkRegion([a], b) == [a, b] && Sorted([a]) && !Sorted([a, b])
  {
    var a, b := Region(0x2000, 0x3000, URW), Region(0x1000, 0x2000, URW);
    assert [a][1..] == [] && LinkRegion([a], b) == [a] + LinkRegion([], b) == [a, b];
    assert !a.Refuses(b) && forall x :: x in [a] <==> x == a;
    assert [a, b][0].start > [a, b][1].start;
  }

  // ---------------------------------------------------------------- the search for a free range

  /** Sorted, and no two regions share a page. */
  ghost predicate Ascending(rs: seq<Region>) {
    forall i, j :: 0 <= i < j < |rs| ==> RoundUp(rs[i].end) <= rs[j].start
  }

  /** What `find_free_vaddr` returns when it has passed the first i regions and `addr` is the
      bound it goes on from. */
  function FreeFrom(rs: seq<Region>, i: nat, addr: nat, size: nat): Option<nat>
    requires i <= |rs|
    decreases |rs| - i
  {
    if i == |rs| then
      if RoundUp(addr + size) < USTACK_LOWERBOUND - size then Some(addr) else None
    else if RoundUp(addr + size) < rs[i].start then Some(addr)
    else FreeFrom(rs, i + 1, RoundUp(rs[i].end), size)
  }

  /** find_free_vaddr. */
  method FindFreeVaddr(rs: seq<Region>, size: nat) returns (addr: Option<nat>)
    ensures addr == FreeFrom(rs, 0, if rs == [] then 0 else rs[0].end, size)
  {
    var a: nat := if rs == [] then 0 else rs[0].end;
    for i := 0 to |rs|
      invariant FreeFrom(rs, i, a, size) == FreeFrom(rs, 0, if rs == [] then 0 else rs[0].end, size)
    {
      if RoundUp(a + size) < rs[i].start {
        return Some(a);
      }
      a := RoundUp(rs[i].end);
    }
    addr := if RoundUp(a + size) < USTACK_LOWERBOUND - size then Some(a) else None;
  }

  /** The range found for a size meets no region. */
  ghost predicate FoundFree(rs: seq<Region>, size: nat) {
    var a := FreeFrom(rs, 0, if rs == [] then 0 else rs[0].end, size);
    a.Some? ==> Clear(rs, a.value, size)
  }

  ghost predicate Clear(rs: seq<Region>, addr: int, size: int) {
    forall x :: x in rs ==> !x.Overlaps(addr, addr + size)
  }

  /** Gap i lies behind region i - 1 of the list. */
  function GapStart(rs: seq<Region>, i: nat): nat
    requires 0 < i <= |rs|
  {
    RoundUp(rs[i - 1].end)
  }

  /** The largest size the search accepts in gap i, or a negative number. After the last region
      the size counts twice. */
  function Room(rs: seq<Region>, i: nat): int
    requires 0 < i <= |rs|
  {
    if i < |rs| then rs[i].start - PG_SIZE - GapStart(rs, i)
    else
      var pages := (USTACK_LOWERBOUND - GapStart(rs, i)) / PG_SIZE;
      if pages <= 0 then -1 else pages / 2 * PG_SIZE - if pages % 2 == 0 then 1 else 0
  }

  /** The test of the search at gap i. */
  predicate FitsAt(rs: seq<Region>, i: nat, size: nat)
    requires 0 < i <= |rs|
  {
    var end := RoundUp(GapStart(rs, i) + size);
    if i < |rs| then end < rs[i].start else end < USTACK_LOWERBOUND - size
  }

  /** m pages hold the size; p pages are left. */
  lemma LastRoom(p: int, m: int, size: int)
    requires 0 <= size <= PG_SIZE * m < size + PG_SIZE
    ensures PG_SIZE * m + size < PG_SIZE * p <==>
      0 < p && size <= p / 2 * PG_SIZE - if p % 2 == 0 then 1 else 0
  {
    if p % 2 == 0 {
      assert p == 2 * (p / 2);
    } else {
      assert p == 2 * (p / 2) + 1;
    }
  }

  lemma RoundShift(a: int, size: int)
    requires a % PG_SIZE == 0
    ensures RoundUp(a + size) == a + RoundUp(size) && RoundUp(size) == PG_SIZE * (RoundUp(size) / PG_SIZE)
  {
  }

  lemma Whole(a: int, b: int)
    requires a % PG_SIZE == 0 && b % PG_SIZE == 0
    ensures b - a == PG_SIZE * ((b - a) / PG_SIZE)
  {
  }

  lemma MidRoom(p: int, m: int, size: int)
    requires 0 <= size <= PG_SIZE * m < size + PG_SIZE
    ensures PG_SIZE * m < PG_SIZE * p <==> size <= PG_SIZE * p - PG_SIZE
  {
  }

  lemma RoomFits(rs: seq<Region>, i: nat, size: nat)
    requires 0 < i <= |rs| && forall x :: x in rs ==> x.Fits()
    ensures FitsAt(rs, i, size) <==> size <= Room(rs, i)
  {
    hide RoundUp;
    var a := GapStart(rs, i);
    RoundShift(a, size);
    if i < |rs| {
      assert rs[i] in rs && rs[i].Fits();
      Whole(a, rs[i].start);
      MidRoom((rs[i].start - a) / PG_SIZE, RoundUp(size) / PG_SIZE, size);
    } else {
      Whole(a, USTACK_LOWERBOUND);
      LastRoom((USTACK_LOWERBOUND - a) / PG_SIZE, RoundUp(size) / PG_SIZE, size);
    }
  }

  /** The search takes the first gap that is wide enough. */
  lemma {:induction false} TakesFirst(rs: seq<Region>, i: nat, size: nat) returns (g: Option<nat>)
    requires 0 < i <= |rs|
    ensures g.Some? ==> i <= g.value <= |rs| && FitsAt(rs, g.value, size)
    ensures forall k :: i <= k < (if g.Some? then g.value else |rs| + 1) ==> !FitsAt(rs, k, size)
    ensures FreeFrom(rs, i, GapStart(rs, i), size) == if g.Some? then Some(GapStart(rs, g.value)) else None
    decreases |rs| - i
  {
    if FitsAt(rs, i, size) {
      g := Some(i);
    } else if i == |rs| {
      g := None;
    } else {
      g := TakesFirst(rs, i + 1, size);
    }
  }

  lemma SearchTakesFirst(rs: seq<Region>, size: nat) returns (g: Option<nat>)
    requires rs != [] && forall x :: x in rs ==> x.Fits()
    ensures g.Some? ==> 0 < g.value <= |rs| && FitsAt(rs, g.value, size)
    ensures forall k :: 0 < k < (if g.Some? then g.value else |rs| + 1) ==> !FitsAt(rs, k, size)
    ensures FreeFrom(rs, 0, rs[0].end, size) == if g.Some? then Some(GapStart(rs, g.value)) else None
  {
    assert rs[0] in rs && rs[0].Fits();
    g := TakesFirst(rs, 1, size);
  }

  /** Some size up to the bound is put into gap i: the gap is wider than every gap before it. */
  ghost predicate Used(rs: seq<Region>, i: nat, bound: nat)
    requires 0 < i <= |rs|
  {
    0 <= Room(rs, i) && forall k :: 0 < k < i ==> Room(rs, k) < Smaller(Room(rs, i), bound)
  }

  function Smaller(a: int, b: int): int { if a < b then a else b }

  /** Used gaps are clear for the largest size that is put there. */
  ghost predicate GapsClear(rs: seq<Region>, bound: nat) {
    forall i {:trigger Used(rs, i, bound)} :: 0 < i <= |rs| && Used(rs, i, bound) ==>
      Clear(rs, GapStart(rs, i), Smaller(Room(rs, i), bound))
  }

  lemma ClearGapsFree(rs: seq<Region>, bound: nat, size: nat)
    requires (forall x :: x in rs ==> x.Fits()) && GapsClear(rs, bound) && size <= bound
    ensures FoundFree(rs, size)
  {
    if rs != [] {
      var g := SearchTakesFirst(rs, size);
      if g.Some? {
        RoomFits(rs, g.value, size);
        forall k | 0 < k < g.value ensures Room(rs, k) < Smaller(Room(rs, g.value), bound) { RoomFits(rs, k, size); }
        assert Used(rs, g.value, bound);
      }
    }
  }

  lemma FreeGapClear(rs: seq<Region>, bound: nat, i: nat)
    requires (forall x :: x in rs ==> x.Fits()) && 0 < i <= |rs| && Used(rs, i, bound)
    requires FoundFree(rs, Smaller(Room(rs, i), bound))
    ensures Clear(rs, GapStart(rs, i), Smaller(Room(rs, i), bound))
  {
    var size: nat := Smaller(Room(rs, i), bound);
    var g := SearchTakesFirst(rs, size);
    RoomFits(rs, i, size);
    forall k | 0 < k < i ensures !FitsAt(rs, k, size) { RoomFits(rs, k, size); }
    assert g == Some(i);
  }

  /** Every size up to the bound gets a free range if and only if each gap that is wider than all
      the gaps before it holds no other region as far as the sizes put there reach. */
  lemma FoundFreeIff(rs: seq<Region>, bound: nat)
    requires forall x :: x in rs ==> x.Fits()
    ensures (forall size: nat :: size <= bound ==> FoundFree(rs, size)) <==> GapsClear(rs, bound)
  {
    if GapsClear(rs, bound) {
      forall size: nat | size <= bound ensures FoundFree(rs, size) { ClearGapsFree(rs, bound, size); }
    }
    if forall size: nat :: size <= bound ==> FoundFree(rs, size) {
      forall i | 0 < i <= |rs| && Used(rs, i, bound)
        ensures Clear(rs, GapStart(rs, i), Smaller(Room(rs, i), bound))
      {
        FreeGapClear(rs, bound, i);
      }
    }
  }

  /** A list that ascends meets this for every size. */
  lemma AscendingClear(rs: seq<Region>, bound: nat)
    requires Ascending(rs) && forall x :: x in rs ==> x.Fits()
    ensures GapsClear(rs, bound)
  {
    forall i | 0 < i <= |rs| && Used(rs, i, bound)
      ensures Clear(rs, GapStart(rs, i), Smaller(Room(rs, i), bound))
    {
      assert rs[i - 1] in rs && rs[i - 1].Fits();
      forall x | x in rs ensures !x.Overlaps(GapStart(rs, i), GapStart(rs, i) + Smaller(Room(rs, i), bound)) {
        var j :| 0 <= j < |rs| && rs[j] == x;
        assert j < i - 1 ==> RoundUp(rs[j].end) <= rs[i - 1].start;
        assert j > i ==> RoundUp(rs[i].end) <= rs[j].start;
        assert i < |rs| ==> rs[i] in rs && rs[i].Fits();
      }
    }
  }

  /** In a list out of order the range found can overlap a region. */
  lemma FoundNotFree()
    ensures var a, b := Region(0x8000, 0x9000, URW), Region(0x1000, 0x2000, URW); var rs := LinkRegion([a], b);
      && Accepts([], a) && Accepts([a], b)
      && FreeFrom(rs, 0, rs[0].end, 0x7000) == Some(0x2000) && a in rs && a.Overlaps(0x2000, 0x2000 + 0x7000)
  {
    var a, b := Region(0x8000, 0x9000, URW), Region(0x1000, 0x2000, URW);
    var rs := LinkRegion([a], b);
    assert [a][1..] == [] && rs == [a] + LinkRegion([], b) == [a, b];
    assert !a.Refuses(b) && forall x :: x in [a] <==> x == a;
    assert FreeFrom(rs, 2, 0x2000, 0x7000) == Some(0x2000);
    assert FreeFrom(rs, 1, 0x9000, 0x7000) == Some(0x2000);
  }
}
