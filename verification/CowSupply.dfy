/**
What a fork takes: one record for each region, and a frame for each page table page the
child's entries need. A table page is named by its level and the part of the page number that
leads to it; page v needs one on each of the three levels below the root.
 */
module CowSupply {
  import opened Regions

  type Node = (int, int)

  function Path(v: Vpn): set<Node> { {(3, v / 512 / 512 / 512)} + {(2, v / 512 / 512)} + {(1, v / 512)} }

  ghost function Paths(pages: set<Vpn>): set<Node> { set v, n | v in pages && n in Path(v) :: n }

  function New(n: Node, nodes: set<Node>): nat { if n in nodes then 0 else 1 }

  lemma OneMore(rest: set<Node>, n: Node, nodes: set<Node>)
    requires n !in rest
    ensures |rest + {n} - nodes| == |rest - nodes| + New(n, nodes)
  {
    if n in nodes {
      assert rest + {n} - nodes == rest - nodes;
    } else {
      assert rest + {n} - nodes == (rest - nodes) + {n};
    }
  }

  /** The walk needs the tables on the three levels, one by one. */
  lemma PathNeed(nodes: set<Node>, v: Vpn)
    ensures |Path(v) - nodes| ==
      New((3, v / 512 / 512 / 512), nodes) + New((2, v / 512 / 512), nodes) + New((1, v / 512), nodes)
  {
    var a, b, c := (3, v / 512 / 512 / 512), (2, v / 512 / 512), (1, v / 512);
    OneMore({}, a, nodes);
    OneMore({a}, b, nodes);
    OneMore({a} + {b}, c, nodes);
    assert {} + {a} == {a} && {} - nodes == {};
  }

  lemma PathAdds(nodes: set<Node>, v: Vpn)
    ensures nodes + {(3, v / 512 / 512 / 512)} + {(2, v / 512 / 512)} + {(1, v / 512)} == nodes + Path(v)
    ensures var (a, b, c) := ((3, v / 512 / 512 / 512), (2, v / 512 / 512), (1, v / 512));
      New(b, nodes + {a}) == New(b, nodes) && New(c, nodes + {a} + {b}) == New(c, nodes)
  {
  }

  /** The child so far: the pages it maps, its table pages, and the frames still free. */
  datatype Progress = Progress(pages: set<Vpn>, nodes: set<Node>, free: int)

  ghost function Take(x: Progress, pages: set<Vpn>): Progress {
    Progress(x.pages + pages, x.nodes + Paths(pages), x.free - |Paths(pages) - x.nodes|)
  }

  /** The child has none of these pages, and there are frames for the tables they need. */
  ghost predicate CanTake(x: Progress, pages: set<Vpn>) {
    x.pages !! pages && |Paths(pages) - x.nodes| <= x.free
  }

  lemma PathsUnion(a: set<Vpn>, b: set<Vpn>)
    ensures Paths(a + b) == Paths(a) + Paths(b)
  {
  }

  lemma PathsOne(v: Vpn)
    ensures Paths({v}) == Path(v)
  {
  }

  lemma PathsNone()
    ensures Paths({}) == {}
  {
  }

  /** Pages can be taken in two parts exactly if the parts are apart and all can be taken. */
  lemma TakeTwo(x: Progress, a: set<Vpn>, b: set<Vpn>)
    ensures Take(Take(x, a), b) == Take(x, a + b)
    ensures CanTake(x, a) && CanTake(Take(x, a), b) <==> a !! b && CanTake(x, a + b)
  {
    PathsUnion(a, b);
    var p, q := Paths(a) - x.nodes, Paths(b) - (x.nodes + Paths(a));
    assert Paths(a + b) - x.nodes == p + q && p !! q;
    assert x.nodes + Paths(a) + Paths(b) == x.nodes + (Paths(a) + Paths(b));
    assert x.pages + a + b == x.pages + (a + b);
    assert x.pages !! a + b <==> x.pages !! a && x.pages !! b;
    assert (x.pages + a) !! b <==> x.pages !! b && a !! b;
  }

  lemma TakeOne(x: Progress, v: Vpn)
    ensures Take(x, {v}) == Progress(x.pages + {v}, x.nodes + Path(v), x.free - |Path(v) - x.nodes|)
    ensures CanTake(x, {v}) <==> v !in x.pages && |Path(v) - x.nodes| <= x.free
  {
    PathsOne(v);
  }

  lemma TakeLeft(x: Progress, pages: set<Vpn>)
    ensures CanTake(x, pages) ==> 0 <= Take(x, pages).free
  {
  }

  lemma TakeNothing(x: Progress)
    ensures Take(x, {}) == x && (CanTake(x, {}) <==> 0 <= x.free)
  {
    PathsNone();
    assert x.pages + {} == x.pages && x.nodes + {} == x.nodes && {} - x.nodes == {};
  }

  // ---------------------------------------------------------------- the pages of a region

  /** The mapped pages among the first n pages of the region. */
  ghost function Touched(mapped: set<Vpn>, r: Region, n: nat): set<Vpn> {
    set v | v in mapped && r.start / PG_SIZE <= v < r.start / PG_SIZE + n
  }

  lemma TouchedNone(mapped: set<Vpn>, r: Region)
    ensures Touched(mapped, r, 0) == {}
  {
  }

  ghost function AtMost(mapped: set<Vpn>, v: Vpn): set<Vpn> { if v in mapped then {v} else {} }

  lemma TouchedNext(mapped: set<Vpn>, r: Region, n: nat)
    ensures Touched(mapped, r, n + 1) == Touched(mapped, r, n) + AtMost(mapped, r.start / PG_SIZE + n)
    ensures Touched(mapped, r, n) !! AtMost(mapped, r.start / PG_SIZE + n)
  {
  }

  /** What cannot be taken at some page cannot be taken at all. */
  lemma {:induction false} TouchedFails(x: Progress, mapped: set<Vpn>, r: Region, i: nat, n: nat)
    requires i <= n && CanTake(x, Touched(mapped, r, n))
    ensures CanTake(x, Touched(mapped, r, i))
    decreases n - i
  {
    if i < n {
      TouchedFails(x, mapped, r, i + 1, n);
      TouchedNext(mapped, r, i);
      TakeTwo(x, Touched(mapped, r, i), AtMost(mapped, r.start / PG_SIZE + i));
    }
  }

  // ---------------------------------------------------------------- the regions of a fork

  /** The mapped pages of the first j regions. */
  ghost function Shared(mapped: set<Vpn>, rs: seq<Region>, j: nat): set<Vpn>
    requires j <= |rs|
  {
    if j == 0 then {} else Shared(mapped, rs, j - 1) + Touched(mapped, rs[j - 1], rs[j - 1].PageCount())
  }

  lemma SharedNone(mapped: set<Vpn>, rs: seq<Region>)
    ensures Shared(mapped, rs, 0) == {}
  {
  }

  lemma SharedNext(x: Progress, mapped: set<Vpn>, rs: seq<Region>, j: nat)
    requires j < |rs|
    ensures Take(Take(x, Shared(mapped, rs, j)), Touched(mapped, rs[j], rs[j].PageCount())) ==
      Take(x, Shared(mapped, rs, j + 1))
  {
    TakeTwo(x, Shared(mapped, rs, j), Touched(mapped, rs[j], rs[j].PageCount()));
  }

  /** The fork gets past region j when it is past those before it. */
  ghost predicate CanCopyOne(x: Progress, mapped: set<Vpn>, rs: seq<Region>, j: nat, records: nat)
    requires j < |rs|
  {
    && j < records && Accepts(rs[..j], rs[j])
    && CanTake(Take(x, Shared(mapped, rs, j)), Touched(mapped, rs[j], rs[j].PageCount()))
  }

  /** The fork gets past the first j regions. */
  ghost predicate CanCopy(x: Progress, mapped: set<Vpn>, rs: seq<Region>, j: nat, records: nat)
    requires j <= |rs|
  {
    forall i {:trigger CanCopyOne(x, mapped, rs, i, records)} :: 0 <= i < j ==> CanCopyOne(x, mapped, rs, i, records)
  }

  lemma {:induction false} InShared(mapped: set<Vpn>, rs: seq<Region>, j: nat, v: Vpn)
    requires j <= |rs|
    ensures v in Shared(mapped, rs, j) <==> v in mapped && exists i :: 0 <= i < j && rs[i].HasPage(v)
  {
    if j > 0 {
      InShared(mapped, rs, j - 1, v);
      if v in mapped && rs[j - 1].HasPage(v) { assert v in Shared(mapped, rs, j); }
    }
  }

  /** The regions can be linked again in the order of the list. */
  ghost predicate Relinks(rs: seq<Region>, j: nat)
    requires j <= |rs|
  {
    forall i, k :: 0 <= i < k < j ==> !rs[i].Refuses(rs[k])
  }

  /** No mapped page lies in two of the regions. */
  ghost predicate NoPageTwice(mapped: set<Vpn>, rs: seq<Region>, j: nat)
    requires j <= |rs|
  {
    forall i, k, v :: 0 <= i < k < j && v in mapped && rs[i].HasPage(v) ==> !rs[k].HasPage(v)
  }

  lemma RelinksNext(rs: seq<Region>, j: nat)
    requires j < |rs| && rs[j].Fits()
    ensures Relinks(rs, j + 1) <==> Relinks(rs, j) && Accepts(rs[..j], rs[j])
  {
    if Relinks(rs, j + 1) {
      forall y | y in rs[..j] ensures !y.Refuses(rs[j]) {
        var i :| 0 <= i < j && rs[..j][i] == y;
        assert rs[i] == y;
      }
    }
    if Relinks(rs, j) && Accepts(rs[..j], rs[j]) {
      forall i, k | 0 <= i < k < j + 1 ensures !rs[i].Refuses(rs[k]) {
        assert k == j ==> rs[i] in rs[..j];
      }
    }
  }

  lemma NoPageTwiceNext(mapped: set<Vpn>, rs: seq<Region>, j: nat)
    requires j < |rs|
    ensures NoPageTwice(mapped, rs, j + 1) <==>
      NoPageTwice(mapped, rs, j) && Shared(mapped, rs, j) !! Touched(mapped, rs[j], rs[j].PageCount())
  {
    var a, b := Shared(mapped, rs, j), Touched(mapped, rs[j], rs[j].PageCount());
    forall v
      ensures v in a <==> v in mapped && exists i :: 0 <= i < j && rs[i].HasPage(v)
    {
      InShared(mapped, rs, j, v);
    }
    assert forall v :: v in b <==> v in mapped && rs[j].HasPage(v);
  }

  lemma CanCopyNone(x: Progress, mapped: set<Vpn>, rs: seq<Region>, records: nat)
    ensures CanCopy(x, mapped, rs, 0, records)
  {
  }

  lemma CanCopyFewer(x: Progress, mapped: set<Vpn>, rs: seq<Region>, j: nat, records: nat)
    requires j <= |rs|
    ensures CanCopy(x, mapped, rs, |rs|, records) ==> CanCopy(x, mapped, rs, j, records)
  {
  }

  lemma CanCopySplit(x: Progress, mapped: set<Vpn>, rs: seq<Region>, j: nat, records: nat)
    requires j < |rs|
    ensures CanCopy(x, mapped, rs, j + 1, records) <==>
      CanCopy(x, mapped, rs, j, records) && CanCopyOne(x, mapped, rs, j, records)
  {
  }

  /** Records, order, pages and frames suffice for the first j regions. */
  ghost predicate FitsSoFar(x: Progress, mapped: set<Vpn>, rs: seq<Region>, j: nat, records: nat)
    requires j <= |rs|
  {
    j <= records && Relinks(rs, j) && NoPageTwice(mapped, rs, j) && CanTake(x, Shared(mapped, rs, j))
  }

  lemma FitsNone(x: Progress, mapped: set<Vpn>, rs: seq<Region>, records: nat)
    requires x.pages == {} && 0 <= x.free
    ensures FitsSoFar(x, mapped, rs, 0, records)
  {
    TakeNothing(x);
  }

  lemma FitsNext(x: Progress, mapped: set<Vpn>, rs: seq<Region>, j: nat, records: nat)
    requires j < |rs| && rs[j].Fits()
    ensures FitsSoFar(x, mapped, rs, j + 1, records) <==>
      FitsSoFar(x, mapped, rs, j, records) && CanCopyOne(x, mapped, rs, j, records)
  {
    RelinksNext(rs, j);
    NoPageTwiceNext(mapped, rs, j);
    TakeTwo(x, Shared(mapped, rs, j), Touched(mapped, rs[j], rs[j].PageCount()));
  }

  /** When a fork gets past the first j regions. */
  lemma {:induction false} CanCopyIff(x: Progress, mapped: set<Vpn>, rs: seq<Region>, j: nat, records: nat)
    requires j <= |rs| && x.pages == {} && 0 <= x.free && forall r :: r in rs ==> r.Fits()
    ensures CanCopy(x, mapped, rs, j, records) <==> FitsSoFar(x, mapped, rs, j, records)
  {
    hide CanCopy;
    hide CanCopyOne;
    hide FitsSoFar;
    if j == 0 {
      FitsNone(x, mapped, rs, records);
      CanCopyNone(x, mapped, rs, records);
    } else {
      CanCopyIff(x, mapped, rs, j - 1, records);
      CanCopySplit(x, mapped, rs, j - 1, records);
      assert rs[j - 1] in rs;
      FitsNext(x, mapped, rs, j - 1, records);
    }
  }

  /** All of a fork can be done: there is a record for each region and a frame for each page
      table page, each region can be linked after those before it, and no mapped page lies in
      two regions. */
  ghost predicate ForkFits(mapped: set<Vpn>, rs: seq<Region>, records: nat, free: int) {
    |rs| <= records && Relinks(rs, |rs|) && NoPageTwice(mapped, rs, |rs|) && |Paths(mapped)| <= free
  }

  lemma ForkFitsIff(mapped: set<Vpn>, rs: seq<Region>, records: nat, free: nat)
    requires forall r :: r in rs ==> r.Fits()
    requires forall v :: v in mapped ==> exists r :: r in rs && r.HasPage(v)
    ensures CanCopy(Progress({}, {}, free), mapped, rs, |rs|, records) <==> ForkFits(mapped, rs, records, free)
  {
    CanCopyIff(Progress({}, {}, free), mapped, rs, |rs|, records);
    forall v ensures v in Shared(mapped, rs, |rs|) <==> v in mapped {
      InShared(mapped, rs, |rs|, v);
      if v in mapped {
        var r :| r in rs && r.HasPage(v);
        var i :| 0 <= i < |rs| && rs[i] == r;
      }
    }
    assert Shared(mapped, rs, |rs|) == mapped;
    assert Paths(mapped) - {} == Paths(mapped);
  }
}
