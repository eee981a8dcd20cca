/**
The kernel's own sequential code for copy-on-write, statement by statement, and the runs of
atomic steps it performs: each method ends in a state that a legal run of its process
reaches. The methods run without interruption; `NeverBlocked` and `OthersKeepOut` of module
CowTheorems say why their next statement can be executed, and finds the process as they left
it, also after steps of others.

Which free frame `pmem_alloc` picks is left open. Page table pages are frames too, so memory
can run out at any page; region records come from a supply of their own.
 */
module CowKernel {
  import opened Common
  import opened Regions
  import opened CowSupply
  import opened CowModel
  import opened CowInvariant
  import opened CowProofs
  import opened CowTheorems

  lemma {:induction false} ExecSnoc(s: State, run: seq<Step>, t: Step)
    requires Legal(s, run) && Enabled(Exec(s, run), t)
    ensures Legal(s, run + [t]) && Exec(s, run + [t]) == Next(Exec(s, run), t)
    decreases |run|
  {
    hide Enabled;
    hide Next;
    if run == [] {
      assert run + [t] == [t];
      assert [t][1..] == [];
    } else {
      ExecSnoc(Next(s, run[0]), run[1..], t);
      assert (run + [t])[1..] == run[1..] + [t];
    }
  }

  /** Steps no process can see. */
  predicate Unseen(t: Step) { !t.DoSpawn? && !t.DoStore? && !t.DoForkDone? && !t.DoExitStart? && !t.DoFaultFail? }

  /** A run of process p and of frames taken for its page tables. */
  ghost predicate RunOf(run: seq<Step>, p: Pid) { forall t :: t in run ==> t.DoKernelAlloc? || By(t, p) }

  /** A legal run of process p leads from s0 to s, and the invariant holds there. */
  ghost predicate Reached(s0: State, run: seq<Step>, s: State, p: Pid) {
    Legal(s0, run) && Exec(s0, run) == s && Inv(s) && RunOf(run, p)
  }

  /** Such a run of steps no process can see. */
  ghost predicate Ran(s0: State, run: seq<Step>, s: State, p: Pid)
    decreases |run|
  {
    if run == [] then s == s0 && Inv(s0)
    else
      && Enabled(s0, run[0]) && Unseen(run[0]) && (run[0].DoKernelAlloc? || By(run[0], p))
      && Ran(Next(s0, run[0]), run[1..], s, p)
  }

  lemma {:induction false} RanReached(s0: State, run: seq<Step>, s: State, p: Pid)
    requires Ran(s0, run, s, p)
    ensures Reached(s0, run, s, p)
    decreases |run|
  {
    if run != [] {
      RanReached(Next(s0, run[0]), run[1..], s, p);
      forall t | t in run ensures t.DoKernelAlloc? || By(t, p) { assert t == run[0] || t in run[1..]; }
    }
  }

  lemma UnseenEager(m: map<Pid, Memory>, t: Step)
    requires Unseen(t)
    ensures EagerNext(m, t) == m
  {
  }

  /** Nothing any process can see has changed. */
  lemma {:induction false} RanUnseen(s0: State, run: seq<Step>, s: State, p: Pid)
    requires Inv(s0) && Ran(s0, run, s, p)
    ensures Abstract(s) == Abstract(s0)
    decreases |run|
  {
    if run != [] {
      StepRefines(s0, run[0]);
      UnseenEager(Abstract(s0), run[0]);
      StepKeeps(s0, run[0]);
      RanUnseen(Next(s0, run[0]), run[1..], s, p);
    }
  }

  lemma RanStart(s: State, p: Pid)
    requires Inv(s)
    ensures Ran(s, [], s, p)
  {
  }

  lemma RanInv(s0: State, run: seq<Step>, s: State, p: Pid)
    requires Ran(s0, run, s, p)
    ensures Inv(s)
  {
    RanReached(s0, run, s, p);
  }

  lemma {:induction false} Then(s0: State, run: seq<Step>, s: State, p: Pid, t: Step)
    requires Ran(s0, run, s, p) && Enabled(s, t) && Unseen(t) && (t.DoKernelAlloc? || By(t, p))
    ensures Ran(s0, run + [t], Next(s, t), p)
    decreases |run|
  {
    hide Inv;
    hide Enabled;
    hide Next;
    if run == [] {
      StepKeeps(s, t);
      assert [] + [t] == [t] && [t][1..] == [];
    } else {
      Then(Next(s0, run[0]), run[1..], s, p, t);
      assert (run + [t])[0] == run[0] && (run + [t])[1..] == run[1..] + [t];
    }
  }

  /** A run may end in a step that can be seen. */
  lemma ThenSeen(s0: State, run: seq<Step>, s: State, p: Pid, t: Step)
    requires Inv(s0) && Ran(s0, run, s, p) && Enabled(s, t) && By(t, p)
    ensures Reached(s0, run + [t], Next(s, t), p) && Abstract(Next(s, t)) == EagerNext(Abstract(s0), t)
  {
    RanReached(s0, run, s, p);
    RanUnseen(s0, run, s, p);
    ExecSnoc(s0, run, t);
    StepKeeps(s, t);
    StepRefines(s, t);
  }

  lemma ThenExit(s: State, p: Pid)
    requires Inv(s) && CanExitStart(s, p)
    ensures Reached(s, [DoExitStart(p)], ExitStart(s, p), p)
  {
    ThenSeen(s, [], s, p, DoExitStart(p));
    assert [] + [DoExitStart(p)] == [DoExitStart(p)];
  }

  lemma ThenFaultFail(s0: State, run: seq<Step>, s: State, p: Pid)
    requires Inv(s0) && Ran(s0, run, s, p) && CanFaultFail(s, p)
    ensures Reached(s0, run + [DoFaultFail(p)], FaultFail(s, p), p)
  {
    ThenSeen(s0, run, s, p, DoFaultFail(p));
  }

  lemma ThenForkDone(s0: State, run: seq<Step>, s: State, p: Pid, c: Pid)
    requires Inv(s0) && Ran(s0, run, s, p) && CanForkDone(s, p, c) && p in Abstract(s0)
    ensures Reached(s0, run + [DoForkDone(p, c)], ForkDone(s, p, c), p)
    ensures Abstract(ForkDone(s, p, c)) == Abstract(s0)[c := Abstract(s0)[p]]
  {
    hide Abstract;
    hide EagerNext;
    hide Ran;
    hide Inv;
    hide Reached;
    ThenSeen(s0, run, s, p, DoForkDone(p, c));
    EagerFork(Abstract(s0), p, c);
  }

  /** The child of a fork in progress exists and waits for its parent. */
  lemma ForkChild(s0: State, run: seq<Step>, s: State, p: Pid)
    requires Ran(s0, run, s, p) && p in s.procs && s.procs[p].stage.Copying()
    ensures s.procs[p].stage.child in s.procs && s.procs[p].stage.child != p
    ensures s.procs[p].stage.Protected? || s.procs[p].stage.Sharing? ==>
      && s.procs[p].stage.AtPage() && s.procs[p].stage.todo[0].vpn in s.procs[p].table
  {
    RanInv(s0, run, s, p);
    assert StageOk(s, p);
  }

  /** The counts of mapped frames are positive. */
  lemma RanCounts(s0: State, run: seq<Step>, s: State, p: Pid)
    requires Ran(s0, run, s, p) && p in s.procs
    ensures s.procs[p].stage.Remapped? ==> s.Counts(s.procs[p].stage.dropped)
    ensures forall v :: v in s.procs[p].table && !s.procs[p].stage.Stale(v) ==> s.Counts(s.procs[p].table[v].frame)
  {
    RanInv(s0, run, s, p);
    CountsPositive(s, p);
  }

  lemma WorkHead(r: Region, i: nat, rest: seq<Work>)
    requires i < r.PageCount()
    ensures PageWork(r, i) + rest != []
    ensures (PageWork(r, i) + rest)[0] == CopyPage(r.start / PG_SIZE + i)
    ensures (PageWork(r, i) + rest)[1..] == PageWork(r, i + 1) + rest
  {
  }

  method Pick<T>(s: set<T>) returns (x: T)
    requires s != {}
    ensures x in s
  {
    x :| x in s;
  }

  lemma WorkOf(regions: seq<Region>, j: nat)
    requires j < |regions|
    ensures ForkWork(regions[j..]) == [CopyRegion(regions[j])] + PageWork(regions[j], 0) + ForkWork(regions[j + 1..])
  {
    assert regions[j..][0] == regions[j] && regions[j..][1..] == regions[j + 1..];
  }

  // ---------------------------------------------------------------- what a fork has done

  ghost predicate SameMembers(a: seq<Region>, b: seq<Region>) { forall r :: r in a <==> r in b }

  lemma NoWork()
    ensures ForkWork([]) == [] && SameMembers([], [])
  {
  }

  lemma SameAccepts(a: seq<Region>, b: seq<Region>, r: Region)
    requires SameMembers(a, b)
    ensures Accepts(a, r) <==> Accepts(b, r)
  {
  }

  lemma LinkMembers(a: seq<Region>, rs: seq<Region>, j: nat)
    requires j < |rs| && SameMembers(a, rs[..j])
    ensures SameMembers(LinkRegion(a, rs[j]), rs[..j + 1])
  {
    assert rs[..j + 1] == rs[..j] + [rs[j]];
  }

  /** A process about to fork can be observed, and its mapped pages lie in regions that fit. */
  lemma ForkingParent(s: State, p: Pid)
    requires Inv(s) && p in s.procs && s.procs[p].stage.User?
    ensures Ran(s, [], s, p) && p in Abstract(s)
    ensures forall r :: r in s.procs[p].regions ==> r.Fits()
    ensures forall v :: v in s.procs[p].table.Keys ==> exists r :: r in s.procs[p].regions && r.HasPage(v)
  {
    assert LiveIn(s, p);
    assert StageOk(s, p);
    forall v | v in s.procs[p].table.Keys ensures exists r :: r in s.procs[p].regions && r.HasPage(v) {
      assert InRegion(s.procs[p].regions, v, s.procs[p].table[v].writable);
    }
  }

  // ---------------------------------------------------------------- counting free frames

  ghost function FreeFrames(refcnt: map<Frame, int>): set<Frame> { set f | f in refcnt && refcnt[f] == 0 }

  lemma FreeTaken(refcnt: map<Frame, int>, f: Frame)
    requires f in refcnt && refcnt[f] == 0
    ensures |FreeFrames(refcnt[f := 1])| == |FreeFrames(refcnt)| - 1
  {
    assert FreeFrames(refcnt[f := 1]) == FreeFrames(refcnt) - {f};
  }

  lemma FreeKept(refcnt: map<Frame, int>, f: Frame, n: int)
    requires f in refcnt && refcnt[f] > 0 && n > 0
    ensures FreeFrames(refcnt[f := n]) == FreeFrames(refcnt)
  {
  }

  lemma NoneFree(refcnt: map<Frame, int>)
    requires forall f :: f in refcnt.Keys ==> refcnt[f] != 0
    ensures FreeFrames(refcnt) == {}
  {
    forall f ensures f !in FreeFrames(refcnt) { assert f in refcnt <==> f in refcnt.Keys; }
  }

  /** The table pages of process q. */
  function NodesOf(tables: map<Pid, set<Node>>, q: Pid): set<Node> { if q in tables then tables[q] else {} }

  // ---------------------------------------------------------------- clearing a table

  /** The steps of clearing these pages, one after the other. */
  function ClearRun(p: Pid, order: seq<Vpn>): seq<Step> {
    if order == [] then []
    else ClearRun(p, order[..|order| - 1]) + [DoClearDrop(p, order[|order| - 1]), DoClearZero(p)]
  }

  lemma ClearRunNone(p: Pid)
    ensures ClearRun(p, []) == []
  {
  }

  lemma ClearRunSnoc(p: Pid, order: seq<Vpn>, v: Vpn)
    ensures ClearRun(p, order + [v]) == ClearRun(p, order) + [DoClearDrop(p, v)] + [DoClearZero(p)]
  {
    assert (order + [v])[..|order|] == order;
  }

  /** The pages cleared so far ascend, precede those that remain, and with them are all. */
  ghost predicate Climbs(order: seq<Vpn>, remaining: set<Vpn>, all: set<Vpn>) {
    && (forall i, j :: 0 <= i < j < |order| ==> order[i] < order[j])
    && (forall v, w :: v in order && w in remaining ==> v < w)
    && (forall v :: v in order || v in remaining <==> v in all)
  }

  lemma ClimbsNone(all: set<Vpn>)
    ensures Climbs([], all, all)
  {
  }

  lemma ClimbsNext(order: seq<Vpn>, remaining: set<Vpn>, all: set<Vpn>, v: Vpn)
    requires Climbs(order, remaining, all) && v in remaining && forall w :: w in remaining ==> v <= w
    ensures Climbs(order + [v], remaining - {v}, all)
  {
    var longer := order + [v];
    forall i, j | 0 <= i < j < |longer| ensures longer[i] < longer[j] {
      assert longer[i] in order;
    }
    forall u ensures u in longer <==> u in order || u == v { }
    forall u, w | u in longer && w in remaining - {v} ensures u < w {
      assert u in order || u == v;
    }
  }

  /** The least page of a set. */
  method Least(pages: set<Vpn>) returns (x: Vpn)
    requires pages != {}
    ensures x in pages && forall y :: y in pages ==> x <= y
  {
    x := Pick(pages);
    var seen, rest := {x}, pages - {x};
    while rest != {}
      invariant x in pages && seen + rest == pages && forall y :: y in seen ==> x <= y
      decreases |rest|
    {
      var y := Pick(rest);
      seen, rest := seen + {y}, rest - {y};
      if y < x {
        x := y;
      }
    }
  }

  class Kernel {
    var frames: map<Frame, Page>
    var refcnt: map<Frame, int>
    var procs: map<Pid, Proc>
    ghost var held: multiset<Frame>

    /** The page table pages below the root of each process. */
    var tables: map<Pid, set<Node>>

    /** The region records that are left. */
    var records: nat

    ghost function Abs(): State
      reads this
    {
      State(frames, refcnt, procs, held)
    }

    /** How many frames are free. */
    ghost function FreeCount(): nat
      reads this
    {
      |FreeFrames(refcnt)|
    }

    /** Process p forks c, with `todo` still ahead. */
    ghost predicate At(p: Pid, c: Pid, todo: seq<Work>, mapped: set<Vpn>, links: seq<Region>, x: Progress)
      reads this
    {
      && p in procs && c in procs && procs[p].stage == Forking(c, todo) && procs[p].table.Keys == mapped
      && procs[c].regions == links && Child(c) == x
    }

    /** How far the child of a fork is. */
    ghost function Child(c: Pid): Progress
      requires c in procs
      reads this
    {
      Progress(procs[c].table.Keys, NodesOf(tables, c), FreeCount())
    }

    /** pmem_alloc: any free frame, or an error if there is none. */
    method PmemAlloc() returns (f: Option<Frame>)
      modifies this`refcnt
      ensures f.Some? ==> old(Abs()).Free(f.value) && refcnt == old(refcnt)[f.value := 1]
      ensures f.Some? ==> FreeCount() == old(FreeCount()) - 1
      ensures f.None? ==> refcnt == old(refcnt) && (forall g :: !Abs().Free(g)) && FreeCount() == 0
    {
      if g :| g in refcnt.Keys && refcnt[g] == 0 {
        FreeTaken(refcnt, g);
        refcnt := refcnt[g := 1];
        f := Some(g);
      } else {
        f := None;
        NoneFree(refcnt);
      }
    }

    /** pmem_dec_refcnt; the assertion of the source is the precondition. */
    method PmemDecRefcnt(f: Frame)
      requires f in refcnt && refcnt[f] > 0
      modifies this`refcnt
      ensures refcnt == old(refcnt)[f := old(refcnt)[f] - 1]
    {
      refcnt := refcnt[f := refcnt[f] - 1];
    }

    /** pmem_inc_refcnt(.., 1). */
    method PmemIncRefcnt(f: Frame)
      requires f in refcnt && refcnt[f] > 0
      modifies this`refcnt
      ensures refcnt == old(refcnt)[f := old(refcnt)[f] + 1] && FreeCount() == old(FreeCount())
    {
      FreeKept(refcnt, f, refcnt[f] + 1);
      refcnt := refcnt[f := refcnt[f] + 1];
    }

    /** One level of find_pte: the table page is there, or is taken from the free frames. */
    method EnsureTable(p: Pid, q: Pid, n: Node, ghost s0: State, ghost run0: seq<Step>)
      returns (ok: bool, ghost run: seq<Step>)
      requires Ran(s0, run0, Abs(), p)
      modifies this`refcnt, this`held, this`tables
      ensures Ran(s0, run, Abs(), p)
      ensures ok <==> New(n, old(NodesOf(tables, q))) <= old(FreeCount())
      ensures ok ==> tables == old(tables)[q := NodesOf(tables, q)]
      ensures ok ==> NodesOf(tables, q) == old(NodesOf(tables, q)) + {n}
      ensures ok ==> FreeCount() == old(FreeCount()) - New(n, old(NodesOf(tables, q)))
    {
      hide Ran;
      ghost var s1 := Abs();
      ok, run := true, run0;
      if n !in NodesOf(tables, q) {
        var f := PmemAlloc();
        if f.None? {
          return false, run0;
        }
        held := held + multiset{f.value};
        assert Abs() == KernelAlloc(s1, f.value);
        Then(s0, run0, s1, p, DoKernelAlloc(f.value));
        run := run0 + [DoKernelAlloc(f.value)];
      }
      tables := tables[q := NodesOf(tables, q) + {n}];
    }

    /** find_pte with allocation, in the table of process q: a table page on each level. */
    method FindPte(p: Pid, q: Pid, v: Vpn, ghost s0: State, ghost run0: seq<Step>)
      returns (ok: bool, ghost run: seq<Step>)
      requires Ran(s0, run0, Abs(), p)
      modifies this`refcnt, this`held, this`tables
      ensures Ran(s0, run, Abs(), p)
      ensures ok <==> |Path(v) - old(NodesOf(tables, q))| <= old(FreeCount())
      ensures ok ==> tables == old(tables)[q := NodesOf(tables, q)]
      ensures ok ==> NodesOf(tables, q) == old(NodesOf(tables, q)) + Path(v)
      ensures ok ==> FreeCount() == old(FreeCount()) - |Path(v) - old(NodesOf(tables, q))|
    {
      hide Ran;
      hide Path;
      PathNeed(NodesOf(tables, q), v);
      PathAdds(NodesOf(tables, q), v);
      ok, run := EnsureTable(p, q, (3, v / 512 / 512 / 512), s0, run0);
      if ok {
        ok, run := EnsureTable(p, q, (2, v / 512 / 512), s0, run);
      }
      if ok {
        ok, run := EnsureTable(p, q, (1, v / 512), s0, run);
      }
    }

    method SetStage(p: Pid, g: Stage)
      requires p in procs
      modifies this`procs
      ensures procs == old(procs)[p := old(procs)[p].(stage := g)]
    {
      procs := procs[p := procs[p].(stage := g)];
    }

    /** pgfault.c:31 and 62: a frame for the page. */
    method AllocPage(p: Pid, addr: nat, write: bool, region: Region)
      returns (f: Option<Frame>, ghost run: seq<Step>)
      requires Ran(Abs(), [], Abs(), p) && p in procs && procs[p].stage.User?
      requires addr / PG_SIZE in procs[p].table ==> write && !procs[p].table[addr / PG_SIZE].writable
      requires FindRegion(procs[p].regions, addr) == Some(region) && (write ==> region.perm.Writable())
      modifies this`refcnt, this`procs
      ensures Ran(old(Abs()), run, Abs(), p)
      ensures f.None? ==> Abs() == old(Abs()) && FreeCount() == 0
      ensures f.Some? ==> FreeCount() == old(FreeCount()) - 1
      ensures f.Some? ==>
        procs == old(procs)[p := old(procs[p]).(stage := Allocated(addr / PG_SIZE, f.value, region.perm.Writable()))]
    {
      hide Ran;
      ghost var s0 := Abs();
      run := [];
      f := PmemAlloc();
      if f.Some? {
        SetStage(p, Allocated(addr / PG_SIZE, f.value, region.perm.Writable()));
        assert Abs() == FaultAlloc(s0, p, addr, write, f.value);
        Then(s0, run, s0, p, DoFaultAlloc(p, addr, write, f.value));
        run := run + [DoFaultAlloc(p, addr, write, f.value)];
      }
    }

    /** pgfault.c:35 and 65: the page's present contents if it has any, zeros if not. */
    method FillPage(p: Pid, ghost s0: State, ghost run0: seq<Step>) returns (ghost run: seq<Step>)
      requires Ran(s0, run0, Abs(), p) && CanFaultFill(Abs(), p)
      modifies this`frames, this`procs
      ensures Ran(s0, run, Abs(), p)
      ensures procs == old(procs)[p := old(procs[p]).(stage := old(Filled(procs[p].stage.vpn, procs[p].stage.page,
          procs[p].stage.writable)))]
    {
      hide Ran;
      ghost var s1 := Abs();
      var Allocated(v, f, w) := procs[p].stage;
      frames := frames[f := View(frames, procs[p].table, v)];
      SetStage(p, Filled(v, f, w));
      assert Abs() == FaultFill(s1, p);
      Then(s0, run0, s1, p, DoFaultFill(p));
      run := run0 + [DoFaultFill(p)];
    }

    /** pgfault.c:39-40: map the copy in place of the shared frame. */
    method MapCopy(p: Pid, ghost s0: State, ghost run0: seq<Step>) returns (ghost run: seq<Step>)
      requires Ran(s0, run0, Abs(), p) && CanFaultMap(Abs(), p) && procs[p].stage.vpn in procs[p].table
      modifies this`procs
      ensures Ran(s0, run, Abs(), p)
      ensures p in procs && procs[p].stage.Remapped?
      ensures procs[p].table == old(procs[p].table)[old(procs[p].stage.vpn) := old(Pte(procs[p].stage.page,
          procs[p].stage.writable))]
    {
      hide Ran;
      ghost var s1 := Abs();
      var Filled(v, f, w) := procs[p].stage;
      var pfault := procs[p].table[v].frame;
      procs := procs[p := procs[p].(table := procs[p].table[v := Pte(f, w)])];
      SetStage(p, Remapped(pfault));
      assert Abs() == FaultMap(s1, p);
      Then(s0, run0, s1, p, DoFaultMap(p));
      run := run0 + [DoFaultMap(p)];
    }

    /** pgfault.c:42: give up the frame that was copied. */
    method DropShared(p: Pid, ghost s0: State, ghost run0: seq<Step>) returns (ghost run: seq<Step>)
      requires Ran(s0, run0, Abs(), p) && p in procs && procs[p].stage.Remapped?
      modifies this`procs, this`refcnt
      ensures Ran(s0, run, Abs(), p)
      ensures procs == old(procs)[p := old(procs[p]).(stage := User)]
    {
      hide Ran;
      ghost var s1 := Abs();
      RanCounts(s0, run0, s1, p);
      PmemDecRefcnt(procs[p].stage.dropped);
      SetStage(p, User);
      assert Abs() == FaultDrop(s1, p);
      Then(s0, run0, s1, p, DoFaultDrop(p));
      run := run0 + [DoFaultDrop(p)];
    }

    /** pgfault.c:67: the entry of the zero page. */
    method MapFresh(p: Pid, ghost s0: State, ghost run0: seq<Step>) returns (ghost run: seq<Step>)
      requires Ran(s0, run0, Abs(), p) && CanFaultMap(Abs(), p) && procs[p].stage.vpn !in procs[p].table
      modifies this`procs
      ensures Ran(s0, run, Abs(), p)
      ensures p in procs && procs[p].stage.User? && old(procs[p].stage.vpn) in procs[p].table
      ensures procs[p].table[old(procs[p].stage.vpn)] == old(Pte(procs[p].stage.page, procs[p].stage.writable))
    {
      hide Ran;
      ghost var s1 := Abs();
      var Filled(v, f, w) := procs[p].stage;
      procs := procs[p := procs[p].(table := procs[p].table[v := Pte(f, w)])];
      SetStage(p, User);
      assert Abs() == FaultMap(s1, p);
      Then(s0, run0, s1, p, DoFaultMap(p));
      run := run0 + [DoFaultMap(p)];
    }

    /** pgfault.c:69-71: the process exits, and its new frame is lost. */
    method LoseFresh(p: Pid, ghost s0: State, ghost run0: seq<Step>) returns (ghost run: seq<Step>)
      requires Inv(s0) && Ran(s0, run0, Abs(), p) && CanFaultFail(Abs(), p)
      modifies this`procs, this`held
      ensures Reached(s0, run, Abs(), p) && p in procs && procs[p].stage == Exiting(None)
    {
      hide Ran;
      hide Inv;
      hide Reached;
      ghost var s1 := Abs();
      held := held + multiset{procs[p].stage.page};
      SetStage(p, Exiting(None));
      assert Abs() == FaultFail(s1, p);
      ThenFaultFail(s0, run0, s1, p);
      run := run0 + [DoFaultFail(p)];
    }

    /** pgfault.c:67-73: map the zero page; without its page table pages the process exits. */
    method MapZero(p: Pid, ghost s0: State, ghost run0: seq<Step>) returns (ok: bool, ghost run: seq<Step>)
      requires Inv(s0) && Ran(s0, run0, Abs(), p) && CanFaultMap(Abs(), p) && procs[p].stage.vpn !in procs[p].table
      modifies this
      ensures p in procs && (if ok then Ran(s0, run, Abs(), p) else Reached(s0, run, Abs(), p))
      ensures ok <==> |Path(old(procs[p].stage.vpn)) - old(NodesOf(tables, p))| <= old(FreeCount())
      ensures ok ==> procs[p].stage.User? && old(procs[p].stage.vpn) in procs[p].table
      ensures ok ==> procs[p].table[old(procs[p].stage.vpn)] == old(Pte(procs[p].stage.page, procs[p].stage.writable))
      ensures !ok ==> procs[p].stage == Exiting(None)
    {
      hide Ran;
      hide Inv;
      hide Reached;
      hide Path;
      ok, run := FindPte(p, p, procs[p].stage.vpn, s0, run0);
      if ok {
        run := MapFresh(p, s0, run);
      } else {
        run := LoseFresh(p, s0, run);
      }
    }

    /** A region allows the access. */
    predicate Allowed(p: Pid, addr: nat, write: bool)
      requires p in procs
      reads this
    {
      var region := FindRegion(procs[p].regions, addr);
      region.Some? && (write ==> region.value.perm.Writable())
    }

    /** The frames a fault on this page takes: the page, and the tables that lead to it. */
    ghost function FaultNeeds(p: Pid, v: Vpn): nat
      requires p in procs
      reads this
    {
      if v in procs[p].table then 1 else 1 + |Path(v) - NodesOf(tables, p)|
    }

    /** The rest of handle_page_fault once the frame is allocated. */
    method ServeFault(p: Pid, ghost s0: State, ghost run0: seq<Step>) returns (ok: bool, ghost run: seq<Step>)
      requires Inv(s0) && Ran(s0, run0, Abs(), p) && CanFaultFill(Abs(), p)
      modifies this
      ensures p in procs && (if ok then Ran(s0, run, Abs(), p) else Reached(s0, run, Abs(), p))
      ensures ok <==> old(FaultNeeds(p, procs[p].stage.vpn)) <= old(FreeCount()) + 1
      ensures ok ==> procs[p].stage.User? && old(procs[p].stage.vpn) in procs[p].table
      ensures ok ==> procs[p].table[old(procs[p].stage.vpn)] == old(Pte(procs[p].stage.page, procs[p].stage.writable))
      ensures !ok ==> procs[p].stage == Exiting(None)
    {
      hide Ran;
      hide Inv;
      hide Reached;
      hide Path;
      run := FillPage(p, s0, run0);
      if procs[p].stage.vpn in procs[p].table {
        run := MapCopy(p, s0, run);
        run := DropShared(p, s0, run);
        ok := true;
      } else {
        ok, run := MapZero(p, s0, run);
      }
    }

    /**
    handle_page_fault. `!ok` means the process was told to exit, which happens exactly if no
    region allows the access, or there are too few free frames for the page and the tables on
    its path. When it may go on, the page is mapped as the faulting access needs it, and no
    process sees any memory changed.
     */
    method HandlePageFault(p: Pid, addr: nat, write: bool) returns (ok: bool, ghost run: seq<Step>)
      requires Inv(Abs()) && p in procs && procs[p].stage.User?
      requires addr / PG_SIZE in procs[p].table ==> write && !procs[p].table[addr / PG_SIZE].writable
      modifies this
      ensures Reached(old(Abs()), run, Abs(), p)
      ensures p in procs && (ok ==> procs[p].stage.User? && addr / PG_SIZE in procs[p].table)
      ensures ok && write ==> procs[p].table[addr / PG_SIZE].writable
      ensures ok ==> Abstract(Abs()) == old(Abstract(Abs()))
      ensures !ok ==> procs[p].stage == Exiting(None)
      ensures ok <==> old(Allowed(p, addr, write) && FaultNeeds(p, addr / PG_SIZE) <= FreeCount())
    {
      hide Ran;
      hide Inv;
      hide Reached;
      hide Path;
      hide Abstract;
      ghost var s0 := Abs();
      RanStart(s0, p);
      var region := FindRegion(procs[p].regions, addr);
      var f: Option<Frame> := None;
      if region.Some? && (write ==> region.value.perm.Writable()) {
        f, run := AllocPage(p, addr, write, region.value);
      }
      if f.None? {
        SetStage(p, Exiting(None));
        ThenExit(s0, p);
        return false, [DoExitStart(p)];
      }
      ok, run := ServeFault(p, s0, run);
      if ok {
        RanReached(s0, run, Abs(), p);
        RanUnseen(s0, run, Abs(), p);
      }
    }

    /** vpmap.c:380: make the parent's entry read-only. */
    method ProtectPage(p: Pid, v: Vpn, ghost s0: State, ghost run0: seq<Step>) returns (ghost run: seq<Step>)
      requires Ran(s0, run0, Abs(), p) && CanForkProtect(Abs(), p) && procs[p].stage.todo[0] == CopyPage(v)
      modifies this`procs
      ensures Ran(s0, run, Abs(), p)
      ensures procs == old(procs)[p := old(procs[p]).(
        stage := old(Protected(procs[p].stage.child, procs[p].stage.todo)),
        table := old(procs[p].table[v := Pte(procs[p].table[v].frame, false)]))]
    {
      hide Ran;
      ghost var s1 := Abs();
      procs := procs[p := procs[p].(table := procs[p].table[v := Pte(procs[p].table[v].frame, false)])];
      SetStage(p, Protected(procs[p].stage.child, procs[p].stage.todo));
      assert Abs() == ForkProtect(s1, p);
      Then(s0, run0, s1, p, DoForkProtect(p));
      run := run0 + [DoForkProtect(p)];
    }

    /** vpmap.c:383: count the child's reference. */
    method CountPage(p: Pid, v: Vpn, ghost s0: State, ghost run0: seq<Step>) returns (ghost run: seq<Step>)
      requires Ran(s0, run0, Abs(), p) && CanForkCount(Abs(), p) && procs[p].stage.todo[0] == CopyPage(v)
      modifies this`procs, this`refcnt
      ensures Ran(s0, run, Abs(), p)
      ensures procs == old(procs)[p := old(procs[p]).(
        stage := old(Sharing(procs[p].stage.child, procs[p].stage.todo, procs[p].table[v].frame)))]
      ensures FreeCount() == old(FreeCount())
    {
      hide Ran;
      ghost var s1 := Abs();
      var f := procs[p].table[v].frame;
      PmemIncRefcnt(f);
      SetStage(p, Sharing(procs[p].stage.child, procs[p].stage.todo, f));
      assert Abs() == ForkCount(s1, p);
      Then(s0, run0, s1, p, DoForkCount(p));
      run := run0 + [DoForkCount(p)];
    }

    /** The parent's part in sharing a page. */
    method SharePage(p: Pid, v: Vpn, ghost s0: State, ghost run0: seq<Step>) returns (ghost run: seq<Step>)
      requires Ran(s0, run0, Abs(), p) && CanForkProtect(Abs(), p) && procs[p].stage.todo[0] == CopyPage(v)
      modifies this`procs, this`refcnt
      ensures Ran(s0, run, Abs(), p)
      ensures p in procs && procs == old(procs)[p := procs[p]] && procs[p].table.Keys == old(procs[p].table.Keys)
      ensures procs[p].stage ==
        old(Sharing(procs[p].stage.child, procs[p].stage.todo, procs[p].table[v].frame))
      ensures FreeCount() == old(FreeCount())
    {
      hide Ran;
      run := ProtectPage(p, v, s0, run0);
      RanCounts(s0, run, Abs(), p);
      run := CountPage(p, v, s0, run);
    }

    /** vpmap.c:391: the child gets the parent's entry. */
    method MapShared(p: Pid, c: Pid, v: Vpn, ghost s0: State, ghost run0: seq<Step>) returns (ghost run: seq<Step>)
      requires Ran(s0, run0, Abs(), p) && CanForkMap(Abs(), p) && procs[p].stage.todo[0].vpn == v
      requires procs[p].stage.child == c && c != p
      modifies this`procs
      ensures Ran(s0, run, Abs(), p) && p in procs && c in procs && c in old(procs)
      ensures procs[p] == old(procs[p]).(stage := old(Forking(c, procs[p].stage.todo[1..])))
      ensures procs[c].regions == old(procs[c].regions) && procs[c].table.Keys == old(procs[c].table.Keys) + {v}
    {
      hide Ran;
      ghost var s1 := Abs();
      procs := procs[c := procs[c].(table := procs[c].table[v := procs[p].table[v]])];
      SetStage(p, Forking(c, procs[p].stage.todo[1..]));
      assert Abs() == ForkMap(s1, p);
      Then(s0, run0, s1, p, DoForkMap(p));
      run := run0 + [DoForkMap(p)];
    }

    /** The error return of `as_copy_as`: the child never runs. */
    method AbandonFork(p: Pid, ghost s0: State, ghost run0: seq<Step>) returns (ghost run: seq<Step>)
      requires Ran(s0, run0, Abs(), p) && p in procs && procs[p].stage.Copying()
      modifies this`procs, this`held
      ensures Ran(s0, run, Abs(), p)
      ensures p in procs && procs[p].stage.User?
    {
      hide Ran;
      ghost var s1 := Abs();
      ForkChild(s0, run0, s1, p);
      var g := procs[p].stage;
      if g.Sharing? {
        held := held + multiset{g.shared};
      } else {
        assert held + multiset{} == held;
      }
      SetStage(g.child, Stillborn(None));
      SetStage(p, User);
      assert Abs() == ForkFail(s1, p);
      Then(s0, run0, s1, p, DoForkFail(p));
      run := run0 + [DoForkFail(p)];
    }

    /** vpmap.c:374-377: the parent has nothing on this page. */
    method SkipPage(p: Pid, c: Pid, ghost todo: seq<Work>, ghost mapped: set<Vpn>, ghost links: seq<Region>,
                    ghost x: Progress, ghost s0: State, ghost run0: seq<Step>)
      returns (ghost run: seq<Step>)
      requires Ran(s0, run0, Abs(), p) && At(p, c, todo, mapped, links, x) && CanForkSkip(Abs(), p)
      modifies this`procs
      ensures Ran(s0, run, Abs(), p) && At(p, c, todo[1..], mapped, links, x)
    {
      hide Ran;
      ghost var s1 := Abs();
      ForkChild(s0, run0, s1, p);
      SetStage(p, Forking(c, procs[p].stage.todo[1..]));
      assert Abs() == ForkSkip(s1, p);
      Then(s0, run0, s1, p, DoForkSkip(p));
      run := run0 + [DoForkSkip(p)];
    }

    /** vpmap.c:386-391: the child's entry, if its table pages can be had and it has none yet. */
    method PlaceShared(p: Pid, c: Pid, v: Vpn, ghost s0: State, ghost run0: seq<Step>)
      returns (ok: bool, ghost run: seq<Step>)
      requires Ran(s0, run0, Abs(), p) && p in procs && procs[p].stage.Sharing? && procs[p].stage.AtPage()
      requires procs[p].stage.todo[0].vpn == v && procs[p].stage.child == c && c in procs && c != p
      requires v in procs[p].table
      modifies this
      ensures Ran(s0, run, Abs(), p) && records == old(records)
      ensures ok <==> |Path(v) - old(NodesOf(tables, c))| <= old(FreeCount()) && v !in old(procs[c].table)
      ensures ok ==> p in procs && c in procs
      ensures ok ==> procs[p] == old(procs[p]).(stage := old(Forking(c, procs[p].stage.todo[1..])))
      ensures ok ==> procs[c].regions == old(procs[c].regions)
      ensures ok ==> old(Child(c)).pages + {v} == Child(c).pages && old(Child(c)).nodes + Path(v) == Child(c).nodes
      ensures ok ==> FreeCount() == old(FreeCount()) - |Path(v) - old(NodesOf(tables, c))|
      ensures !ok ==> p in procs && procs[p].stage.User?
    {
      hide Ran;
      hide Path;
      ok, run := FindPte(p, c, v, s0, run0);
      if !ok || v in procs[c].table {
        run := AbandonFork(p, s0, run);
        return false, run;
      }
      run := MapShared(p, c, v, s0, run);
    }

    /** vpmap.c:374-391 for a page the parent has mapped. */
    method CowSharePage(p: Pid, c: Pid, v: Vpn, ghost todo: seq<Work>, ghost mapped: set<Vpn>, ghost links: seq<Region>,
                        ghost x: Progress, ghost s0: State, ghost run0: seq<Step>)
      returns (ok: bool, ghost run: seq<Step>)
      requires Ran(s0, run0, Abs(), p) && At(p, c, todo, mapped, links, x)
      requires todo != [] && todo[0] == CopyPage(v) && v in mapped
      modifies this
      ensures Ran(s0, run, Abs(), p) && records == old(records)
      ensures ok <==> CanTake(x, {v})
      ensures ok ==> At(p, c, todo[1..], mapped, links, Take(x, {v}))
      ensures !ok ==> p in procs && procs[p].stage.User?
    {
      hide Ran;
      hide Take;
      hide CanTake;
      hide Path;
      TakeOne(x, v);
      ForkChild(s0, run0, Abs(), p);
      run := SharePage(p, v, s0, run0);
      ok, run := PlaceShared(p, c, v, s0, run);
    }

    /** One round of the loop of vpmap_cow_copy. */
    method CowCopyPage(p: Pid, c: Pid, v: Vpn, ghost todo: seq<Work>, ghost mapped: set<Vpn>, ghost links: seq<Region>,
                       ghost x: Progress, ghost s0: State, ghost run0: seq<Step>)
      returns (ok: bool, ghost run: seq<Step>)
      requires Ran(s0, run0, Abs(), p) && At(p, c, todo, mapped, links, x) && todo != [] && todo[0] == CopyPage(v)
      requires 0 <= x.free
      modifies this
      ensures Ran(s0, run, Abs(), p) && records == old(records)
      ensures ok <==> CanTake(x, AtMost(mapped, v))
      ensures ok ==> At(p, c, todo[1..], mapped, links, Take(x, AtMost(mapped, v)))
      ensures !ok ==> p in procs && procs[p].stage.User?
    {
      hide Ran;
      hide Take;
      hide CanTake;
      if v in procs[p].table {
        ok, run := CowSharePage(p, c, v, todo, mapped, links, x, s0, run0);
      } else {
        TakeNothing(x);
        run := SkipPage(p, c, todo, mapped, links, x, s0, run0);
        ok := true;
      }
    }

    /** vpmap_cow_copy over the pages of one region. `rest` is the work of the later regions. */
    method VpmapCowCopy(p: Pid, c: Pid, r: Region, ghost rest: seq<Work>, ghost mapped: set<Vpn>,
                        ghost links: seq<Region>,
                        ghost x: Progress, ghost s0: State, ghost run0: seq<Step>)
      returns (ok: bool, ghost run: seq<Step>)
      requires Ran(s0, run0, Abs(), p) && At(p, c, PageWork(r, 0) + rest, mapped, links, x) && 0 <= x.free
      modifies this
      ensures Ran(s0, run, Abs(), p) && records == old(records)
      ensures ok <==> CanTake(x, Touched(mapped, r, r.PageCount()))
      ensures ok ==> At(p, c, rest, mapped, links, Take(x, Touched(mapped, r, r.PageCount())))
      ensures !ok ==> p in procs && procs[p].stage.User?
    {
      hide Ran;
      hide Take;
      hide CanTake;
      hide Touched;
      hide AtMost;
      hide At;
      run := run0;
      var n, i := r.PageCount(), 0;
      TakeNothing(x);
      TouchedNone(mapped, r);
      while i < n
        invariant i <= n == r.PageCount()
        invariant Ran(s0, run, Abs(), p) && records == old(records)
        invariant CanTake(x, Touched(mapped, r, i))
        invariant At(p, c, PageWork(r, i) + rest, mapped, links, Take(x, Touched(mapped, r, i)))
      {
        WorkHead(r, i, rest);
        TouchedNext(mapped, r, i);
        TakeTwo(x, Touched(mapped, r, i), AtMost(mapped, r.start / PG_SIZE + i));
        TakeLeft(x, Touched(mapped, r, i));
        ok, run := CowCopyPage(p, c, r.start / PG_SIZE + i, PageWork(r, i) + rest, mapped, links,
                               Take(x, Touched(mapped, r, i)), s0, run);
        if !ok {
          if CanTake(x, Touched(mapped, r, n)) { TouchedFails(x, mapped, r, i + 1, n); }
          return;
        }
        i := i + 1;
      }
      assert PageWork(r, n) + rest == rest;
      ok := true;
    }

    /** memregion_map_internal for the child's copy of a region. */
    method CopyRegionRecord(p: Pid, c: Pid, r: Region, ghost todo: seq<Work>, ghost mapped: set<Vpn>,
                            ghost links: seq<Region>, ghost x: Progress, ghost s0: State, ghost run0: seq<Step>)
      returns (ghost run: seq<Step>)
      requires Ran(s0, run0, Abs(), p) && At(p, c, todo, mapped, links, x)
      requires todo != [] && todo[0] == CopyRegion(r) && Accepts(links, r)
      modifies this`procs
      ensures Ran(s0, run, Abs(), p) && At(p, c, todo[1..], mapped, LinkRegion(links, r), x)
    {
      hide Ran;
      hide LinkRegion;
      ghost var s1 := Abs();
      ForkChild(s0, run0, s1, p);
      procs := procs[c := procs[c].(regions := LinkRegion(procs[c].regions, r))];
      SetStage(p, Forking(c, procs[p].stage.todo[1..]));
      assert Abs() == ForkRegion(s1, p);
      Then(s0, run0, s1, p, DoForkRegion(p));
      run := run0 + [DoForkRegion(p)];
    }

    /** memregion_copy_internal: the record of one region, then its pages. */
    method MemregionCopy(p: Pid, c: Pid, r: Region, ghost rest: seq<Work>, ghost mapped: set<Vpn>,
                         ghost links: seq<Region>,
                         ghost x: Progress, ghost s0: State, ghost run0: seq<Step>)
      returns (ok: bool, ghost run: seq<Step>)
      requires Ran(s0, run0, Abs(), p) && 0 <= x.free
      requires At(p, c, [CopyRegion(r)] + PageWork(r, 0) + rest, mapped, links, x)
      modifies this
      ensures Ran(s0, run, Abs(), p)
      ensures ok <==> old(records) > 0 && Accepts(links, r) && CanTake(x, Touched(mapped, r, r.PageCount()))
      ensures ok ==> At(p, c, rest, mapped, LinkRegion(links, r), Take(x, Touched(mapped, r, r.PageCount())))
      ensures records == if ok then old(records) - 1 else old(records)
      ensures !ok ==> p in procs && procs[p].stage.User?
    {
      hide Ran;
      hide Take;
      hide CanTake;
      hide Touched;
      hide Accepts;
      hide LinkRegion;
      ghost var todo := [CopyRegion(r)] + PageWork(r, 0) + rest;
      assert todo[1..] == PageWork(r, 0) + rest;
      if !Accepts(procs[c].regions, r) || records == 0 {
        run := AbandonFork(p, s0, run0);
        return false, run;
      }
      records := records - 1;
      run := CopyRegionRecord(p, c, r, todo, mapped, links, x, s0, run0);
      ok, run := VpmapCowCopy(p, c, r, rest, mapped, LinkRegion(links, r), x, s0, run);
      if !ok {
        records := records + 1;
      }
    }

    /** proc_init and as_init for the child. */
    method BeginFork(p: Pid, c: Pid) returns (ghost run: seq<Step>)
      requires Ran(Abs(), [], Abs(), p) && CanForkStart(Abs(), p, c)
      modifies this`procs, this`tables
      ensures Ran(old(Abs()), run, Abs(), p)
      ensures procs == old(procs)
        [c := Proc(Embryo(p), [], map[])][p := old(procs[p]).(stage := Forking(c, ForkWork(old(procs[p].regions))))]
      ensures NodesOf(tables, c) == {}
    {
      hide Ran;
      ghost var s0 := Abs();
      var regions := procs[p].regions;
      procs := procs[c := Proc(Embryo(p), [], map[])];
      tables := tables[c := {}];
      SetStage(p, Forking(c, ForkWork(regions)));
      assert Abs() == ForkStart(s0, p, c);
      Then(s0, [], s0, p, DoForkStart(p, c));
      run := [] + [DoForkStart(p, c)];
    }

    /** The child becomes runnable. */
    method FinishFork(p: Pid, c: Pid, ghost s0: State, ghost run0: seq<Step>) returns (ghost run: seq<Step>)
      requires Inv(s0) && Ran(s0, run0, Abs(), p) && p in procs && procs[p].stage == Forking(c, [])
      requires p in Abstract(s0)
      modifies this`procs
      ensures Reached(s0, run, Abs(), p) && p in procs && procs[p].stage.User?
      ensures Abstract(Abs()) == Abstract(s0)[c := Abstract(s0)[p]]
    {
      hide Ran;
      hide Inv;
      hide Reached;
      ghost var s1 := Abs();
      ForkChild(s0, run0, s1, p);
      SetStage(c, User);
      SetStage(p, User);
      assert Abs() == ForkDone(s1, p, c);
      ThenForkDone(s0, run0, s1, p, c);
      run := run0 + [DoForkDone(p, c)];
    }

    /** The loop of as_copy_as. `supply` is the number of records it may take. */
    method CopyAll(p: Pid, c: Pid, rs: seq<Region>, ghost mapped: set<Vpn>, ghost x: Progress, ghost s0: State,
                   ghost run0: seq<Step>)
      returns (ok: bool, ghost run: seq<Step>, ghost links: seq<Region>)
      requires Ran(s0, run0, Abs(), p) && At(p, c, ForkWork(rs), mapped, [], x) && 0 <= x.free
      modifies this
      ensures Ran(s0, run, Abs(), p)
      ensures ok <==> CanCopy(x, mapped, rs, |rs|, old(records))
      ensures ok ==> At(p, c, [], mapped, links, Take(x, Shared(mapped, rs, |rs|)))
      ensures !ok ==> p in procs && procs[p].stage.User?
    {
      hide Ran;
      hide Take;
      hide CanTake;
      hide Touched;
      hide Shared;
      hide Accepts;
      hide LinkRegion;
      hide CanCopy;
      hide At;
      hide SameMembers;
      hide ForkWork;
      run, links := run0, [];
      TakeNothing(x);
      SharedNone(mapped, rs);
      CanCopyNone(x, mapped, rs, records);
      NoWork();
      assert rs[0..] == rs && rs[..0] == [] && rs[|rs|..] == [];
      for j := 0 to |rs|
        invariant Ran(s0, run, Abs(), p) && records + j == old(records)
        invariant CanCopy(x, mapped, rs, j, old(records)) && 0 <= Take(x, Shared(mapped, rs, j)).free
        invariant SameMembers(links, rs[..j])
        invariant At(p, c, ForkWork(rs[j..]), mapped, links, Take(x, Shared(mapped, rs, j)))
      {
        WorkOf(rs, j);
        SameAccepts(links, rs[..j], rs[j]);
        LinkMembers(links, rs, j);
        SharedNext(x, mapped, rs, j);
        CanCopySplit(x, mapped, rs, j, old(records));
        TakeLeft(Take(x, Shared(mapped, rs, j)), Touched(mapped, rs[j], rs[j].PageCount()));
        ok, run := MemregionCopy(p, c, rs[j], ForkWork(rs[j + 1..]), mapped, links, Take(x, Shared(mapped, rs, j)),
            s0, run);
        if !ok {
          CanCopyFewer(x, mapped, rs, j + 1, old(records));
          return;
        }
        links := LinkRegion(links, rs[j]);
      }
      ok := true;
    }

    /**
    as_copy_as for a new process c: on success c sees exactly the parent's memory, on failure,
    wherever it strikes, nothing any process can see has changed. It succeeds exactly if there is
    a record for each region and a free frame for each page table page, each region can be
    linked after those before it, and no page mapped in the parent lies in two of its regions.
     */
    method AsCopyAs(p: Pid, c: Pid) returns (ok: bool, ghost run: seq<Step>)
      requires Inv(Abs()) && CanForkStart(Abs(), p, c)
      modifies this
      ensures Reached(old(Abs()), run, Abs(), p) && p in procs && procs[p].stage.User?
      ensures p in old(Abstract(Abs()))
      ensures ok ==> Abstract(Abs()) == old(Abstract(Abs()))[c := old(Abstract(Abs()))[p]]
      ensures !ok ==> Abstract(Abs()) == old(Abstract(Abs()))
      ensures ok <==> old(ForkFits(procs[p].table.Keys, procs[p].regions, records, FreeCount()))
    {
      hide Ran;
      hide Inv;
      hide Reached;
      hide Abstract;
      hide CanCopy;
      hide ForkFits;
      hide ForkWork;
      ghost var s0, mapped, free := Abs(), procs[p].table.Keys, FreeCount();
      var rs := procs[p].regions;
      ForkingParent(s0, p);
      ForkFitsIff(mapped, rs, records, free);
      run := BeginFork(p, c);
      assert procs[c].table.Keys == {};
      ghost var links;
      ok, run, links := CopyAll(p, c, rs, mapped, Progress({}, {}, free), s0, run);
      if ok {
        run := FinishFork(p, c, s0, run);
      } else {
        RanReached(s0, run, Abs(), p);
        RanUnseen(s0, run, Abs(), p);
      }
    }

    /** vpmap.c:107: drop the count of the entry's frame. */
    method DropEntry(p: Pid, v: Vpn, ghost s0: State, ghost run0: seq<Step>) returns (ghost run: seq<Step>)
      requires Ran(s0, run0, Abs(), p) && p in procs && procs[p].stage == Exiting(None) && v in procs[p].table
      modifies this`procs, this`refcnt
      ensures Ran(s0, run, Abs(), p)
      ensures procs == old(procs)[p := old(procs[p]).(stage := Exiting(Some(v)))]
      ensures run == run0 + [DoClearDrop(p, v)]
    {
      hide Ran;
      ghost var s1 := Abs();
      RanCounts(s0, run0, s1, p);
      PmemDecRefcnt(procs[p].table[v].frame);
      SetStage(p, Exiting(Some(v)));
      assert Abs() == ClearDrop(s1, p, v);
      Then(s0, run0, s1, p, DoClearDrop(p, v));
      run := run0 + [DoClearDrop(p, v)];
    }

    /** vpmap.c:110: the entry becomes 0. */
    method ZeroEntry(p: Pid, v: Vpn, ghost s0: State, ghost run0: seq<Step>) returns (ghost run: seq<Step>)
      requires Ran(s0, run0, Abs(), p) && p in procs && procs[p].stage == Exiting(Some(v))
      modifies this`procs
      ensures Ran(s0, run, Abs(), p)
      ensures procs == old(procs)[p := old(procs[p]).(stage := Exiting(None), table := Minus(old(procs[p].table), v))]
      ensures run == run0 + [DoClearZero(p)]
    {
      hide Ran;
      ghost var s1 := Abs();
      procs := procs[p := procs[p].(table := Minus(procs[p].table, v))];
      SetStage(p, Exiting(None));
      assert Abs() == ClearZero(s1, p);
      Then(s0, run0, s1, p, DoClearZero(p));
      run := run0 + [DoClearZero(p)];
    }

    /** clear_pte of a present entry. */
    method ClearEntry(p: Pid, v: Vpn, ghost s0: State, ghost run0: seq<Step>) returns (ghost run: seq<Step>)
      requires Ran(s0, run0, Abs(), p) && p in procs && procs[p].stage == Exiting(None) && v in procs[p].table
      modifies this`procs, this`refcnt
      ensures Ran(s0, run, Abs(), p)
      ensures procs == old(procs)[p := old(procs[p]).(table := Minus(old(procs[p].table), v))]
      ensures run == run0 + [DoClearDrop(p, v)] + [DoClearZero(p)]
    {
      hide Ran;
      run := DropEntry(p, v, s0, run0);
      run := ZeroEntry(p, v, s0, run);
    }

    /** vpmap_destroy: every entry, in ascending order, has its frame's count dropped and is cleared. */
    method VpmapDestroy(p: Pid, ghost s0: State, ghost run0: seq<Step>)
      returns (ghost run: seq<Step>, ghost order: seq<Vpn>)
      requires Ran(s0, run0, Abs(), p) && p in procs && procs[p].stage == Exiting(None)
      modifies this`procs, this`refcnt
      ensures Ran(s0, run, Abs(), p) && run == run0 + ClearRun(p, order)
      ensures p in procs && procs[p] == old(procs[p]).(table := map[])
      ensures Climbs(order, {}, old(procs[p].table.Keys))
    {
      hide Ran;
      hide Climbs;
      hide ClearRun;
      run, order := run0, [];
      ghost var all := procs[p].table.Keys;
      ClimbsNone(all);
      ClearRunNone(p);
      while procs[p].table.Keys != {}
        invariant Ran(s0, run, Abs(), p)
        invariant p in procs && procs[p] == old(procs[p]).(table := procs[p].table)
        invariant run == run0 + ClearRun(p, order) && Climbs(order, procs[p].table.Keys, all)
        decreases |procs[p].table.Keys|
      {
        var v := Least(procs[p].table.Keys);
        ClimbsNext(order, procs[p].table.Keys, all, v);
        ClearRunSnoc(p, order, v);
        ghost var before := procs[p].table.Keys;
        run := ClearEntry(p, v, s0, run);
        order := order + [v];
        assert procs[p].table.Keys == before - {v};
      }
    }
  }
}
