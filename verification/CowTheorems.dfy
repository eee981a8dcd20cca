/**
What the invariant and the refinement say about whole runs of the kernel: isolation of
processes from each other, exact reference counts, and assertions that cannot fail.
 */
module CowTheorems {
  import opened Common
  import opened Regions
  import opened CowModel
  import opened CowInvariant
  import opened CowProofs

  /** Isolation from boot. */
  lemma IsolationFromBoot(s: State, run: seq<Step>)
    requires Initial(s) && Legal(s, run)
    ensures Inv(Exec(s, run))
    ensures Abstract(Exec(s, run)) == EagerExec(map[], run)
  {
    InitialInv(s);
    RunKeeps(s, run);
    Isolation(s, run);
    assert Abstract(s) == map[];
  }

  /** The step is one the process takes, or one that creates or ends it. */
  predicate Concerns(t: Step, q: Pid) {
    match t
    case DoKernelAlloc(_) => false
    case DoKernelFree(_) => false
    case DoForkDone(p, c) => p == q || c == q
    case _ => t.p == q
  }

  lemma {:induction false} EagerUndisturbed(m: map<Pid, Memory>, run: seq<Step>, q: Pid)
    requires q in m && forall t :: t in run ==> !Concerns(t, q)
    ensures q in EagerExec(m, run) && EagerExec(m, run)[q] == m[q]
    decreases |run|
  {
    if run != [] {
      assert !Concerns(run[0], q);
      EagerUndisturbed(EagerNext(m, run[0]), run[1..], q);
    }
  }

  /** While a process itself does nothing, nothing any other process does changes its memory. */
  lemma Undisturbed(s: State, run: seq<Step>, q: Pid)
    requires Inv(s) && Legal(s, run) && q in Abstract(s)
    requires forall t :: t in run ==> !Concerns(t, q)
    ensures q in Abstract(Exec(s, run)) && Abstract(Exec(s, run))[q] == Abstract(s)[q]
  {
    Isolation(s, run);
    EagerUndisturbed(Abstract(s), run, q);
  }

  // ---------------------------------------------------------------- reference counts

  /** Some mapping or some process in the kernel refers to the frame. */
  ghost predicate Referenced(s: State, f: Frame) {
    (exists p, v :: Mapped(s, p, v) && Entry(s, p, v).frame == f) || (exists p :: HeldBy(s, p) == Some(f))
  }

  /** The kernel's own frames are not user frames; true until a failure path loses a reference. */
  ghost predicate NoLeak(s: State) {
    forall f :: f in s.held ==> !Referenced(s, f)
  }

  predicate Loses(t: Step) { t.DoForkFail? || t.DoFaultFail? }

  /** Nothing refers to a frame that nothing referred to before, unless it was free. */
  ghost predicate NoNewReference(s: State, s': State) {
    && (forall p, v :: Mapped(s', p, v) ==> Mapped(s, p, v) && Entry(s', p, v).frame == Entry(s, p, v).frame)
    && (forall p :: HeldBy(s', p).Some? ==> HeldBy(s', p) == HeldBy(s, p) || s.Free(HeldBy(s', p).value))
  }

  lemma OldReference(s: State, s': State, f: Frame)
    requires NoNewReference(s, s') && Referenced(s', f)
    ensures Referenced(s, f) || s.Free(f)
  {
    if p, v :| Mapped(s', p, v) && Entry(s', p, v).frame == f {
      assert Mapped(s, p, v) && Entry(s, p, v).frame == f;
    } else {
      var p :| HeldBy(s', p) == Some(f);
      assert s.Free(f) || HeldBy(s, p) == Some(f);
    }
  }

  /** A reference that moves was there before. */
  lemma MovedReference(s: State, s': State, p: Pid, v: Vpn, h: Pid, f: Frame)
    requires Change(s, s', p, v, h) && Referenced(s', f)
    ensures Referenced(s, f) || s.Free(f)
  {
    if Mapped(s', p, v) && Entry(s', p, v).frame == f {
      assert Obtainable(s, h, f);
    } else if HeldBy(s', h) == Some(f) {
      assert Obtainable(s, h, f);
    } else if q, w :| Mapped(s', q, w) && Entry(s', q, w).frame == f {
      assert q != p || w != v;
      assert Mapped(s, q, w) && Entry(s, q, w).frame == f;
    } else {
      var q :| HeldBy(s', q) == Some(f);
      assert HeldBy(s, q) == Some(f);
    }
  }

  lemma FaultAllocReferences(s: State, p: Pid, addr: nat, write: bool, f: Frame)
    requires CanFaultAlloc(s, p, addr, write, f)
    ensures NoNewReference(s, FaultAlloc(s, p, addr, write, f))
  {
  }

  lemma FaultFillReferences(s: State, p: Pid)
    requires CanFaultFill(s, p)
    ensures NoNewReference(s, FaultFill(s, p))
  {
  }

  lemma FaultDropReferences(s: State, p: Pid)
    requires CanFaultDrop(s, p)
    ensures NoNewReference(s, FaultDrop(s, p))
  {
  }

  lemma FaultReferences(s: State, t: Step, f: Frame)
    requires Inv(s) && FaultEnabled(s, t) && !t.DoFaultFail? && Referenced(FaultNext(s, t), f)
    ensures Referenced(s, f) || s.Free(f)
  {
    match t
    case DoFaultAlloc(p, addr, write, g) =>
      FaultAllocReferences(s, p, addr, write, g);
      OldReference(s, FaultAlloc(s, p, addr, write, g), f);
    case DoFaultFill(p) => FaultFillReferences(s, p); OldReference(s, FaultFill(s, p), f);
    case DoFaultMap(p) =>
      FaultMapChange(s, p);
      MovedReference(s, FaultMap(s, p), p, s.procs[p].stage.vpn, p, f);
    case DoFaultDrop(p) => FaultDropReferences(s, p); OldReference(s, FaultDrop(s, p), f);
  }

  lemma ShareReferences(s: State, t: Step, f: Frame)
    requires Inv(s) && ForkEnabled(s, t) && Referenced(ForkNext(s, t), f)
    requires t.DoForkProtect? || t.DoForkCount? || t.DoForkMap?
    ensures Referenced(s, f) || s.Free(f)
  {
    var g := s.procs[t.p].stage;
    if t.DoForkProtect? {
      ForkProtectChange(s, t.p);
      MovedReference(s, ForkProtect(s, t.p), t.p, g.todo[0].vpn, t.p, f);
    } else if t.DoForkCount? {
      ForkCountChange(s, t.p);
      MovedReference(s, ForkCount(s, t.p), t.p, g.todo[0].vpn, t.p, f);
    } else {
      ForkMapChange(s, t.p);
      MovedReference(s, ForkMap(s, t.p), g.child, g.todo[0].vpn, t.p, f);
    }
  }

  lemma ForkStartReferences(s: State, p: Pid, c: Pid)
    requires CanForkStart(s, p, c)
    ensures NoNewReference(s, ForkStart(s, p, c))
  {
  }

  lemma ForkSkipReferences(s: State, p: Pid)
    requires CanForkSkip(s, p)
    ensures NoNewReference(s, ForkSkip(s, p))
  {
  }

  lemma ForkRegionReferences(s: State, p: Pid)
    requires CanForkRegion(s, p) && StageOk(s, p)
    ensures NoNewReference(s, ForkRegion(s, p))
  {
  }

  lemma ForkDoneReferences(s: State, p: Pid, c: Pid)
    requires CanForkDone(s, p, c) && StageOk(s, p)
    ensures NoNewReference(s, ForkDone(s, p, c))
  {
  }

  lemma ForkReferences(s: State, t: Step, f: Frame)
    requires Inv(s) && ForkEnabled(s, t) && Referenced(ForkNext(s, t), f)
    requires t.DoForkStart? || t.DoForkRegion? || t.DoForkSkip? || t.DoForkDone?
    ensures Referenced(s, f) || s.Free(f)
  {
    match t
    case DoForkStart(p, c) => ForkStartReferences(s, p, c); OldReference(s, ForkStart(s, p, c), f);
    case DoForkRegion(p) => ForkRegionReferences(s, p); OldReference(s, ForkRegion(s, p), f);
    case DoForkSkip(p) => ForkSkipReferences(s, p); OldReference(s, ForkSkip(s, p), f);
    case DoForkDone(p, c) => ForkDoneReferences(s, p, c); OldReference(s, ForkDone(s, p, c), f);
  }

  lemma ClearReferences(s: State, t: Step)
    requires OtherEnabled(s, t) && (t.DoExitStart? || t.DoClearDrop? || t.DoClearZero? || t.DoExitDone?)
    ensures NoNewReference(s, OtherNext(s, t))
  {
  }

  lemma OtherReferences(s: State, t: Step)
    requires OtherEnabled(s, t)
    ensures NoNewReference(s, OtherNext(s, t))
  {
    if t.DoExitStart? || t.DoClearDrop? || t.DoClearZero? || t.DoExitDone? {
      ClearReferences(s, t);
    }
  }

  /** Steps refer only to frames that were referred to before, or were free. */
  lemma StepReferences(s: State, t: Step, f: Frame)
    requires Inv(s) && Enabled(s, t) && Referenced(Next(s, t), f) && !Loses(t)
    ensures Referenced(s, f) || s.Free(f)
  {
    if t.IsFault() { FaultReferences(s, t, f); }
    else if t.DoForkProtect? || t.DoForkCount? || t.DoForkMap? { ShareReferences(s, t, f); }
    else if t.IsFork() { ForkReferences(s, t, f); }
    else { OtherReferences(s, t); OldReference(s, OtherNext(s, t), f); }
  }

  /** Only the kernel's own steps and the failures change which references are held. */
  lemma StepHeld(s: State, t: Step)
    requires Enabled(s, t) && !Loses(t) && !t.IsKernel()
    ensures Next(s, t).held == s.held
  {
  }

  lemma KernelNoLeak(s: State, t: Step)
    requires Inv(s) && NoLeak(s) && OtherEnabled(s, t) && t.IsKernel()
    ensures NoLeak(OtherNext(s, t))
  {
    var s' := OtherNext(s, t);
    assert s'.procs == s.procs;
    forall f | f in s'.held ensures !Referenced(s', f) {
      if s.Free(f) { FreeUnreferenced(s, f); }
      assert forall p, v :: Mapped(s', p, v) <==> Mapped(s, p, v);
      assert forall p :: HeldBy(s', p) == HeldBy(s, p);
    }
  }

  lemma StepNoLeak(s: State, t: Step)
    requires Inv(s) && NoLeak(s) && Enabled(s, t) && !Loses(t)
    ensures NoLeak(Next(s, t))
  {
    if t.IsKernel() {
      KernelNoLeak(s, t);
    } else {
      StepHeld(s, t);
      var s' := Next(s, t);
      forall f | f in s'.held ensures !Referenced(s', f) {
        if s.Free(f) { FreeUnreferenced(s, f); }
        if Referenced(s', f) { StepReferences(s, t, f); }
      }
    }
  }

  lemma {:induction false} RunNoLeak(s: State, run: seq<Step>)
    requires Inv(s) && NoLeak(s) && Legal(s, run)
    requires forall t :: t in run ==> !Loses(t)
    ensures NoLeak(Exec(s, run))
    decreases |run|
  {
    if run != [] {
      assert run[0] in run;
      StepKeeps(s, run[0]);
      StepNoLeak(s, run[0]);
      RunNoLeak(Next(s, run[0]), run[1..]);
    }
  }

  // ---------------------------------------------------------------- what the counts say

  /** The entries for the frame that the hardware would find. */
  ghost function Present(s: State, f: Frame): set<(Pid, Vpn)> {
    set p, v | p in s.procs && v in s.procs[p].table && s.procs[p].table[v].frame == f :: (p, v)
  }

  /** Those of them whose count is already dropped. */
  ghost function StaleEntries(s: State, f: Frame): set<(Pid, Vpn)> {
    set p, v | p in s.procs && v in s.procs[p].table && s.procs[p].stage.Stale(v) && s.procs[p].table[v].frame == f
      :: (p, v)
  }

  lemma PresentParts(s: State, f: Frame)
    ensures |Present(s, f)| == |Maps(s, f)| + |StaleEntries(s, f)|
  {
    assert Present(s, f) == Maps(s, f) + StaleEntries(s, f);
    assert Maps(s, f) !! StaleEntries(s, f);
  }

  lemma WritableCount(s: State, p: Pid, v: Vpn)
    requires Inv(s) && Mapped(s, p, v) && Entry(s, p, v).writable
    ensures Entry(s, p, v).frame in s.refcnt && s.refcnt[Entry(s, p, v).frame] == 1
  {
    var f := Entry(s, p, v).frame;
    forall k ensures k in Maps(s, f) <==> k == (p, v) { InMaps(s, f, k.0, k.1); }
    forall q ensures q !in Pending(s, f) { assert HeldBy(s, q) != Some(f); }
    assert Maps(s, f) == {(p, v)} && Pending(s, f) == {};
  }

  lemma FreeIff(s: State, f: Frame)
    requires Inv(s) && f in s.refcnt
    ensures s.Free(f) <==> !Referenced(s, f) && f !in s.held
  {
    if s.Free(f) { FreeUnreferenced(s, f); }
    if !Referenced(s, f) && f !in s.held {
      forall k ensures k !in Maps(s, f) { InMaps(s, f, k.0, k.1); }
      forall p ensures p !in Pending(s, f) { assert HeldBy(s, p) != Some(f); }
      assert Maps(s, f) == {} && Pending(s, f) == {};
    }
  }

  /**
  Reference counts in every reachable state. A count and the stale entries make up the
  entries for the frame, the references on the move and those held outside page tables. So
  the count is below the number of entries exactly while stale entries outnumber the other
  references. It is 1 where a live entry is writable, and 0 (the frame is free) exactly when
  nothing but stale entries refers to the frame.
   */
  lemma Refcounts(s: State, run: seq<Step>, f: Frame)
    requires Initial(s) && Legal(s, run) && f in Exec(s, run).refcnt
    ensures var z := Exec(s, run);
      && z.refcnt[f] + |StaleEntries(z, f)| == |Present(z, f)| + |Pending(z, f)| + z.held[f]
      && (z.refcnt[f] >= |Present(z, f)| <==> |StaleEntries(z, f)| <= |Pending(z, f)| + z.held[f])
      && (z.Free(f) <==> !Referenced(z, f) && f !in z.held)
      && forall p, v :: Mapped(z, p, v) && Entry(z, p, v) == Pte(f, true) ==> z.refcnt[f] == 1
  {
    InitialInv(s);
    RunKeeps(s, run);
    var z := Exec(s, run);
    PresentParts(z, f);
    FreeIff(z, f);
    forall p, v | Mapped(z, p, v) && Entry(z, p, v) == Pte(f, true) ensures z.refcnt[f] == 1 {
      WritableCount(z, p, v);
    }
  }

  /**
  While no fault and no fork fails half way, the count of every frame with a live entry is
  exactly the number of its entries, less the stale ones, plus one for each process that is
  just moving a reference. Between the statements that move references it is the number of
  entries.
   */
  lemma RefcountsExact(s: State, run: seq<Step>, f: Frame)
    requires Initial(s) && Legal(s, run) && f in Exec(s, run).refcnt
    requires forall t :: t in run ==> !Loses(t)
    requires Maps(Exec(s, run), f) != {}
    ensures var z := Exec(s, run);
      && z.refcnt[f] + |StaleEntries(z, f)| == |Present(z, f)| + |Pending(z, f)|
      && (StaleEntries(z, f) == {} && Pending(z, f) == {} ==> z.refcnt[f] == |Present(z, f)|)
  {
    InitialInv(s);
    RunKeeps(s, run);
    RunNoLeak(s, run);
    var z := Exec(s, run);
    PresentParts(z, f);
    var k :| k in Maps(z, f);
    InMaps(z, f, k.0, k.1);
    assert Referenced(z, f) by { assert Mapped(z, k.0, k.1); }
  }

  /** When `clear_pte` drops the last reference, the frame joins those that a fault can be given,
      while the entry of the dying process still names it; it may be the only one. */
  lemma DroppedLast(s: State, p: Pid, v: Vpn, q: Pid, addr: nat, write: bool, g: Frame)
    requires Inv(s) && CanClearDrop(s, p, v) && s.refcnt[s.procs[p].table[v].frame] == 1
    requires q != p && Faults(s, q, addr, write)
    ensures var f, z := s.procs[p].table[v].frame, ClearDrop(s, p, v);
      z.Free(f) && (p, v) in Present(z, f) && (CanFaultAlloc(z, q, addr, write, g) <==> g == f || s.Free(g))
  {
  }

  lemma Before(t: Step, s: State, rest: seq<Step>) returns (run: seq<Step>)
    requires Enabled(s, t) && Legal(Next(s, t), rest)
    ensures Legal(s, run) && Exec(s, run) == Exec(Next(s, t), rest)
  {
    run := [t] + rest;
    assert run[0] == t && run[1..] == rest;
  }

  lemma ExitToStale(s: State, p: Pid, v: Vpn) returns (run: seq<Step>)
    requires CanExitStart(s, p) && v in s.procs[p].table
    requires var f := s.procs[p].table[v].frame; f in s.refcnt && s.refcnt[f] == 1
    ensures Legal(s, run)
    ensures var f, z := s.procs[p].table[v].frame, Exec(s, run); z.Free(f) && (p, v) in Present(z, f)
  {
    var s1 := ExitStart(s, p);
    run := Before(DoClearDrop(p, v), s1, []);
    run := Before(DoExitStart(p), s, run);
  }

  lemma FaultToStale(s: State, p: Pid, addr: nat, write: bool, f: Frame) returns (run: seq<Step>)
    requires CanFaultAlloc(s, p, addr, write, f) && addr / PG_SIZE !in s.procs[p].table
    ensures Legal(s, run) && Exec(s, run).Free(f) && (p, addr / PG_SIZE) in Present(Exec(s, run), f)
  {
    var s1 := FaultAlloc(s, p, addr, write, f);
    var s2 := FaultFill(s1, p);
    var s3 := FaultMap(s2, p);
    run := ExitToStale(s3, p, addr / PG_SIZE);
    run := Before(DoFaultMap(p), s2, run);
    run := Before(DoFaultFill(p), s1, run);
    run := Before(DoFaultAlloc(p, addr, write, f), s, run);
  }

  function FirstRegion(): Region { Region(0, PG_SIZE, URW) }

  lemma FirstPage(s: State, f: Frame)
    requires 1 in s.procs && s.procs[1] == Proc(User, [], map[]) && s.Free(f)
    ensures CanMapRegion(s, 1, FirstRegion()) && CanFaultAlloc(MapRegion(s, 1, FirstRegion()), 1, 0, true, f)
  {
    var r := FirstRegion();
    assert LinkRegion([], r) == [r] && FindRegion([r], 0) == Some(r);
  }

  /** From boot, a process that maps one page and exits gets there: its frame is free, and its
      table still has the entry. */
  lemma StaleReached(s: State, f: Frame) returns (run: seq<Step>)
    requires Initial(s) && f in s.refcnt
    ensures Legal(s, run) && Exec(s, run).Free(f) && (1, 0) in Present(Exec(s, run), f)
  {
    var s1 := Spawn(s, 1);
    FirstPage(s1, f);
    run := FaultToStale(MapRegion(s1, 1, FirstRegion()), 1, 0, true, f);
    run := Before(DoMapRegion(1, FirstRegion()), s1, run);
    run := Before(DoSpawn(1), s, run);
  }

  // ---------------------------------------------------------------- progress

  /** The counts the kernel is about to drop or raise are positive, as the assertions of
      `pmem_dec_refcnt` and `pmem_inc_refcnt` ask. */
  lemma CountsPositive(s: State, p: Pid)
    requires Inv(s) && p in s.procs
    ensures s.procs[p].stage.Remapped? ==> s.Counts(s.procs[p].stage.dropped)
    ensures forall v :: v in s.procs[p].table && !s.procs[p].stage.Stale(v) ==> s.Counts(s.procs[p].table[v].frame)
  {
    forall f | f in s.refcnt && Referenced(s, f) ensures s.refcnt[f] > 0 {
      if s.refcnt[f] == 0 { FreeUnreferenced(s, f); }
    }
    if s.procs[p].stage.Remapped? {
      assert HeldBy(s, p) == Some(s.procs[p].stage.dropped);
    }
    forall v | v in s.procs[p].table && !s.procs[p].stage.Stale(v) ensures s.Counts(s.procs[p].table[v].frame) {
      assert Mapped(s, p, v);
      assert Referenced(s, Entry(s, p, v).frame);
    }
  }

  /** The statement after the one a fork has completed can be executed. */
  ghost predicate ForkGoesOn(s: State, p: Pid)
    requires p in s.procs && s.procs[p].stage.Copying()
  {
    var g := s.procs[p].stage;
    match g
    case Forking(c, todo) =>
      if todo == [] then CanForkDone(s, p, c)
      else if todo[0].CopyRegion? then
        g.child in s.procs && (Accepts(s.procs[g.child].regions, todo[0].region) ==> CanForkRegion(s, p))
      else CanForkSkip(s, p) || CanForkProtect(s, p)
    case Protected(_, _) => CanForkCount(s, p)
    case Sharing(c, todo, _) =>
      c in s.procs && g.AtPage() && (CanForkMap(s, p) <==> todo[0].vpn !in s.procs[c].table)
  }

  /** The statement after the one a process has completed can be executed. */
  ghost predicate GoesOn(s: State, p: Pid)
    requires p in s.procs
  {
    var g := s.procs[p].stage;
    match g
    case User => CanExitStart(s, p)
    case Allocated(_, _, _) => CanFaultFill(s, p)
    case Filled(_, _, _) => CanFaultMap(s, p)
    case Remapped(_) => CanFaultDrop(s, p)
    case Embryo(_) => true
    case Exiting(stale) => if stale.Some? then CanClearZero(s, p)
                           else if s.procs[p].table == map[] then CanExitDone(s, p)
                           else forall v :: v in s.procs[p].table ==> CanClearDrop(s, p, v)
    case Stillborn(stale) => if stale.Some? then CanClearZero(s, p)
                             else forall v :: v in s.procs[p].table ==> CanClearDrop(s, p, v)
    case _ => ForkGoesOn(s, p) && CanForkFail(s, p)
  }

  lemma ForkNeverBlocked(s: State, p: Pid)
    requires Inv(s) && p in s.procs && s.procs[p].stage.Copying()
    ensures ForkGoesOn(s, p) && CanForkFail(s, p)
  {
    assert StageOk(s, p);
    CountsPositive(s, p);
  }

  /** In every state a process reaches inside the kernel, the next statement of its code can be
      executed: no assertion fails and no entry it relies on is missing. */
  lemma NeverBlocked(s: State, p: Pid)
    requires Inv(s) && p in s.procs
    ensures GoesOn(s, p)
  {
    if s.procs[p].stage.Copying() {
      ForkNeverBlocked(s, p);
    } else {
      CountsPositive(s, p);
    }
  }

  /** The process whose statement the step is, or that it creates or ends. */
  predicate By(t: Step, p: Pid) { !t.IsKernel() && t.p == p }

  /** A step of a fork changes the records of the parent and the child only. */
  lemma ForkTouches(s: State, t: Step, p: Pid)
    requires ForkEnabled(s, t) && p in s.procs && p != t.p
    requires if t.DoForkStart? then p != t.c else p != s.procs[t.p].stage.child
    ensures p in ForkNext(s, t).procs && ForkNext(s, t).procs[p] == s.procs[p]
  {
  }

  lemma ForkKeepsOut(s: State, t: Step, p: Pid)
    requires Staged(s) && ForkEnabled(s, t) && p in s.procs && !By(t, p)
    requires match s.procs[p].stage case Embryo(q) => !By(t, q) case _ => true
    ensures p in ForkNext(s, t).procs && ForkNext(s, t).procs[p] == s.procs[p]
  {
    assert StageOk(s, t.p);
    ForkTouches(s, t, p);
  }

  lemma FaultKeepsOut(s: State, t: Step, p: Pid)
    requires FaultEnabled(s, t) && p in s.procs && !By(t, p)
    ensures p in FaultNext(s, t).procs && FaultNext(s, t).procs[p] == s.procs[p]
  {
  }

  lemma OtherKeepsOut(s: State, t: Step, p: Pid)
    requires OtherEnabled(s, t) && p in s.procs && !By(t, p)
    ensures p in OtherNext(s, t).procs && OtherNext(s, t).procs[p] == s.procs[p]
  {
  }

  /** Between two statements of a process, no step of another changes its record; and while it
      forks, none changes its child's. */
  lemma OthersKeepOut(s: State, t: Step, p: Pid)
    requires Inv(s) && Enabled(s, t) && p in s.procs && !By(t, p)
    requires match s.procs[p].stage case Embryo(q) => !By(t, q) case _ => true
    ensures p in Next(s, t).procs && Next(s, t).procs[p] == s.procs[p]
  {
    if t.IsFault() { FaultKeepsOut(s, t, p); }
    else if t.IsFork() { ForkKeepsOut(s, t, p); }
    else { OtherKeepsOut(s, t, p); }
  }

  /** A failed fork shows nothing to the parent, and leaves its frames in place. */
  lemma ForkFailInvisible(s: State, p: Pid)
    requires Inv(s) && CanForkFail(s, p)
    ensures Abstract(ForkFail(s, p)) == Abstract(s)
  {
    assert StageOk(s, p);
    ForkFailRefines(s, p);
  }
}
