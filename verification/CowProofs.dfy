/**
Every step of the copy-on-write machine keeps the invariant and matches a step of the
machine that copies eagerly, so every run is a run of private memories.
 */
module CowProofs {
  import opened Common
  import opened Regions
  import opened CowModel
  import opened CowInvariant

  // ---------------------------------------------------------------- every step keeps the invariant

  lemma SpawnCore(s: State, p: Pid)
    requires Core(s) && CanSpawn(s, p)
    ensures Core(Spawn(s, p))
  {
    TablesKept(s, Spawn(s, p), p);
  }

  lemma SpawnStaged(s: State, p: Pid)
    requires Staged(s) && CanSpawn(s, p)
    ensures Staged(Spawn(s, p))
  {
    StagedAround(s, Spawn(s, p), p, p);
  }

  lemma MapRegionCore(s: State, p: Pid, r: Region)
    requires Core(s) && CanMapRegion(s, p, r) && StageOk(s, p)
    ensures Core(MapRegion(s, p, r))
  {
    TablesKept(s, MapRegion(s, p, r), p);
  }

  lemma MapRegionStaged(s: State, p: Pid, r: Region)
    requires Staged(s) && CanMapRegion(s, p, r)
    ensures Staged(MapRegion(s, p, r))
  {
    StagedAround(s, MapRegion(s, p, r), p, p);
  }

  lemma FaultAllocCore(s: State, p: Pid, addr: nat, write: bool, f: Frame)
    requires Core(s) && CanFaultAlloc(s, p, addr, write, f) && StageOk(s, p)
    ensures Core(FaultAlloc(s, p, addr, write, f))
  {
    FreeUnreferenced(s, f);
    TablesKept(s, FaultAlloc(s, p, addr, write, f), p);
  }

  /** A region of pages has the page of every address it covers. */
  lemma CoveredPage(r: Region, addr: nat)
    requires r.Fits() && r.Covers(addr)
    ensures r.HasPage(addr / PG_SIZE)
  {
  }

  lemma FaultAllocStaged(s: State, p: Pid, addr: nat, write: bool, f: Frame)
    requires Staged(s) && CanFaultAlloc(s, p, addr, write, f)
    ensures Staged(FaultAlloc(s, p, addr, write, f))
  {
    assert StageOk(s, p);
    CoveredPage(FindRegion(s.procs[p].regions, addr).value, addr);
    StagedAround(s, FaultAlloc(s, p, addr, write, f), p, p);
  }

  lemma FaultFillCore(s: State, p: Pid)
    requires Core(s) && CanFaultFill(s, p) && StageOk(s, p)
    ensures Core(FaultFill(s, p))
  {
    assert ExclusiveAt(s, p);
    TablesKept(s, FaultFill(s, p), p);
  }

  lemma FaultFillStaged(s: State, p: Pid)
    requires Exclusive(s) && Staged(s) && CanFaultFill(s, p)
    ensures Staged(FaultFill(s, p))
  {
    var s' := FaultFill(s, p);
    assert ExclusiveAt(s, p);
    forall q | q != p && q in s.procs ensures FillKept(s, s', s.procs[q]) {
      var x := s.procs[q];
      assert x.stage.Holds() != Some(s.procs[p].stage.page);
      assert x.stage.Filled? && x.stage.vpn in x.table ==> Mapped(s, q, x.stage.vpn);
    }
    StagedAround(s, s', p, p);
  }

  lemma FaultMapMoves(s: State, p: Pid)
    requires CanFaultMap(s, p)
    ensures var s', v := FaultMap(s, p), s.procs[p].stage.vpn;
      && SameElsewhere(s, s', p, v) && OthersHold(s, s', p)
      && HeldBy(s', p) == FrameAt(s, p, v) && FrameAt(s', p, v) == HeldBy(s, p)
  {
    var s', v := FaultMap(s, p), s.procs[p].stage.vpn;
    OneProc(s, s', p, v);
    assert v in s.procs[p].table ==> Mapped(s, p, v);
  }

  lemma FaultMapChange(s: State, p: Pid)
    requires Typed(s) && CanFaultMap(s, p)
    ensures Change(s, FaultMap(s, p), p, s.procs[p].stage.vpn, p)
  {
    var s', v := FaultMap(s, p), s.procs[p].stage.vpn;
    FaultMapMoves(s, p);
    assert Obtainable(s, p, Entry(s', p, v).frame);
  }

  lemma FaultMapCore(s: State, p: Pid)
    requires Core(s) && CanFaultMap(s, p) && StageOk(s, p)
    ensures Core(FaultMap(s, p))
  {
    assert ExclusiveAt(s, p);
    FaultMapChange(s, p);
    CoreChange(s, FaultMap(s, p), p, s.procs[p].stage.vpn, p);
  }

  lemma FaultMapStaged(s: State, p: Pid)
    requires Staged(s) && CanFaultMap(s, p)
    ensures Staged(FaultMap(s, p))
  {
    StagedAround(s, FaultMap(s, p), p, p);
  }

  lemma FaultFailTables(s: State, p: Pid)
    requires CanFaultFail(s, p)
    ensures SameTables(s, FaultFail(s, p)) && OthersHold(s, FaultFail(s, p), p) && HeldBy(FaultFail(s, p), p) == None
    ensures forall f :: FaultFail(s, p).held[f] == s.held[f] + One(HeldBy(s, p), f)
  {
  }

  lemma FaultFailCore(s: State, p: Pid)
    requires Core(s) && CanFaultFail(s, p) && StageOk(s, p)
    ensures Core(FaultFail(s, p))
  {
    FaultFailTables(s, p);
    TablesKept(s, FaultFail(s, p), p);
  }

  lemma FaultFailStaged(s: State, p: Pid)
    requires Staged(s) && CanFaultFail(s, p)
    ensures Staged(FaultFail(s, p))
  {
    StagedAround(s, FaultFail(s, p), p, p);
  }

  lemma FaultDropCore(s: State, p: Pid)
    requires Core(s) && CanFaultDrop(s, p) && StageOk(s, p)
    ensures Core(FaultDrop(s, p))
  {
    TablesKept(s, FaultDrop(s, p), p);
  }

  lemma FaultDropStaged(s: State, p: Pid)
    requires Staged(s) && CanFaultDrop(s, p)
    ensures Staged(FaultDrop(s, p))
  {
    StagedAround(s, FaultDrop(s, p), p, p);
  }

  lemma ForkStartTables(s: State, p: Pid, c: Pid)
    requires CanForkStart(s, p, c)
    ensures SameTables(s, ForkStart(s, p, c)) && OthersHold(s, ForkStart(s, p, c), p)
    ensures HeldBy(s, p) == HeldBy(ForkStart(s, p, c), p) == None
  {
    TwoProcs(s, ForkStart(s, p, c), p, c);
  }

  lemma ForkStartCore(s: State, p: Pid, c: Pid)
    requires Core(s) && CanForkStart(s, p, c) && StageOk(s, p)
    ensures Core(ForkStart(s, p, c))
  {
    ForkStartTables(s, p, c);
    TablesKept(s, ForkStart(s, p, c), p);
  }

  lemma ForkStartStaged(s: State, p: Pid, c: Pid)
    requires Staged(s) && CanForkStart(s, p, c)
    ensures Staged(ForkStart(s, p, c))
  {
    StagedAround(s, ForkStart(s, p, c), p, c);
  }

  lemma ForkRegionTables(s: State, p: Pid)
    requires CanForkRegion(s, p) && StageOk(s, p)
    ensures SameTables(s, ForkRegion(s, p)) && OthersHold(s, ForkRegion(s, p), p)
    ensures HeldBy(s, p) == HeldBy(ForkRegion(s, p), p) == None
  {
    TwoProcs(s, ForkRegion(s, p), p, s.procs[p].stage.child);
  }

  lemma ForkRegionCore(s: State, p: Pid)
    requires Core(s) && CanForkRegion(s, p) && StageOk(s, p)
    ensures Core(ForkRegion(s, p))
  {
    ForkRegionTables(s, p);
    TablesKept(s, ForkRegion(s, p), p);
  }

  lemma ForkRegionStaged(s: State, p: Pid)
    requires Staged(s) && CanForkRegion(s, p)
    ensures Staged(ForkRegion(s, p))
  {
    StagedAround(s, ForkRegion(s, p), p, s.procs[p].stage.child);
  }

  lemma ForkSkipCore(s: State, p: Pid)
    requires Core(s) && CanForkSkip(s, p) && StageOk(s, p)
    ensures Core(ForkSkip(s, p))
  {
    TablesKept(s, ForkSkip(s, p), p);
  }

  lemma ForkSkipStaged(s: State, p: Pid)
    requires Staged(s) && CanForkSkip(s, p)
    ensures Staged(ForkSkip(s, p))
  {
    StagedAround(s, ForkSkip(s, p), p, p);
  }

  lemma ForkProtectChange(s: State, p: Pid)
    requires Typed(s) && CanForkProtect(s, p)
    ensures Change(s, ForkProtect(s, p), p, s.procs[p].stage.todo[0].vpn, p)
  {
    var s', v := ForkProtect(s, p), s.procs[p].stage.todo[0].vpn;
    OneProc(s, s', p, v);
    assert Mapped(s, p, v) && FrameAt(s', p, v) == FrameAt(s, p, v);
    assert Obtainable(s, p, Entry(s', p, v).frame);
  }

  lemma ForkProtectUnshared(s: State, p: Pid)
    requires Sole(s) && CanForkProtect(s, p)
    ensures Unshared(s, ForkProtect(s, p), p, s.procs[p].stage.todo[0].vpn)
  {
    assert Mapped(s, p, s.procs[p].stage.todo[0].vpn);
  }

  lemma ForkProtectCore(s: State, p: Pid)
    requires Core(s) && CanForkProtect(s, p) && StageOk(s, p)
    ensures Core(ForkProtect(s, p))
  {
    ForkProtectChange(s, p);
    ForkProtectUnshared(s, p);
    CoreChange(s, ForkProtect(s, p), p, s.procs[p].stage.todo[0].vpn, p);
  }

  lemma ForkProtectStaged(s: State, p: Pid)
    requires Staged(s) && CanForkProtect(s, p)
    ensures Staged(ForkProtect(s, p))
  {
    StagedAround(s, ForkProtect(s, p), p, p);
  }

  lemma ForkCountChange(s: State, p: Pid)
    requires Typed(s) && CanForkCount(s, p)
    ensures Change(s, ForkCount(s, p), p, s.procs[p].stage.todo[0].vpn, p)
  {
    var s', v := ForkCount(s, p), s.procs[p].stage.todo[0].vpn;
    OneProc(s, s', p, v);
    assert Mapped(s, p, v) && FrameAt(s', p, v) == FrameAt(s, p, v) == HeldBy(s', p);
    assert Obtainable(s, p, Entry(s', p, v).frame);
  }

  lemma ForkCountUnshared(s: State, p: Pid)
    requires Sole(s) && CanForkCount(s, p) && StageOk(s, p)
    ensures Unshared(s, ForkCount(s, p), p, s.procs[p].stage.todo[0].vpn)
  {
    assert Mapped(s, p, s.procs[p].stage.todo[0].vpn);
  }

  lemma ForkCountCore(s: State, p: Pid)
    requires Core(s) && CanForkCount(s, p) && StageOk(s, p)
    ensures Core(ForkCount(s, p))
  {
    ForkCountChange(s, p);
    ForkCountUnshared(s, p);
    CoreChange(s, ForkCount(s, p), p, s.procs[p].stage.todo[0].vpn, p);
  }

  lemma ForkCountStaged(s: State, p: Pid)
    requires Staged(s) && CanForkCount(s, p)
    ensures Staged(ForkCount(s, p))
  {
    StagedAround(s, ForkCount(s, p), p, p);
  }

  lemma ForkMapElsewhere(s: State, p: Pid)
    requires CanForkMap(s, p) && StageOk(s, p)
    ensures SameElsewhere(s, ForkMap(s, p), s.procs[p].stage.child, s.procs[p].stage.todo[0].vpn)
    ensures OthersHold(s, ForkMap(s, p), p)
  {
    var s', c, v := ForkMap(s, p), s.procs[p].stage.child, s.procs[p].stage.todo[0].vpn;
    forall q, w | q != c || w != v
      ensures (Mapped(s', q, w) <==> Mapped(s, q, w)) && (Mapped(s', q, w) ==> Entry(s', q, w) == Entry(s, q, w))
    {
    }
  }

  lemma ForkMapChange(s: State, p: Pid)
    requires Typed(s) && CanForkMap(s, p) && StageOk(s, p)
    ensures Change(s, ForkMap(s, p), s.procs[p].stage.child, s.procs[p].stage.todo[0].vpn, p)
  {
    var s', c, v := ForkMap(s, p), s.procs[p].stage.child, s.procs[p].stage.todo[0].vpn;
    ForkMapElsewhere(s, p);
    assert FrameAt(s, c, v) == None && FrameAt(s', c, v) == HeldBy(s, p);
  }

  lemma ForkMapUnshared(s: State, p: Pid)
    requires Sole(s) && CanForkMap(s, p) && StageOk(s, p)
    ensures Unshared(s, ForkMap(s, p), s.procs[p].stage.child, s.procs[p].stage.todo[0].vpn)
  {
    assert Mapped(s, p, s.procs[p].stage.todo[0].vpn);
  }

  lemma ForkMapCore(s: State, p: Pid)
    requires Core(s) && CanForkMap(s, p) && StageOk(s, p)
    ensures Core(ForkMap(s, p))
  {
    ForkMapChange(s, p);
    ForkMapUnshared(s, p);
    CoreChange(s, ForkMap(s, p), s.procs[p].stage.child, s.procs[p].stage.todo[0].vpn, p);
  }

  lemma ForkMapStaged(s: State, p: Pid)
    requires Staged(s) && CanForkMap(s, p)
    ensures Staged(ForkMap(s, p))
  {
    StagedAround(s, ForkMap(s, p), p, s.procs[p].stage.child);
  }

  lemma ForkFailTables(s: State, p: Pid)
    requires CanForkFail(s, p) && StageOk(s, p)
    ensures SameTables(s, ForkFail(s, p)) && OthersHold(s, ForkFail(s, p), p)
    ensures HeldBy(ForkFail(s, p), p) == None && !ForkFail(s, p).procs[p].stage.Filling()
    ensures forall f :: ForkFail(s, p).held[f] == s.held[f] + One(HeldBy(s, p), f)
  {
    TwoProcs(s, ForkFail(s, p), p, s.procs[p].stage.child);
  }

  lemma ForkFailCore(s: State, p: Pid)
    requires Core(s) && CanForkFail(s, p) && StageOk(s, p)
    ensures Core(ForkFail(s, p))
  {
    ForkFailTables(s, p);
    TablesKept(s, ForkFail(s, p), p);
  }

  lemma ForkFailStaged(s: State, p: Pid)
    requires Staged(s) && CanForkFail(s, p)
    ensures Staged(ForkFail(s, p))
  {
    StagedAround(s, ForkFail(s, p), p, s.procs[p].stage.child);
  }

  lemma ForkDoneTables(s: State, p: Pid, c: Pid)
    requires CanForkDone(s, p, c) && StageOk(s, p)
    ensures SameTables(s, ForkDone(s, p, c)) && OthersHold(s, ForkDone(s, p, c), p)
    ensures HeldBy(s, p) == HeldBy(ForkDone(s, p, c), p) == None
  {
    TwoProcs(s, ForkDone(s, p, c), p, c);
  }

  lemma ForkDoneCore(s: State, p: Pid, c: Pid)
    requires Core(s) && CanForkDone(s, p, c) && StageOk(s, p)
    ensures Core(ForkDone(s, p, c))
  {
    ForkDoneTables(s, p, c);
    TablesKept(s, ForkDone(s, p, c), p);
  }

  lemma ForkDoneStaged(s: State, p: Pid, c: Pid)
    requires Staged(s) && CanForkDone(s, p, c)
    ensures Staged(ForkDone(s, p, c))
  {
    StagedAround(s, ForkDone(s, p, c), p, c);
  }

  lemma ExitStartCore(s: State, p: Pid)
    requires Core(s) && CanExitStart(s, p) && StageOk(s, p)
    ensures Core(ExitStart(s, p))
  {
    TablesKept(s, ExitStart(s, p), p);
  }

  lemma ExitStartStaged(s: State, p: Pid)
    requires Staged(s) && CanExitStart(s, p)
    ensures Staged(ExitStart(s, p))
  {
    StagedAround(s, ExitStart(s, p), p, p);
  }

  lemma ClearDropChange(s: State, p: Pid, v: Vpn)
    requires Typed(s) && CanClearDrop(s, p, v)
    ensures Change(s, ClearDrop(s, p, v), p, v, p)
  {
    OneProc(s, ClearDrop(s, p, v), p, v);
    assert Mapped(s, p, v);
  }

  lemma ClearDropCore(s: State, p: Pid, v: Vpn)
    requires Core(s) && CanClearDrop(s, p, v) && StageOk(s, p)
    ensures Core(ClearDrop(s, p, v))
  {
    ClearDropChange(s, p, v);
    CoreChange(s, ClearDrop(s, p, v), p, v, p);
  }

  lemma ClearDropStaged(s: State, p: Pid, v: Vpn)
    requires Staged(s) && CanClearDrop(s, p, v)
    ensures Staged(ClearDrop(s, p, v))
  {
    StagedAround(s, ClearDrop(s, p, v), p, p);
  }

  lemma ClearZeroCore(s: State, p: Pid)
    requires Core(s) && CanClearZero(s, p) && StageOk(s, p)
    ensures Core(ClearZero(s, p))
  {
    TablesKept(s, ClearZero(s, p), p);
  }

  lemma ClearZeroStaged(s: State, p: Pid)
    requires Staged(s) && CanClearZero(s, p)
    ensures Staged(ClearZero(s, p))
  {
    StagedAround(s, ClearZero(s, p), p, p);
  }

  lemma ExitDoneCore(s: State, p: Pid)
    requires Core(s) && CanExitDone(s, p) && StageOk(s, p)
    ensures Core(ExitDone(s, p))
  {
    TablesKept(s, ExitDone(s, p), p);
  }

  lemma ExitDoneStaged(s: State, p: Pid)
    requires Staged(s) && CanExitDone(s, p)
    ensures Staged(ExitDone(s, p))
  {
    StagedAround(s, ExitDone(s, p), p, p);
  }

  lemma StoreKeeps(s: State, p: Pid, v: Vpn, ofs: nat, b: Byte)
    requires Inv(s) && CanStore(s, p, v, ofs)
    ensures Inv(Store(s, p, v, ofs, b))
  {
    var s' := Store(s, p, v, ofs, b);
    assert Mapped(s, p, v);
    TablesKept(s, s', p);
    forall q | q != p && q in s.procs ensures FillKept(s, s', s.procs[q]) {
      var x := s.procs[q];
      assert x.stage.Filled? ==> ExclusiveAt(s, q);
      assert x.stage.Filled? && x.stage.vpn in x.table ==> Mapped(s, q, x.stage.vpn);
    }
    StagedAround(s, s', p, p);
  }

  /** A change of the kernel's own references touches no process. */
  lemma HeldChange(s: State, s': State, f: Frame)
    requires Inv(s) && s'.procs == s.procs && s'.frames == s.frames && f in s.refcnt
    requires f in s'.refcnt && s'.refcnt == s.refcnt[f := s'.refcnt[f]]
    requires s'.refcnt[f] - s'.held[f] == s.refcnt[f] - s.held[f]
    requires forall g :: g != f ==> s'.held[g] == s.held[g]
    requires f in s.held || (&& (forall q :: HeldBy(s, q) != Some(f))
                             && (forall q, w :: Mapped(s, q, w) ==> Entry(s, q, w).frame != f))
    ensures Inv(s')
  {
    forall g | g in s'.refcnt ensures s'.refcnt[g] == |Maps(s', g)| + |Pending(s', g)| + s'.held[g] {
      assert Maps(s', g) == Maps(s, g) && Pending(s', g) == Pending(s, g);
    }
    assert SameTables(s, s');
    assert Typed(s');
    assert Sole(s');
    assert forall g :: g != f ==> (g in s'.held <==> s'.held[g] > 0) && (g in s.held <==> s.held[g] > 0);
    forall q, w | Mapped(s', q, w) && Entry(s', q, w).writable
      ensures (forall r :: HeldBy(s', r) != Some(Entry(s', q, w).frame)) && Entry(s', q, w).frame !in s'.held
    {
      assert Mapped(s, q, w) && Entry(s, q, w) == Entry(s', q, w);
      assert forall r :: HeldBy(s', r) == HeldBy(s, r);
    }
    forall q | q in s'.procs && s'.procs[q].stage.Filling() ensures ExclusiveAt(s', q) {
      assert ExclusiveAt(s, q) && HeldBy(s, q) == Some(s.procs[q].stage.page);
    }
    forall q | q in s'.procs ensures StageOk(s', q) { assert StageOk(s, q); }
  }

  lemma KernelAllocKeeps(s: State, f: Frame)
    requires Inv(s) && CanKernelAlloc(s, f)
    ensures Inv(KernelAlloc(s, f))
  {
    FreeUnreferenced(s, f);
    HeldChange(s, KernelAlloc(s, f), f);
  }

  lemma KernelFreeKeeps(s: State, f: Frame)
    requires Inv(s) && CanKernelFree(s, f)
    ensures Inv(KernelFree(s, f))
  {
    HeldChange(s, KernelFree(s, f), f);
  }

  lemma FaultStepKeeps(s: State, t: Step)
    requires Inv(s) && FaultEnabled(s, t)
    ensures Inv(FaultNext(s, t))
  {
    match t
    case DoFaultAlloc(p, addr, write, f) =>
      FaultAllocCore(s, p, addr, write, f);
      FaultAllocStaged(s, p, addr, write, f);
    case DoFaultFill(p) =>
      FaultFillCore(s, p);
      FaultFillStaged(s, p);
    case DoFaultMap(p) =>
      FaultMapCore(s, p);
      FaultMapStaged(s, p);
    case DoFaultFail(p) =>
      FaultFailCore(s, p);
      FaultFailStaged(s, p);
    case DoFaultDrop(p) =>
      FaultDropCore(s, p);
      FaultDropStaged(s, p);
  }

  lemma ForkStepKeeps(s: State, t: Step)
    requires Inv(s) && ForkEnabled(s, t)
    ensures Inv(ForkNext(s, t))
  {
    match t
    case DoForkStart(p, c) =>
      ForkStartCore(s, p, c);
      ForkStartStaged(s, p, c);
    case DoForkRegion(p) =>
      ForkRegionCore(s, p);
      ForkRegionStaged(s, p);
    case DoForkSkip(p) =>
      ForkSkipCore(s, p);
      ForkSkipStaged(s, p);
    case DoForkProtect(p) =>
      ForkProtectCore(s, p);
      ForkProtectStaged(s, p);
    case DoForkCount(p) =>
      ForkCountCore(s, p);
      ForkCountStaged(s, p);
    case DoForkMap(p) =>
      ForkMapCore(s, p);
      ForkMapStaged(s, p);
    case DoForkFail(p) =>
      ForkFailCore(s, p);
      ForkFailStaged(s, p);
    case DoForkDone(p, c) =>
      ForkDoneCore(s, p, c);
      ForkDoneStaged(s, p, c);
  }

  lemma OtherStepKeeps(s: State, t: Step)
    requires Inv(s) && OtherEnabled(s, t)
    ensures Inv(OtherNext(s, t))
  {
    match t
    case DoSpawn(p) =>
      SpawnCore(s, p);
      SpawnStaged(s, p);
    case DoMapRegion(p, r) =>
      MapRegionCore(s, p, r);
      MapRegionStaged(s, p, r);
    case DoStore(p, v, ofs, b) => StoreKeeps(s, p, v, ofs, b);
    case DoExitStart(p) =>
      ExitStartCore(s, p);
      ExitStartStaged(s, p);
    case DoClearDrop(p, v) =>
      ClearDropCore(s, p, v);
      ClearDropStaged(s, p, v);
    case DoClearZero(p) =>
      ClearZeroCore(s, p);
      ClearZeroStaged(s, p);
    case DoExitDone(p) =>
      ExitDoneCore(s, p);
      ExitDoneStaged(s, p);
    case DoKernelAlloc(f) => KernelAllocKeeps(s, f);
    case DoKernelFree(f) => KernelFreeKeeps(s, f);
  }

  /** Every step keeps the invariant. */
  lemma StepKeeps(s: State, t: Step)
    requires Inv(s) && Enabled(s, t)
    ensures Inv(Next(s, t))
  {
    if t.IsFault() { FaultStepKeeps(s, t); }
    else if t.IsFork() { ForkStepKeeps(s, t); }
    else { OtherStepKeeps(s, t); }
  }

  lemma InitialInv(s: State)
    requires Initial(s)
    ensures Inv(s)
  {
    assert forall f :: Maps(s, f) == {} && Pending(s, f) == {};
  }

  /** The invariant holds in every reachable state. */
  lemma {:induction false} RunKeeps(s: State, run: seq<Step>)
    requires Inv(s) && Legal(s, run)
    ensures Inv(Exec(s, run))
    decreases |run|
  {
    if run != [] {
      StepKeeps(s, run[0]);
      RunKeeps(Next(s, run[0]), run[1..]);
    }
  }

  // ---------------------------------------------------------------- refinement

  lemma SameMemory(fs: map<Frame, Page>, table: map<Vpn, Pte>, fs': map<Frame, Page>, table': map<Vpn, Pte>)
    requires forall v :: View(fs', table', v) == View(fs, table, v)
    ensures MemoryOf(fs', table') == MemoryOf(fs, table)
  {
    forall v: Vpn ensures MemoryOf(fs', table')[v] == MemoryOf(fs, table)[v] {
      assert View(fs', table', v) == View(fs, table, v);
    }
  }

  predicate LiveIn(s: State, p: Pid) { p in s.procs && s.procs[p].stage.Live() }

  lemma AbstractIs(s: State, m: map<Pid, Memory>)
    requires forall p :: p in m <==> LiveIn(s, p)
    requires forall p :: p in m && LiveIn(s, p) ==> m[p] == MemoryOf(s.frames, s.procs[p].table)
    ensures Abstract(s) == m
  {
    assert forall p :: p in Abstract(s) <==> LiveIn(s, p);
    assert Abstract(s).Keys == m.Keys by {
      forall p ensures p in Abstract(s).Keys <==> p in m.Keys { assert p in m <==> LiveIn(s, p); }
    }
    forall p | p in m ensures Abstract(s)[p] == m[p] { assert LiveIn(s, p); }
  }

  /** The same observable processes with the same memories. */
  lemma SameAbstract(s: State, s': State)
    requires forall p :: LiveIn(s', p) <==> LiveIn(s, p)
    requires forall p :: LiveIn(s, p) && LiveIn(s', p) ==>
      MemoryOf(s'.frames, s'.procs[p].table) == MemoryOf(s.frames, s.procs[p].table)
    ensures Abstract(s') == Abstract(s)
  {
    assert forall p :: p in Abstract(s) <==> LiveIn(s, p);
    AbstractIs(s', Abstract(s));
  }

  /** The same observable processes, and neither their tables nor any frame changed. */
  lemma QuietStep(s: State, s': State)
    requires s'.frames == s.frames
    requires forall p :: LiveIn(s', p) <==> LiveIn(s, p)
    requires forall p :: LiveIn(s, p) && LiveIn(s', p) ==> s'.procs[p].table == s.procs[p].table
    ensures Abstract(s') == Abstract(s)
  {
    SameAbstract(s, s');
  }

  lemma FaultFillRefines(s: State, p: Pid)
    requires Exclusive(s) && CanFaultFill(s, p)
    ensures Abstract(FaultFill(s, p)) == Abstract(s)
  {
    var s' := FaultFill(s, p);
    assert ExclusiveAt(s, p);
    forall q | LiveIn(s, q) ensures MemoryOf(s'.frames, s'.procs[q].table) == MemoryOf(s.frames, s.procs[q].table) {
      forall v ensures View(s'.frames, s'.procs[q].table, v) == View(s.frames, s.procs[q].table, v) {
        assert v in s.procs[q].table ==> Mapped(s, q, v);
      }
      SameMemory(s.frames, s.procs[q].table, s'.frames, s'.procs[q].table);
    }
    SameAbstract(s, s');
  }

  lemma FaultMapRefines(s: State, p: Pid)
    requires CanFaultMap(s, p) && StageOk(s, p)
    ensures Abstract(FaultMap(s, p)) == Abstract(s)
  {
    var s' := FaultMap(s, p);
    SameMemory(s.frames, s.procs[p].table, s'.frames, s'.procs[p].table);
    SameAbstract(s, s');
  }

  lemma FaultAllocRefines(s: State, p: Pid, addr: nat, write: bool, f: Frame)
    requires CanFaultAlloc(s, p, addr, write, f)
    ensures Abstract(FaultAlloc(s, p, addr, write, f)) == Abstract(s)
  {
    QuietStep(s, FaultAlloc(s, p, addr, write, f));
  }

  lemma FaultDropRefines(s: State, p: Pid)
    requires CanFaultDrop(s, p)
    ensures Abstract(FaultDrop(s, p)) == Abstract(s)
  {
    QuietStep(s, FaultDrop(s, p));
  }

  lemma FaultRefines(s: State, t: Step)
    requires Inv(s) && FaultEnabled(s, t) && !t.DoFaultFail?
    ensures Abstract(FaultNext(s, t)) == EagerNext(Abstract(s), t)
  {
    match t
    case DoFaultAlloc(p, addr, write, f) => FaultAllocRefines(s, p, addr, write, f);
    case DoFaultFill(p) => FaultFillRefines(s, p);
    case DoFaultMap(p) => FaultMapRefines(s, p);
    case DoFaultDrop(p) => FaultDropRefines(s, p);
  }

  lemma ForkProtectRefines(s: State, p: Pid)
    requires CanForkProtect(s, p)
    ensures Abstract(ForkProtect(s, p)) == Abstract(s)
  {
    var s' := ForkProtect(s, p);
    SameMemory(s.frames, s.procs[p].table, s'.frames, s'.procs[p].table);
    SameAbstract(s, s');
  }

  lemma ForkRegionRefines(s: State, p: Pid)
    requires CanForkRegion(s, p) && StageOk(s, p)
    ensures Abstract(ForkRegion(s, p)) == Abstract(s)
  {
    QuietStep(s, ForkRegion(s, p));
  }

  lemma ForkMapRefines(s: State, p: Pid)
    requires CanForkMap(s, p) && StageOk(s, p)
    ensures Abstract(ForkMap(s, p)) == Abstract(s)
  {
    QuietStep(s, ForkMap(s, p));
  }

  lemma ForkFailRefines(s: State, p: Pid)
    requires CanForkFail(s, p) && StageOk(s, p)
    ensures Abstract(ForkFail(s, p)) == Abstract(s)
  {
    QuietStep(s, ForkFail(s, p));
  }

  lemma ForkStartRefines(s: State, p: Pid, c: Pid)
    requires CanForkStart(s, p, c)
    ensures Abstract(ForkStart(s, p, c)) == Abstract(s)
  {
    QuietStep(s, ForkStart(s, p, c));
  }

  lemma ForkSkipRefines(s: State, p: Pid)
    requires CanForkSkip(s, p)
    ensures Abstract(ForkSkip(s, p)) == Abstract(s)
  {
    QuietStep(s, ForkSkip(s, p));
  }

  lemma ForkCountRefines(s: State, p: Pid)
    requires CanForkCount(s, p)
    ensures Abstract(ForkCount(s, p)) == Abstract(s)
  {
    QuietStep(s, ForkCount(s, p));
  }

  lemma ForkRefines(s: State, t: Step)
    requires Inv(s) && ForkEnabled(s, t) && !t.DoForkDone?
    ensures Abstract(ForkNext(s, t)) == EagerNext(Abstract(s), t)
  {
    match t
    case DoForkStart(p, c) => ForkStartRefines(s, p, c);
    case DoForkRegion(p) => ForkRegionRefines(s, p);
    case DoForkSkip(p) => ForkSkipRefines(s, p);
    case DoForkProtect(p) => ForkProtectRefines(s, p);
    case DoForkCount(p) => ForkCountRefines(s, p);
    case DoForkMap(p) => ForkMapRefines(s, p);
    case DoForkFail(p) => ForkFailRefines(s, p);
  }

  predicate QuietOther(t: Step) {
    t.DoMapRegion? || t.DoClearDrop? || t.DoClearZero? || t.DoExitDone? || t.DoKernelAlloc? || t.DoKernelFree?
  }

  lemma OtherRefines(s: State, t: Step)
    requires OtherEnabled(s, t) && QuietOther(t)
    ensures Abstract(OtherNext(s, t)) == EagerNext(Abstract(s), t)
  {
    match t
    case DoMapRegion(p, r) => QuietStep(s, MapRegion(s, p, r));
    case DoClearDrop(p, v) => QuietStep(s, ClearDrop(s, p, v));
    case DoClearZero(p) => QuietStep(s, ClearZero(s, p));
    case DoExitDone(p) => QuietStep(s, ExitDone(s, p));
    case DoKernelAlloc(f) => QuietStep(s, KernelAlloc(s, f));
    case DoKernelFree(f) => QuietStep(s, KernelFree(s, f));
  }

  /** The memory of process q after a store by process p. */
  lemma StoreView(s: State, p: Pid, v: Vpn, ofs: nat, b: Byte, q: Pid)
    requires Sole(s) && CanStore(s, p, v, ofs) && LiveIn(s, q)
    ensures MemoryOf(Store(s, p, v, ofs, b).frames, s.procs[q].table) ==
      var m := MemoryOf(s.frames, s.procs[q].table); if q == p then StoreByte(m, v, ofs, b) else m
  {
    var s' := Store(s, p, v, ofs, b);
    assert Mapped(s, p, v);
    forall w: Vpn
      ensures View(s'.frames, s.procs[q].table, w) ==
        if q == p && w == v then PutByte(View(s.frames, s.procs[p].table, v), ofs, b)
        else View(s.frames, s.procs[q].table, w)
    {
      assert w in s.procs[q].table ==> Mapped(s, q, w);
    }
  }

  lemma EagerStore(m: map<Pid, Memory>, p: Pid, v: Vpn, ofs: nat, b: Byte)
    requires p in m && ofs < PG_SIZE
    ensures EagerNext(m, DoStore(p, v, ofs, b)) == m[p := StoreByte(m[p], v, ofs, b)]
  {
  }

  /** The same observable processes, and only the memory of p changed. */
  lemma OneMemory(s: State, s': State, p: Pid, mem: Memory)
    requires LiveIn(s, p) && forall q :: LiveIn(s', q) <==> LiveIn(s, q)
    requires forall q :: LiveIn(s', q) && LiveIn(s, q) ==>
      MemoryOf(s'.frames, s'.procs[q].table) == if q == p then mem else MemoryOf(s.frames, s.procs[q].table)
    ensures p in Abstract(s) && Abstract(s') == Abstract(s)[p := mem]
  {
    assert forall q :: q in Abstract(s) <==> LiveIn(s, q);
    AbstractIs(s', Abstract(s)[p := mem]);
  }

  lemma StoredMemories(s: State, p: Pid, v: Vpn, ofs: nat, b: Byte)
    requires Sole(s) && CanStore(s, p, v, ofs)
    ensures p in Abstract(s) && Abstract(s)[p] == MemoryOf(s.frames, s.procs[p].table)
    ensures Abstract(Store(s, p, v, ofs, b)) == Abstract(s)[p := StoreByte(Abstract(s)[p], v, ofs, b)]
  {
    hide MemoryOf;
    hide StoreByte;
    var s' := Store(s, p, v, ofs, b);
    assert LiveIn(s, p) && forall q :: LiveIn(s', q) <==> LiveIn(s, q);
    forall q | LiveIn(s, q)
      ensures MemoryOf(s'.frames, s'.procs[q].table) ==
        var m := MemoryOf(s.frames, s.procs[q].table); if q == p then StoreByte(m, v, ofs, b) else m
    {
      StoreView(s, p, v, ofs, b, q);
    }
    OneMemory(s, s', p, StoreByte(MemoryOf(s.frames, s.procs[p].table), v, ofs, b));
  }

  lemma StoreRefines(s: State, p: Pid, v: Vpn, ofs: nat, b: Byte)
    requires Sole(s) && CanStore(s, p, v, ofs)
    ensures Abstract(Store(s, p, v, ofs, b)) == EagerNext(Abstract(s), DoStore(p, v, ofs, b))
  {
    hide Abstract;
    hide EagerNext;
    StoredMemories(s, p, v, ofs, b);
    EagerStore(Abstract(s), p, v, ofs, b);
  }

  lemma ForkedTable(s: State, p: Pid, c: Pid)
    requires CanForkDone(s, p, c) && StageOk(s, p)
    ensures s.procs[c].table == s.procs[p].table && !LiveIn(s, c) && c != p
  {
    var x, y := s.procs[p], s.procs[c];
    assert ForkOk(p, x, y);
    forall v ensures v in x.table.Keys <==> v in y.table.Keys { assert CopyPage(v) !in x.stage.todo; }
    assert y.table.Keys == x.table.Keys;
    forall v | v in y.table ensures y.table[v] == x.table[v] { }
  }

  lemma EagerFork(m: map<Pid, Memory>, p: Pid, c: Pid)
    requires p in m
    ensures EagerNext(m, DoForkDone(p, c)) == m[c := m[p]]
  {
  }

  lemma ForkedMemories(s: State, s': State, p: Pid, c: Pid)
    requires LiveIn(s, p) && c in s.procs && s'.frames == s.frames && s.procs[c].table == s.procs[p].table
    requires forall q :: LiveIn(s', q) <==> LiveIn(s, q) || q == c
    requires forall q :: LiveIn(s', q) ==> q in s.procs && s'.procs[q].table == s.procs[q].table
    ensures p in Abstract(s) && Abstract(s') == Abstract(s)[c := Abstract(s)[p]]
  {
    assert forall q :: q in Abstract(s) <==> LiveIn(s, q);
    AbstractIs(s', Abstract(s)[c := Abstract(s)[p]]);
  }

  lemma ForkDoneRefines(s: State, p: Pid, c: Pid)
    requires CanForkDone(s, p, c) && StageOk(s, p)
    ensures Abstract(ForkDone(s, p, c)) == EagerNext(Abstract(s), DoForkDone(p, c))
  {
    ForkedTable(s, p, c);
    ForkedMemories(s, ForkDone(s, p, c), p, c);
    hide Abstract;
    hide EagerNext;
    EagerFork(Abstract(s), p, c);
  }

  lemma SpawnRefines(s: State, p: Pid)
    requires CanSpawn(s, p)
    ensures Abstract(Spawn(s, p)) == EagerNext(Abstract(s), DoSpawn(p))
  {
    SpawnedMemories(s, p);
  }

  lemma EagerEnd(m: map<Pid, Memory>, p: Pid)
    ensures EagerNext(m, DoExitStart(p)) == EagerNext(m, DoFaultFail(p)) == Minus(m, p)
  {
  }

  /** Process p can be observed no more. */
  lemma EndedMemories(s: State, s': State, p: Pid)
    requires s'.frames == s.frames
    requires forall q :: LiveIn(s', q) <==> LiveIn(s, q) && q != p
    requires forall q :: LiveIn(s', q) ==> q in s.procs && s'.procs[q].table == s.procs[q].table
    ensures Abstract(s') == Minus(Abstract(s), p)
  {
    assert forall q :: q in Abstract(s) <==> LiveIn(s, q);
    AbstractIs(s', Minus(Abstract(s), p));
  }

  lemma ExitStartRefines(s: State, p: Pid)
    requires CanExitStart(s, p)
    ensures Abstract(ExitStart(s, p)) == EagerNext(Abstract(s), DoExitStart(p))
  {
    hide Abstract;
    hide EagerNext;
    EagerEnd(Abstract(s), p);
    EndedMemories(s, ExitStart(s, p), p);
  }

  lemma FaultFailRefines(s: State, p: Pid)
    requires CanFaultFail(s, p)
    ensures Abstract(FaultFail(s, p)) == EagerNext(Abstract(s), DoFaultFail(p))
  {
    hide Abstract;
    hide EagerNext;
    EagerEnd(Abstract(s), p);
    EndedMemories(s, FaultFail(s, p), p);
  }

  lemma SpawnedMemories(s: State, p: Pid)
    requires CanSpawn(s, p)
    ensures Abstract(Spawn(s, p)) == Abstract(s)[p := MemoryOf(map[], map[])]
  {
    assert forall q :: q in Abstract(s) <==> LiveIn(s, q);
    SameMemory(s.frames, map[], map[], map[]);
    AbstractIs(Spawn(s, p), Abstract(s)[p := MemoryOf(map[], map[])]);
  }

  lemma SeenRefines(s: State, t: Step)
    requires Inv(s) && OtherEnabled(s, t) && !QuietOther(t)
    ensures Abstract(OtherNext(s, t)) == EagerNext(Abstract(s), t)
  {
    hide Abstract;
    hide EagerNext;
    match t
    case DoStore(p, v, ofs, b) => StoreRefines(s, p, v, ofs, b);
    case DoSpawn(p) => SpawnRefines(s, p);
    case DoExitStart(p) => ExitStartRefines(s, p);
  }

  lemma EndsRefine(s: State, t: Step)
    requires Inv(s) && Enabled(s, t) && (t.DoFaultFail? || t.DoForkDone?)
    ensures Abstract(Next(s, t)) == EagerNext(Abstract(s), t)
  {
    hide Abstract;
    hide EagerNext;
    if t.DoFaultFail? {
      FaultFailRefines(s, t.p);
    } else {
      assert StageOk(s, t.p);
      ForkDoneRefines(s, t.p, t.c);
    }
  }

  /** Every step of the machine is one step of the eager machine. */
  lemma StepRefines(s: State, t: Step)
    requires Inv(s) && Enabled(s, t)
    ensures Abstract(Next(s, t)) == EagerNext(Abstract(s), t)
  {
    hide Abstract;
    hide EagerNext;
    hide Inv;
    if t.DoFaultFail? || t.DoForkDone? { EndsRefine(s, t); }
    else if t.IsFault() { FaultRefines(s, t); }
    else if t.IsFork() { ForkRefines(s, t); }
    else if QuietOther(t) { OtherRefines(s, t); }
    else { SeenRefines(s, t); }
  }

  /**
  Isolation. Whatever the interleaving, the memories the processes observe are those of a
  machine in which every process owns its memory and fork copies all of it.
   */
  lemma {:induction false} Isolation(s: State, run: seq<Step>)
    requires Inv(s) && Legal(s, run)
    ensures Abstract(Exec(s, run)) == EagerExec(Abstract(s), run)
    decreases |run|
  {
    if run != [] {
      StepRefines(s, run[0]);
      StepKeeps(s, run[0]);
      Isolation(Next(s, run[0]), run[1..]);
    }
  }
}
