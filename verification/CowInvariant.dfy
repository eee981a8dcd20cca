/**
The invariant of the copy-on-write machine, and how a change of one page table entry,
one process and the counters preserves it.
 */
module CowInvariant {
  import opened Common
  import opened Regions
  import opened CowModel

  // ---------------------------------------------------------------- invariant

  /** The table has an entry for the page, and the entry counts as a reference to its frame. */
  predicate Mapped(s: State, p: Pid, v: Vpn) {
    p in s.procs && v in s.procs[p].table && !s.procs[p].stage.Stale(v)
  }

  function Entry(s: State, p: Pid, v: Vpn): Pte
    requires Mapped(s, p, v)
  {
    s.procs[p].table[v]
  }

  ghost function Maps(s: State, f: Frame): set<(Pid, Vpn)> {
    set p, v | p in s.procs && v in s.procs[p].table && !s.procs[p].stage.Stale(v) && s.procs[p].table[v].frame == f
      :: (p, v)
  }

  ghost function Pending(s: State, f: Frame): set<Pid> {
    set p | p in s.procs && s.procs[p].stage.Holds() == Some(f)
  }

  /** Every reference count is the number of mappings, plus the references held by
      processes inside the kernel, plus the references outside user mappings. */
  ghost predicate Counted(s: State) {
    forall f :: f in s.refcnt ==> s.refcnt[f] == |Maps(s, f)| + |Pending(s, f)| + s.held[f]
  }

  ghost predicate Typed(s: State) {
    && s.frames.Keys == s.refcnt.Keys
    && (forall p, v :: Mapped(s, p, v) ==> Entry(s, p, v).frame in s.refcnt)
    && (forall p :: p in s.procs && s.procs[p].stage.Holds().Some? ==> s.procs[p].stage.Holds().value in s.refcnt)
    && (forall f :: f in s.held ==> f in s.refcnt)
  }

  /** A frame mapped writable anywhere is mapped nowhere else. */
  ghost predicate Sole(s: State) {
    forall p, v, q, w ::
      Mapped(s, p, v) && Mapped(s, q, w) && Entry(s, p, v).frame == Entry(s, q, w).frame && Entry(s, p, v).writable
      ==> p == q && v == w
  }

  /** A frame mapped writable is referred to by that entry alone. */
  ghost predicate Alone(s: State) {
    forall p, v :: Mapped(s, p, v) && Entry(s, p, v).writable ==>
      (forall q :: HeldBy(s, q) != Some(Entry(s, p, v).frame)) && Entry(s, p, v).frame !in s.held
  }

  /** A frame being filled by a fault is referred to by that fault alone. */
  ghost predicate ExclusiveAt(s: State, p: Pid)
    requires p in s.procs && s.procs[p].stage.Filling()
  {
    && (forall q, w :: Mapped(s, q, w) ==> Entry(s, q, w).frame != s.procs[p].stage.page)
    && (forall q :: q in s.procs && q != p ==> s.procs[q].stage.Holds() != Some(s.procs[p].stage.page))
    && s.procs[p].stage.page !in s.held
  }

  ghost predicate Exclusive(s: State) {
    forall p :: p in s.procs && s.procs[p].stage.Filling() ==> ExclusiveAt(s, p)
  }

  /** Some region of the list has the page, and allows writing if that is asked for. */
  ghost predicate InRegion(rs: seq<Region>, v: Vpn, write: bool) {
    exists r :: r in rs && r.HasPage(v) && (write ==> r.perm.Writable())
  }

  /** Mapped pages lie in regions, and pages mapped writable in writable regions. */
  ghost predicate Placed(x: Proc) {
    && (forall r :: r in x.regions ==> r.Fits())
    && (x.stage.Live() ==> forall v :: v in x.table ==> InRegion(x.regions, v, x.table[v].writable))
    && (x.stage.Filling() ==> InRegion(x.regions, x.stage.vpn, x.stage.writable))
  }

  /** What the child y of a fork has so far: a share of every page already passed. */
  ghost predicate ForkOk(p: Pid, x: Proc, y: Proc)
    requires x.stage.Copying()
  {
    && y.stage == Embryo(p)
    && (forall v :: v in y.table ==> v in x.table && x.table[v] == y.table[v] && !y.table[v].writable)
    && (forall v :: v in x.table && CopyPage(v) !in x.stage.todo ==> v in y.table)
    && (forall r :: r in x.regions ==> r in y.regions || CopyRegion(r) in x.stage.todo)
    && (forall r :: CopyRegion(r) in x.stage.todo ==> r in x.regions)
  }

  ghost predicate StageOk(s: State, p: Pid)
    requires p in s.procs
  {
    var x := s.procs[p];
    && Placed(x)
    && (x.stage.Filling() && x.stage.vpn in x.table ==> !x.table[x.stage.vpn].writable)
    && (x.stage.Filled? ==> x.stage.page in s.frames && s.frames[x.stage.page] == View(s.frames, x.table, x.stage.vpn))
    && (x.stage.Copying() ==> x.stage.child in s.procs && ForkOk(p, x, s.procs[x.stage.child]))
    && (x.stage.Protected? || x.stage.Sharing? ==>
         x.stage.AtPage() && x.stage.todo[0].vpn in x.table && !x.table[x.stage.todo[0].vpn].writable)
    && (x.stage.Sharing? ==> x.table[x.stage.todo[0].vpn].frame == x.stage.shared)
    && (x.stage.Dying() && x.stage.stale.Some? ==> x.stage.stale.value in x.table)
  }

  ghost predicate Staged(s: State) { forall p :: p in s.procs ==> StageOk(s, p) }

  ghost predicate Core(s: State) { Counted(s) && Typed(s) && Sole(s) && Alone(s) && Exclusive(s) }

  ghost predicate Inv(s: State) {
    Core(s) && Staged(s)
  }

  // ---------------------------------------------------------------- counting

  lemma SizeAround<T>(a: set<T>, b: set<T>, k: T)
    requires a - {k} == b - {k}
    ensures |b| == |a| - (if k in a then 1 else 0) + (if k in b then 1 else 0)
  {
    assert k in a ==> a == (a - {k}) + {k};
    assert k in b ==> b == (b - {k}) + {k};
    assert k !in a ==> a == a - {k};
    assert k !in b ==> b == b - {k};
  }

  ghost function FrameAt(s: State, p: Pid, v: Vpn): Option<Frame> {
    if Mapped(s, p, v) then Some(Entry(s, p, v).frame) else None
  }

  ghost function HeldBy(s: State, p: Pid): Option<Frame> {
    if p in s.procs then s.procs[p].stage.Holds() else None
  }

  function One(o: Option<Frame>, f: Frame): nat { if o == Some(f) then 1 else 0 }

  lemma InMaps(s: State, f: Frame, p: Pid, v: Vpn)
    ensures (p, v) in Maps(s, f) <==> FrameAt(s, p, v) == Some(f)
  {
  }

  lemma MapsCount(s: State, s': State, p: Pid, v: Vpn, f: Frame)
    requires forall q, w :: q != p || w != v ==> FrameAt(s', q, w) == FrameAt(s, q, w)
    ensures |Maps(s', f)| + One(FrameAt(s, p, v), f) == |Maps(s, f)| + One(FrameAt(s', p, v), f)
  {
    var a, b := Maps(s, f), Maps(s', f);
    forall k: (Pid, Vpn) ensures k in a - {(p, v)} <==> k in b - {(p, v)} {
      InMaps(s, f, k.0, k.1);
      InMaps(s', f, k.0, k.1);
    }
    InMaps(s, f, p, v);
    InMaps(s', f, p, v);
    SizeAround(a, b, (p, v));
  }

  lemma PendingCount(s: State, s': State, p: Pid, f: Frame)
    requires forall q :: q != p ==> HeldBy(s', q) == HeldBy(s, q)
    ensures |Pending(s', f)| + One(HeldBy(s, p), f) == |Pending(s, f)| + One(HeldBy(s', p), f)
  {
    var a, b := Pending(s, f), Pending(s', f);
    forall q ensures q in a - {p} <==> q in b - {p} {
      assert (q in a <==> HeldBy(s, q) == Some(f)) && (q in b <==> HeldBy(s', q) == Some(f));
    }
    SizeAround(a, b, p);
  }

  /** Counts stay exact when a change of one entry and one process is matched by the counters. */
  lemma Recount(s: State, s': State, p: Pid, v: Vpn, h: Pid)
    requires Counted(s) && s'.refcnt.Keys == s.refcnt.Keys
    requires forall q, w :: q != p || w != v ==> FrameAt(s', q, w) == FrameAt(s, q, w)
    requires forall q :: q != h ==> HeldBy(s', q) == HeldBy(s, q)
    requires Balanced(s, s', p, v, h)
    ensures Counted(s')
  {
    forall f | f in s'.refcnt
      ensures s'.refcnt[f] == |Maps(s', f)| + |Pending(s', f)| + s'.held[f]
    {
      MapsCount(s, s', p, v, f);
      PendingCount(s, s', h, f);
    }
  }

  // ---------------------------------------------------------------- frames

  /** Page tables differ at most in one entry. */
  ghost predicate SameElsewhere(s: State, s': State, p: Pid, v: Vpn) {
    forall q, w :: q != p || w != v ==>
      (Mapped(s', q, w) <==> Mapped(s, q, w)) && (Mapped(s', q, w) ==> Entry(s', q, w) == Entry(s, q, w))
  }

  /** A frame that process h may come to map or hold: mapped already, held by h, or free. */
  ghost predicate Obtainable(s: State, h: Pid, f: Frame) {
    || (exists q, w :: Mapped(s, q, w) && Entry(s, q, w).frame == f)
    || HeldBy(s, h) == Some(f)
    || s.Free(f)
  }

  lemma FreeUnreferenced(s: State, f: Frame)
    requires Counted(s) && s.Free(f)
    ensures forall q, w :: Mapped(s, q, w) ==> Entry(s, q, w).frame != f
    ensures forall q :: HeldBy(s, q) != Some(f)
    ensures f !in s.held
  {
    assert Maps(s, f) == {} && Pending(s, f) == {};
    forall q, w | Mapped(s, q, w) ensures Entry(s, q, w).frame != f { InMaps(s, f, q, w); }
    forall q ensures HeldBy(s, q) != Some(f) { assert q !in Pending(s, f); }
  }

  /** Frames move between entries, processes in the kernel and `held` as the counters say. */
  ghost predicate Balanced(s: State, s': State, p: Pid, v: Vpn, h: Pid)
    requires s'.refcnt.Keys == s.refcnt.Keys
  {
    forall f :: f in s.refcnt ==>
      s'.refcnt[f] + One(FrameAt(s, p, v), f) + One(HeldBy(s, h), f) + s.held[f] ==
        s.refcnt[f] + One(FrameAt(s', p, v), f) + One(HeldBy(s', h), f) + s'.held[f]
  }

  /** One entry, one process and the counters change, and no frame appears from nowhere. */
  ghost predicate Change(s: State, s': State, p: Pid, v: Vpn, h: Pid) {
    && s'.refcnt.Keys == s.refcnt.Keys == s'.frames.Keys
    && SameElsewhere(s, s', p, v)
    && Balanced(s, s', p, v, h)
    && OthersHold(s, s', h)
    && (Mapped(s', p, v) ==> Entry(s', p, v).frame in s.refcnt && Obtainable(s, h, Entry(s', p, v).frame))
    && (HeldBy(s', h).Some? ==> HeldBy(s', h).value in s.refcnt && Obtainable(s, h, HeldBy(s', h).value))
    && (forall f :: f in s'.held ==> f in s.refcnt && (f in s.held || HeldBy(s, h) == Some(f) || s.Free(f)))
  }

  /** A writable new entry has its frame to itself, and a shared one is read-only throughout. */
  ghost predicate Unshared(s: State, s': State, p: Pid, v: Vpn) {
    Mapped(s', p, v) ==>
      forall q, w :: (q != p || w != v) && Mapped(s, q, w) && Entry(s, q, w).frame == Entry(s', p, v).frame
        ==> !Entry(s, q, w).writable && !Entry(s', p, v).writable
  }

  /** A frame that is being filled after the change was free, or being filled, before. */
  ghost predicate Fillable(s: State, s': State, p: Pid, v: Vpn, h: Pid) {
    h in s'.procs && s'.procs[h].stage.Filling() ==>
      && s'.held == s.held && FrameAt(s', p, v) == FrameAt(s, p, v)
      && (|| s.Free(s'.procs[h].stage.page)
          || (h in s.procs && s.procs[h].stage.Filling() && s.procs[h].stage.page == s'.procs[h].stage.page))
  }

  /** A frame newly held was free or is given up by the entry; a frame newly writable was being filled. */
  ghost predicate Handed(s: State, s': State, p: Pid, v: Vpn, h: Pid) {
    && (HeldBy(s', h).Some? ==>
         || HeldBy(s', h) == HeldBy(s, h)
         || s.Free(HeldBy(s', h).value)
         || (FrameAt(s, p, v) == HeldBy(s', h) &&
             (Mapped(s', p, v) && Entry(s', p, v).writable ==> FrameAt(s', p, v) != HeldBy(s', h))))
    && (Mapped(s', p, v) && Entry(s', p, v).writable ==>
         || (Mapped(s, p, v) && Entry(s, p, v) == Entry(s', p, v))
         || (&& h in s.procs && s.procs[h].stage.Filling() && FrameAt(s', p, v) == HeldBy(s, h)
             && HeldBy(s', h) != HeldBy(s, h) && s'.held == s.held))
  }

  lemma ChangeAlone(s: State, s': State, p: Pid, v: Vpn, h: Pid)
    requires Core(s) && Change(s, s', p, v, h) && Handed(s, s', p, v, h)
    ensures Alone(s')
  {
    forall q, w | Mapped(s', q, w) && Entry(s', q, w).writable
      ensures forall r :: HeldBy(s', r) != Some(Entry(s', q, w).frame)
      ensures Entry(s', q, w).frame !in s'.held
    {
      var f := Entry(s', q, w).frame;
      if s.Free(f) { FreeUnreferenced(s, f); }
      if h in s.procs && s.procs[h].stage.Filling() { assert ExclusiveAt(s, h); }
      if q != p || w != v { assert Mapped(s, q, w) && Entry(s, q, w) == Entry(s', q, w); }
      if FrameAt(s, p, v) == Some(f) { assert Mapped(s, p, v); }
      forall r ensures HeldBy(s', r) != Some(f) {
        assert r != h ==> HeldBy(s', r) == HeldBy(s, r);
      }
    }
  }

  lemma ChangeSole(s: State, s': State, p: Pid, v: Vpn)
    requires Sole(s) && SameElsewhere(s, s', p, v) && Unshared(s, s', p, v)
    ensures Sole(s')
  {
  }

  lemma ChangeCounted(s: State, s': State, p: Pid, v: Vpn, h: Pid)
    requires Counted(s) && Change(s, s', p, v, h)
    ensures Counted(s')
  {
    Recount(s, s', p, v, h);
  }

  lemma ChangeTyped(s: State, s': State, p: Pid, v: Vpn, h: Pid)
    requires Typed(s) && Change(s, s', p, v, h)
    ensures Typed(s')
  {
    forall q | q in s'.procs && s'.procs[q].stage.Holds().Some?
      ensures s'.procs[q].stage.Holds().value in s'.refcnt
    {
      assert q != h ==> HeldBy(s', q) == HeldBy(s, q);
    }
  }

  lemma StillExclusive(s: State, s': State, p: Pid, v: Vpn, h: Pid, q: Pid)
    requires Counted(s) && Exclusive(s) && Change(s, s', p, v, h) && Fillable(s, s', p, v, h)
    requires q in s'.procs && s'.procs[q].stage.Filling()
    ensures ExclusiveAt(s', q)
  {
    var f := s'.procs[q].stage.page;
    if s.Free(f) { FreeUnreferenced(s, f); }
    if q != h { assert HeldBy(s, q) == Some(f) && ExclusiveAt(s, q); assert !Obtainable(s, h, f); }
    forall r | r in s'.procs && r != q ensures s'.procs[r].stage.Holds() != Some(f) {
      assert r != h ==> HeldBy(s', r) == HeldBy(s, r);
    }
    assert FrameAt(s, p, v) != Some(f);
  }

  lemma ChangeExclusive(s: State, s': State, p: Pid, v: Vpn, h: Pid)
    requires Counted(s) && Exclusive(s) && Change(s, s', p, v, h) && Fillable(s, s', p, v, h)
    ensures Exclusive(s')
  {
    forall q | q in s'.procs && s'.procs[q].stage.Filling() ensures ExclusiveAt(s', q)
    {
      StillExclusive(s, s', p, v, h, q);
    }
  }

  /** The part of the invariant about frames survives such a change. */
  lemma CoreChange(s: State, s': State, p: Pid, v: Vpn, h: Pid)
    requires Core(s) && Change(s, s', p, v, h)
    requires Unshared(s, s', p, v) && Handed(s, s', p, v, h) && Fillable(s, s', p, v, h)
    ensures Core(s')
  {
    ChangeCounted(s, s', p, v, h);
    ChangeSole(s, s', p, v);
    ChangeAlone(s, s', p, v, h);
    ChangeTyped(s, s', p, v, h);
    ChangeExclusive(s, s', p, v, h);
  }

  ghost predicate SameTables(s: State, s': State) {
    forall q, w :: (Mapped(s', q, w) <==> Mapped(s, q, w)) && (Mapped(s', q, w) ==> Entry(s', q, w) == Entry(s, q, w))
  }

  /** The same for a change of one process and the counters that leaves all page tables alone. */
  lemma TablesKept(s: State, s': State, h: Pid)
    requires Core(s) && SameTables(s, s') && s'.refcnt.Keys == s.refcnt.Keys == s'.frames.Keys
    requires forall f :: f in s.refcnt ==>
      s'.refcnt[f] + One(HeldBy(s, h), f) + s.held[f] == s.refcnt[f] + One(HeldBy(s', h), f) + s'.held[f]
    requires OthersHold(s, s', h)
    requires HeldBy(s', h).Some? ==> HeldBy(s', h) == HeldBy(s, h) || s.Free(HeldBy(s', h).value)
    requires forall f :: f in s'.held ==> f in s.held || HeldBy(s, h) == Some(f) || s.Free(f)
    requires Fillable(s, s', h, 0, h)
    ensures Core(s')
  {
    assert FrameAt(s', h, 0) == FrameAt(s, h, 0);
    assert Unshared(s, s', h, 0);
    CoreChange(s, s', h, 0, h);
  }

  // ---------------------------------------------------------------- changes of one or two processes

  /** The process has the same counted entry for the page, or none. */
  predicate AgreeAt(x: Proc, x': Proc, w: Vpn) {
    && (w in x'.table <==> w in x.table) && (w in x.table ==> x'.table[w] == x.table[w])
    && (x'.stage.Stale(w) <==> x.stage.Stale(w))
  }

  ghost predicate Agree(x: Proc, x': Proc) { forall w {:trigger AgreeAt(x, x', w)} :: AgreeAt(x, x', w) }

  /** Processes other than h hold what they held. */
  ghost predicate OthersHold(s: State, s': State, h: Pid) {
    && (forall q :: q != h ==> HeldBy(s', q) == HeldBy(s, q))
    && (forall q :: q != h && q in s'.procs && s'.procs[q].stage.Filling() ==>
         q in s.procs && s.procs[q].stage == s'.procs[q].stage)
  }

  /** Only process p changes, and of its table only page v. */
  lemma OneProc(s: State, s': State, p: Pid, v: Vpn)
    requires p in s.procs && p in s'.procs && s'.procs == s.procs[p := s'.procs[p]]
    requires forall w {:trigger AgreeAt(s.procs[p], s'.procs[p], w)} :: w != v ==> AgreeAt(s.procs[p], s'.procs[p], w)
    ensures SameElsewhere(s, s', p, v) && OthersHold(s, s', p)
  {
    forall q, w | q != p || w != v
      ensures (Mapped(s', q, w) <==> Mapped(s, q, w)) && (Mapped(s', q, w) ==> Entry(s', q, w) == Entry(s, q, w))
    {
      if q == p { assert AgreeAt(s.procs[p], s'.procs[p], w); }
    }
  }

  /** Process p and its child change, but not their tables. */
  lemma TwoProcs(s: State, s': State, p: Pid, c: Pid)
    requires p in s.procs && p in s'.procs && c in s'.procs && p != c
    requires s'.procs == s.procs[c := s'.procs[c]][p := s'.procs[p]]
    requires Agree(s.procs[p], s'.procs[p])
    requires if c in s.procs then Agree(s.procs[c], s'.procs[c]) else s'.procs[c].table == map[]
    requires HeldBy(s, c) == HeldBy(s', c) && !s'.procs[c].stage.Filling()
    ensures SameTables(s, s') && OthersHold(s, s', p)
  {
    forall q, w
      ensures (Mapped(s', q, w) <==> Mapped(s, q, w)) && (Mapped(s', q, w) ==> Entry(s', q, w) == Entry(s, q, w))
    {
      if q == p { assert AgreeAt(s.procs[p], s'.procs[p], w); }
      if q == c && c in s.procs { assert AgreeAt(s.procs[c], s'.procs[c], w); }
    }
  }

  // ---------------------------------------------------------------- stages

  /** What a process has copied into its new frame is not disturbed. */
  ghost predicate FillKept(s: State, s': State, x: Proc) {
    x.stage.Filled? && x.stage.page in s.frames ==>
      && x.stage.page in s'.frames && s'.frames[x.stage.page] == s.frames[x.stage.page]
      && View(s'.frames, x.table, x.stage.vpn) == View(s.frames, x.table, x.stage.vpn)
  }

  /** Only processes p and c change; c is p itself, or the child p is making. */
  ghost predicate Local(s: State, s': State, p: Pid, c: Pid) {
    && (forall q :: q != p && q != c ==>
         (q in s'.procs <==> q in s.procs) && (q in s.procs ==> s'.procs[q] == s.procs[q]))
    && (p in s.procs ==> !s.procs[p].stage.Embryo?)
    && (c != p && c in s.procs ==> s.procs[c].stage == Embryo(p))
    && (forall q :: q != p && q in s.procs ==> FillKept(s, s', s.procs[q]))
  }

  /** The stage invariant of the processes a step does not change comes for free. */
  lemma StagedAround(s: State, s': State, p: Pid, c: Pid)
    requires Staged(s) && Local(s, s', p, c)
    requires p in s'.procs ==> StageOk(s', p)
    requires c in s'.procs ==> StageOk(s', c)
    ensures Staged(s')
  {
    forall q | q in s'.procs ensures StageOk(s', q) {
      if q != p && q != c {
        assert StageOk(s, q);
      }
    }
  }
}
