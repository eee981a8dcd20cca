/**
Copy-on-write address spaces as a system of atomic steps.

Every kernel path that touches user mappings (`handle_page_fault`, `as_copy_as`,
`vpmap_cow_copy`, `vpmap_destroy`) is cut at the points where another processor can
run: allocating a frame, filling it, writing one page table entry, changing one
reference count. A run is any sequence of enabled steps, so it covers every
interleaving of those paths over any number of processes.

`refcnt` is the reference count of `struct page`; a frame is free exactly when its
count is 0. A page table is the flat map that module PageTable shows the four-level
structure to be.
 */
module CowModel {
  import opened Common
  import opened Regions

  type Pid = int
  type Frame = int
  type Byte = b: int | 0 <= b < 256
  type Page = p: seq<Byte> | |p| == PG_SIZE witness seq(PG_SIZE, _ => 0)

  function ZeroPage(): Page { seq(PG_SIZE, _ => 0) }

  function PutByte(page: Page, ofs: nat, b: Byte): Page
    requires ofs < PG_SIZE
  {
    page[ofs := b]
  }

  function Minus<K, V>(m: map<K, V>, k: K): map<K, V> { m - {k} }

  // ---------------------------------------------------------------- state

  /** A present user entry; an entry that is not present is not in the table. */
  datatype Pte = Pte(frame: Frame, writable: bool)

  /** One unit of the work of `as_copy_as`. */
  datatype Work = CopyRegion(region: Region) | CopyPage(vpn: Vpn)

  /** Where a process is inside the kernel, named by the last statement completed. */
  datatype Stage =
    | User                                                  // in user mode
    | Allocated(vpn: Vpn, page: Frame, writable: bool)      // pgfault.c:31 or :62
    | Filled(vpn: Vpn, page: Frame, writable: bool)         // pgfault.c:35 or :65
    | Remapped(dropped: Frame)                              // pgfault.c:40
    | Forking(child: Pid, todo: seq<Work>)                  // inside as_copy_as
    | Protected(child: Pid, todo: seq<Work>)                // vpmap.c:380, todo[0] in progress
    | Sharing(child: Pid, todo: seq<Work>, shared: Frame)   // vpmap.c:383, todo[0] in progress
    | Embryo(parent: Pid)                                   // child of a fork in progress
    | Exiting(stale: Option<Vpn>)                           // inside vpmap_destroy
    | Stillborn(stale: Option<Vpn>)                         // child of a failed fork
  {
    /** A process whose entries are being cleared. */
    predicate Dying() { Exiting? || Stillborn? }

    /** The entry of this page is still in the table, but its frame's count is already
        dropped: between vpmap.c:107 and :110. */
    predicate Stale(v: Vpn) { Dying() && stale == Some(v) }

    /** A process whose memory some user program can still observe. */
    predicate Live() { !Embryo? && !Dying() }

    /** The frame a process in the kernel holds a reference to without mapping it. */
    function Holds(): Option<Frame> {
      match this
      case Allocated(_, f, _) => Some(f)
      case Filled(_, f, _) => Some(f)
      case Remapped(f) => Some(f)
      case Sharing(_, _, f) => Some(f)
      case _ => None
    }

    /** A fault has a frame for the page that is not mapped yet. */
    predicate Filling() { Allocated? || Filled? }

    /** A fork is in progress, with `todo` still ahead of it. */
    predicate Copying() { Forking? || Protected? || Sharing? }

    predicate AtPage() { Copying() && todo != [] && todo[0].CopyPage? }
  }

  /** A process: where it is, its regions, its page table. */
  datatype Proc = Proc(stage: Stage, regions: seq<Region>, table: map<Vpn, Pte>)

  /**
  `held` counts the references that no user mapping accounts for: frames the kernel
  keeps for itself, and references lost by the failure paths.
   */
  datatype State = State(
    frames: map<Frame, Page>,
    refcnt: map<Frame, int>,
    procs: map<Pid, Proc>,
    held: multiset<Frame>)
  {
    predicate Free(f: Frame) { f in refcnt && refcnt[f] == 0 }

    predicate Counts(f: Frame) { f in refcnt && refcnt[f] > 0 }

    function SetCount(f: Frame, n: int): State { this.(refcnt := refcnt[f := n]) }

    function Set(p: Pid, x: Proc): State { this.(procs := procs[p := x]) }
  }

  /** What a process reads on a page: its frame, or zeros where nothing is mapped yet. */
  function View(frames: map<Frame, Page>, table: map<Vpn, Pte>, v: Vpn): Page {
    if v in table && table[v].frame in frames then frames[table[v].frame] else ZeroPage()
  }

  // ---------------------------------------------------------------- the work of a fork

  /** The pages of a region from the i-th on, in the order `vpmap_cow_copy` visits them. */
  function PageWork(r: Region, i: nat): (w: seq<Work>)
    requires i <= r.PageCount()
    ensures forall v :: CopyPage(v) in w <==> r.start / PG_SIZE + i <= v < r.start / PG_SIZE + r.PageCount()
    ensures forall x :: x in w ==> x.CopyPage?
    decreases r.PageCount() - i
  {
    if i == r.PageCount() then []
    else [CopyPage(r.start / PG_SIZE + i)] + PageWork(r, i + 1)
  }

  /** Everything `as_copy_as` does, in order. */
  function ForkWork(rs: seq<Region>): (w: seq<Work>)
    ensures forall v :: CopyPage(v) in w <==> exists r :: r in rs && r.HasPage(v)
    ensures forall r :: CopyRegion(r) in w <==> r in rs
  {
    if rs == [] then []
    else
      var w := [CopyRegion(rs[0])] + PageWork(rs[0], 0) + ForkWork(rs[1..]);
      assert forall r :: r in rs <==> r == rs[0] || r in rs[1..];
      w
  }

  // ---------------------------------------------------------------- steps

  predicate CanSpawn(s: State, p: Pid) { p !in s.procs }

  /** `as_init` for a new process. */
  function Spawn(s: State, p: Pid): State
    requires CanSpawn(s, p)
  {
    s.Set(p, Proc(User, [], map[]))
  }

  predicate CanMapRegion(s: State, p: Pid, r: Region) {
    p in s.procs && s.procs[p].stage.User? && Accepts(s.procs[p].regions, r)
  }

  /** `as_map_memregion`. */
  function MapRegion(s: State, p: Pid, r: Region): State
    requires CanMapRegion(s, p, r)
  {
    s.Set(p, s.procs[p].(regions := LinkRegion(s.procs[p].regions, r)))
  }

  predicate CanStore(s: State, p: Pid, v: Vpn, ofs: nat) {
    && p in s.procs && s.procs[p].stage.User? && ofs < PG_SIZE
    && v in s.procs[p].table && s.procs[p].table[v].writable && s.procs[p].table[v].frame in s.frames
  }

  /** A user store the hardware lets through. */
  function Store(s: State, p: Pid, v: Vpn, ofs: nat, b: Byte): State
    requires CanStore(s, p, v, ofs)
  {
    var f := s.procs[p].table[v].frame;
    s.(frames := s.frames[f := PutByte(s.frames[f], ofs, b)])
  }

  /** The hardware faults, and a region allows the access. */
  predicate Faults(s: State, p: Pid, addr: nat, write: bool) {
    && p in s.procs && s.procs[p].stage.User?
    && (addr / PG_SIZE in s.procs[p].table ==> write && !s.procs[p].table[addr / PG_SIZE].writable)
    && var r := FindRegion(s.procs[p].regions, addr);
       r.Some? && (write ==> r.value.perm.Writable())
  }

  /** `handle_page_fault` gets a frame. */
  predicate CanFaultAlloc(s: State, p: Pid, addr: nat, write: bool, f: Frame) {
    Faults(s, p, addr, write) && s.Free(f)
  }

  function FaultAlloc(s: State, p: Pid, addr: nat, write: bool, f: Frame): State
    requires CanFaultAlloc(s, p, addr, write, f)
  {
    var r := FindRegion(s.procs[p].regions, addr).value;
    s.SetCount(f, 1).Set(p, s.procs[p].(stage := Allocated(addr / PG_SIZE, f, r.perm.Writable())))
  }

  predicate CanFaultFill(s: State, p: Pid) { p in s.procs && s.procs[p].stage.Allocated? }

  /** `memcpy` from the faulting page if it is present, `memset` to zero if not. */
  function FaultFill(s: State, p: Pid): State
    requires CanFaultFill(s, p)
  {
    var Allocated(v, f, w) := s.procs[p].stage;
    s.(frames := s.frames[f := View(s.frames, s.procs[p].table, v)])
     .Set(p, s.procs[p].(stage := Filled(v, f, w)))
  }

  predicate CanFaultMap(s: State, p: Pid) { p in s.procs && s.procs[p].stage.Filled? }

  /** `vpmap_map` of the new frame; an old frame is still to be released. */
  function FaultMap(s: State, p: Pid): State
    requires CanFaultMap(s, p)
  {
    var Filled(v, f, w) := s.procs[p].stage;
    var next := if v in s.procs[p].table then Remapped(s.procs[p].table[v].frame) else User;
    s.Set(p, s.procs[p].(stage := next, table := s.procs[p].table[v := Pte(f, w)]))
  }

  predicate CanFaultFail(s: State, p: Pid) {
    p in s.procs && s.procs[p].stage.Filled? && s.procs[p].stage.vpn !in s.procs[p].table
  }

  /** `vpmap_map` fails for lack of a page table page; the process exits, the frame is lost. */
  function FaultFail(s: State, p: Pid): State
    requires CanFaultFail(s, p)
  {
    s.(held := s.held + multiset{s.procs[p].stage.page}).Set(p, s.procs[p].(stage := Exiting(None)))
  }

  predicate CanFaultDrop(s: State, p: Pid) {
    p in s.procs && s.procs[p].stage.Remapped? && s.Counts(s.procs[p].stage.dropped)
  }

  /** `pmem_dec_refcnt` of the frame that was copied. */
  function FaultDrop(s: State, p: Pid): State
    requires CanFaultDrop(s, p)
  {
    var f := s.procs[p].stage.dropped;
    s.SetCount(f, s.refcnt[f] - 1).Set(p, s.procs[p].(stage := User))
  }

  predicate CanForkStart(s: State, p: Pid, c: Pid) {
    p in s.procs && s.procs[p].stage.User? && c !in s.procs
  }

  function ForkStart(s: State, p: Pid, c: Pid): State
    requires CanForkStart(s, p, c)
  {
    s.Set(c, Proc(Embryo(p), [], map[]))
     .Set(p, s.procs[p].(stage := Forking(c, ForkWork(s.procs[p].regions))))
  }

  predicate CanForkRegion(s: State, p: Pid) {
    && p in s.procs && s.procs[p].stage.Forking? && s.procs[p].stage.child in s.procs
    && s.procs[p].stage.todo != [] && s.procs[p].stage.todo[0].CopyRegion?
    && Accepts(s.procs[s.procs[p].stage.child].regions, s.procs[p].stage.todo[0].region)
  }

  /** `memregion_map_internal` in the child. */
  function ForkRegion(s: State, p: Pid): State
    requires CanForkRegion(s, p)
  {
    var Forking(c, todo) := s.procs[p].stage;
    s.Set(c, s.procs[c].(regions := LinkRegion(s.procs[c].regions, todo[0].region)))
     .Set(p, s.procs[p].(stage := Forking(c, todo[1..])))
  }

  predicate CanForkSkip(s: State, p: Pid) {
    && p in s.procs && s.procs[p].stage.Forking? && s.procs[p].stage.AtPage()
    && s.procs[p].stage.todo[0].vpn !in s.procs[p].table
  }

  /** `vpmap_cow_copy` passes over a page the parent has not mapped. */
  function ForkSkip(s: State, p: Pid): State
    requires CanForkSkip(s, p)
  {
    var Forking(c, todo) := s.procs[p].stage;
    s.Set(p, s.procs[p].(stage := Forking(c, todo[1..])))
  }

  predicate CanForkProtect(s: State, p: Pid) {
    && p in s.procs && s.procs[p].stage.Forking? && s.procs[p].stage.AtPage()
    && s.procs[p].stage.todo[0].vpn in s.procs[p].table
  }

  /** `vpmap_cow_copy` makes the parent's entry read-only. */
  function ForkProtect(s: State, p: Pid): State
    requires CanForkProtect(s, p)
  {
    var Forking(c, todo) := s.procs[p].stage;
    var v, x := todo[0].vpn, s.procs[p];
    s.Set(p, x.(stage := Protected(c, todo), table := x.table[v := Pte(x.table[v].frame, false)]))
  }

  predicate CanForkCount(s: State, p: Pid) {
    && p in s.procs && s.procs[p].stage.Protected? && s.procs[p].stage.AtPage()
    && s.procs[p].stage.todo[0].vpn in s.procs[p].table
    && s.Counts(s.procs[p].table[s.procs[p].stage.todo[0].vpn].frame)
  }

  /** `vpmap_cow_copy` counts the reference the child is to have. */
  function ForkCount(s: State, p: Pid): State
    requires CanForkCount(s, p)
  {
    var Protected(c, todo) := s.procs[p].stage;
    var f := s.procs[p].table[todo[0].vpn].frame;
    s.SetCount(f, s.refcnt[f] + 1).Set(p, s.procs[p].(stage := Sharing(c, todo, f)))
  }

  predicate CanForkMap(s: State, p: Pid) {
    && p in s.procs && s.procs[p].stage.Sharing? && s.procs[p].stage.AtPage()
    && s.procs[p].stage.child in s.procs
    && s.procs[p].stage.todo[0].vpn in s.procs[p].table
    && s.procs[p].stage.todo[0].vpn !in s.procs[s.procs[p].stage.child].table
  }

  /** `vpmap_cow_copy` copies the entry to the child. */
  function ForkMap(s: State, p: Pid): State
    requires CanForkMap(s, p)
  {
    var Sharing(c, todo, _) := s.procs[p].stage;
    var v := todo[0].vpn;
    s.Set(c, s.procs[c].(table := s.procs[c].table[v := s.procs[p].table[v]]))
     .Set(p, s.procs[p].(stage := Forking(c, todo[1..])))
  }

  predicate CanForkFail(s: State, p: Pid) {
    p in s.procs && s.procs[p].stage.Copying() && s.procs[p].stage.child in s.procs
  }

  /** Any failure inside `as_copy_as`; a reference counted but not mapped is lost. */
  function ForkFail(s: State, p: Pid): State
    requires CanForkFail(s, p)
  {
    var g := s.procs[p].stage;
    var lost := if g.Sharing? then multiset{g.shared} else multiset{};
    s.(held := s.held + lost)
     .Set(g.child, s.procs[g.child].(stage := Stillborn(None))).Set(p, s.procs[p].(stage := User))
  }

  predicate CanForkDone(s: State, p: Pid, c: Pid) {
    p in s.procs && s.procs[p].stage == Forking(c, []) && c in s.procs
  }

  function ForkDone(s: State, p: Pid, c: Pid): State
    requires CanForkDone(s, p, c)
  {
    s.Set(c, s.procs[c].(stage := User)).Set(p, s.procs[p].(stage := User))
  }

  predicate CanExitStart(s: State, p: Pid) { p in s.procs && s.procs[p].stage.User? }

  function ExitStart(s: State, p: Pid): State
    requires CanExitStart(s, p)
  {
    s.Set(p, s.procs[p].(stage := Exiting(None)))
  }

  predicate CanClearDrop(s: State, p: Pid, v: Vpn) {
    && p in s.procs && s.procs[p].stage.Dying() && s.procs[p].stage.stale.None?
    && v in s.procs[p].table && s.Counts(s.procs[p].table[v].frame)
  }

  /** `clear_pte` drops the count of the entry's frame, in the walk of `vpmap_destroy` or of the
      unmap after a failed fork. The entry stays. */
  function ClearDrop(s: State, p: Pid, v: Vpn): State
    requires CanClearDrop(s, p, v)
  {
    var f := s.procs[p].table[v].frame;
    s.SetCount(f, s.refcnt[f] - 1).Set(p, s.procs[p].(stage := s.procs[p].stage.(stale := Some(v))))
  }

  predicate CanClearZero(s: State, p: Pid) {
    p in s.procs && s.procs[p].stage.Dying() && s.procs[p].stage.stale.Some?
  }

  /** `clear_pte` stores 0 in the entry. */
  function ClearZero(s: State, p: Pid): State
    requires CanClearZero(s, p)
  {
    var x := s.procs[p];
    s.Set(p, x.(stage := x.stage.(stale := None), table := Minus(x.table, x.stage.stale.value)))
  }

  predicate CanExitDone(s: State, p: Pid) {
    p in s.procs && s.procs[p].stage == Exiting(None) && s.procs[p].table == map[]
  }

  function ExitDone(s: State, p: Pid): State
    requires CanExitDone(s, p)
  {
    s.(procs := Minus(s.procs, p))
  }

  predicate CanKernelAlloc(s: State, f: Frame) { s.Free(f) }

  /** `pmem_alloc` for the kernel itself: page table pages, slabs, stacks. */
  function KernelAlloc(s: State, f: Frame): State
    requires CanKernelAlloc(s, f)
  {
    s.SetCount(f, 1).(held := s.held + multiset{f})
  }

  predicate CanKernelFree(s: State, f: Frame) { f in s.held && f in s.refcnt && s.refcnt[f] == 1 }

  function KernelFree(s: State, f: Frame): State
    requires CanKernelFree(s, f)
  {
    s.SetCount(f, 0).(held := s.held - multiset{f})
  }

  // ---------------------------------------------------------------- runs

  datatype Step =
    | DoSpawn(p: Pid)
    | DoMapRegion(p: Pid, region: Region)
    | DoStore(p: Pid, vpn: Vpn, ofs: nat, byte: Byte)
    | DoFaultAlloc(p: Pid, addr: nat, write: bool, f: Frame)
    | DoFaultFill(p: Pid)
    | DoFaultMap(p: Pid)
    | DoFaultFail(p: Pid)
    | DoFaultDrop(p: Pid)
    | DoForkStart(p: Pid, c: Pid)
    | DoForkRegion(p: Pid)
    | DoForkSkip(p: Pid)
    | DoForkProtect(p: Pid)
    | DoForkCount(p: Pid)
    | DoForkMap(p: Pid)
    | DoForkFail(p: Pid)
    | DoForkDone(p: Pid, c: Pid)
    | DoExitStart(p: Pid)
    | DoClearDrop(p: Pid, vpn: Vpn)
    | DoClearZero(p: Pid)
    | DoExitDone(p: Pid)
    | DoKernelAlloc(f: Frame)
    | DoKernelFree(f: Frame)
  {
    predicate IsFault() { DoFaultAlloc? || DoFaultFill? || DoFaultMap? || DoFaultFail? || DoFaultDrop? }

    predicate IsFork() {
      || DoForkStart? || DoForkRegion? || DoForkSkip? || DoForkProtect? || DoForkCount? || DoForkMap? || DoForkFail?
      || DoForkDone?
    }

    predicate IsKernel() { DoKernelAlloc? || DoKernelFree? }
  }

  predicate FaultEnabled(s: State, t: Step) {
    match t
    case DoFaultAlloc(p, addr, write, f) => CanFaultAlloc(s, p, addr, write, f)
    case DoFaultFill(p) => CanFaultFill(s, p)
    case DoFaultMap(p) => CanFaultMap(s, p)
    case DoFaultFail(p) => CanFaultFail(s, p)
    case DoFaultDrop(p) => CanFaultDrop(s, p)
    case _ => false
  }

  predicate ForkEnabled(s: State, t: Step) {
    match t
    case DoForkStart(p, c) => CanForkStart(s, p, c)
    case DoForkRegion(p) => CanForkRegion(s, p)
    case DoForkSkip(p) => CanForkSkip(s, p)
    case DoForkProtect(p) => CanForkProtect(s, p)
    case DoForkCount(p) => CanForkCount(s, p)
    case DoForkMap(p) => CanForkMap(s, p)
    case DoForkFail(p) => CanForkFail(s, p)
    case DoForkDone(p, c) => CanForkDone(s, p, c)
    case _ => false
  }

  predicate OtherEnabled(s: State, t: Step) {
    match t
    case DoSpawn(p) => CanSpawn(s, p)
    case DoMapRegion(p, r) => CanMapRegion(s, p, r)
    case DoStore(p, v, ofs, _) => CanStore(s, p, v, ofs)
    case DoExitStart(p) => CanExitStart(s, p)
    case DoClearDrop(p, v) => CanClearDrop(s, p, v)
    case DoClearZero(p) => CanClearZero(s, p)
    case DoExitDone(p) => CanExitDone(s, p)
    case DoKernelAlloc(f) => CanKernelAlloc(s, f)
    case DoKernelFree(f) => CanKernelFree(s, f)
    case _ => false
  }

  predicate Enabled(s: State, t: Step) { FaultEnabled(s, t) || ForkEnabled(s, t) || OtherEnabled(s, t) }

  function FaultNext(s: State, t: Step): State
    requires FaultEnabled(s, t)
  {
    match t
    case DoFaultAlloc(p, addr, write, f) => FaultAlloc(s, p, addr, write, f)
    case DoFaultFill(p) => FaultFill(s, p)
    case DoFaultMap(p) => FaultMap(s, p)
    case DoFaultFail(p) => FaultFail(s, p)
    case DoFaultDrop(p) => FaultDrop(s, p)
  }

  function ForkNext(s: State, t: Step): State
    requires ForkEnabled(s, t)
  {
    match t
    case DoForkStart(p, c) => ForkStart(s, p, c)
    case DoForkRegion(p) => ForkRegion(s, p)
    case DoForkSkip(p) => ForkSkip(s, p)
    case DoForkProtect(p) => ForkProtect(s, p)
    case DoForkCount(p) => ForkCount(s, p)
    case DoForkMap(p) => ForkMap(s, p)
    case DoForkFail(p) => ForkFail(s, p)
    case DoForkDone(p, c) => ForkDone(s, p, c)
  }

  function OtherNext(s: State, t: Step): State
    requires OtherEnabled(s, t)
  {
    match t
    case DoSpawn(p) => Spawn(s, p)
    case DoMapRegion(p, r) => MapRegion(s, p, r)
    case DoStore(p, v, ofs, b) => Store(s, p, v, ofs, b)
    case DoExitStart(p) => ExitStart(s, p)
    case DoClearDrop(p, v) => ClearDrop(s, p, v)
    case DoClearZero(p) => ClearZero(s, p)
    case DoExitDone(p) => ExitDone(s, p)
    case DoKernelAlloc(f) => KernelAlloc(s, f)
    case DoKernelFree(f) => KernelFree(s, f)
  }

  function Next(s: State, t: Step): State
    requires Enabled(s, t)
  {
    if t.IsFault() then FaultNext(s, t) else if t.IsFork() then ForkNext(s, t) else OtherNext(s, t)
  }

  /** A run: every step is enabled where it is taken. */
  predicate Legal(s: State, run: seq<Step>)
    decreases |run|
  {
    run == [] || (Enabled(s, run[0]) && Legal(Next(s, run[0]), run[1..]))
  }

  function Exec(s: State, run: seq<Step>): State
    requires Legal(s, run)
    decreases |run|
  {
    if run == [] then s else Exec(Next(s, run[0]), run[1..])
  }

  /** A machine with some frames, all free, and no process. */
  ghost predicate Initial(s: State) {
    && s.frames.Keys == s.refcnt.Keys
    && (forall f :: f in s.refcnt ==> s.refcnt[f] == 0)
    && s.procs == map[] && s.held == multiset{}
  }

  // ---------------------------------------------------------------- the eager machine

  /** A process's memory: one page of bytes for every page number. */
  type Memory = imap<Vpn, Page>

  ghost function MemoryOf(frames: map<Frame, Page>, table: map<Vpn, Pte>): Memory {
    imap v: Vpn :: View(frames, table, v)
  }

  /** The memories of all processes that a user program can observe. */
  ghost function Abstract(s: State): map<Pid, Memory> {
    map p | p in s.procs && s.procs[p].stage.Live() :: MemoryOf(s.frames, s.procs[p].table)
  }

  ghost function StoreByte(mem: Memory, v: Vpn, ofs: nat, b: Byte): Memory
    requires ofs < PG_SIZE
  {
    imap w: Vpn | w in mem :: if w == v then PutByte(mem[w], ofs, b) else mem[w]
  }

  /** A machine in which every process owns its memory, and fork copies all of it. */
  ghost function EagerNext(m: map<Pid, Memory>, t: Step): map<Pid, Memory> {
    match t
    case DoSpawn(p) => m[p := MemoryOf(map[], map[])]
    case DoStore(p, v, ofs, b) =>
      if p in m && ofs < PG_SIZE then m[p := StoreByte(m[p], v, ofs, b)] else m
    case DoForkDone(p, c) => if p in m then m[c := m[p]] else m
    case DoExitStart(p) => Minus(m, p)
    case DoFaultFail(p) => Minus(m, p)
    case _ => m
  }

  ghost function EagerExec(m: map<Pid, Memory>, run: seq<Step>): map<Pid, Memory>
    decreases |run|
  {
    if run == [] then m else EagerExec(EagerNext(m, run[0]), run[1..])
  }
}
