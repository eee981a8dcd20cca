/**
Sleeplocks and journal transactions, as one step system: a slot with at most one holder, behind
a spinlock, and a condition variable for the threads that found it taken. Releasing a sleeplock
signals one waiter; ending a journal transaction wakes all of them.
 */
module Sleeplock {
  import opened Common
  import opened Lists

  type Tid = int

  datatype Pc =
    | Out                   // not interested
    | Entering              // called acquire (or begin), wants the spinlock
    | Checking(woken: bool) // has the spinlock, is about to test the slot
    | Sleeping              // on the list of waiters
    | Woken                 // off the list, wants the spinlock again
    | Trying                // called try_acquire, wants the spinlock
    | Testing               // has the spinlock
    | Holding
    | Leaving               // called release (or end), wants the spinlock
    | Releasing             // has the spinlock

  datatype State = State(wakeAll: bool, holder: Option<Tid>, spin: Option<Tid>, waiters: seq<Tid>, pc: map<Tid, Pc>)

  ghost predicate At(s: State, t: Tid, c: Pc) { t in s.pc && s.pc[t] == c }

  ghost function Go(s: State, t: Tid, c: Pc): State { s.(pc := s.pc[t := c]) }

  ghost predicate Initial(s: State) {
    s.holder == None && s.spin == None && s.waiters == [] && forall t :: t in s.pc ==> s.pc[t] == Out
  }

  datatype Step = Acquire(t: Tid) | Try(t: Tid) | Release(t: Tid) | Lock(t: Tid) | Act(t: Tid)

  /** The threads that move on when the slot is given up. */
  ghost function Wake(s: State): seq<Tid> {
    if s.waiters == [] then [] else if s.wakeAll then s.waiters else [s.waiters[0]]
  }

  ghost function WakePc(pc: map<Tid, Pc>,
                        ts: seq<Tid>): map<Tid, Pc> { map t | t in pc :: if t in ts then Woken else pc[t] }

  /** A call, taking the spinlock, or what is done under it. */
  ghost predicate Enabled(s: State, x: Step) {
    match x
    case Acquire(t) => At(s, t, Out)
    case Try(t) => At(s, t, Out)
    case Release(t) => At(s, t, Holding)
    case Lock(t) => s.spin == None && t in s.pc &&
    (s.pc[t].Entering? || s.pc[t].Woken? || s.pc[t].Trying? || s.pc[t].Leaving?)
    case Act(t) => s.spin == Some(t) && t in s.pc && (s.pc[t].Checking? || s.pc[t].Testing? || s.pc[t].Releasing?)
  }

  ghost function TakeSpin(s: State, t: Tid): State
    requires t in s.pc
  {
    var c := match s.pc[t]
      case Entering => Checking(false)
      case Woken => Checking(true)
      case Trying => Testing
      case _ => Releasing;
    Go(s, t, c).(spin := Some(t))
  }

  /** The loop test: take the slot, or wait. Going to sleep and giving up the spinlock are one step for wakers. */
  ghost function Check(s: State, t: Tid): State {
    if s.holder == None then Go(s, t, Holding).(spin := None, holder := Some(t))
    else Go(s, t, Sleeping).(spin := None, waiters := s.waiters + [t])
  }

  ghost function TryCheck(s: State, t: Tid): State {
    if s.holder == None then Go(s, t, Holding).(spin := None, holder := Some(t)) else Go(s, t, Out).(spin := None)
  }

  ghost function GiveUp(s: State, t: Tid): State {
    s.(spin := None, holder := None, waiters := s.waiters[|Wake(s)|..], pc := WakePc(s.pc, Wake(s))[t := Out])
  }

  ghost function Next(s: State, x: Step): State
    requires Enabled(s, x)
  {
    match x
    case Acquire(t) => Go(s, t, Entering)
    case Try(t) => Go(s, t, Trying)
    case Release(t) => Go(s, t, Leaving)
    case Lock(t) => TakeSpin(s, t)
    case Act(t) => if s.pc[t].Checking? then Check(s, t) else if s.pc[t].Testing? then TryCheck(s, t) else GiveUp(s, t)
  }

  ghost predicate Legal(s: State, run: seq<Step>)
    decreases |run|
  {
    run == [] || (Enabled(s, run[0]) && Legal(Next(s, run[0]), run[1..]))
  }

  ghost function Exec(s: State, run: seq<Step>): State
    requires Legal(s, run)
    decreases |run|
  {
    if run == [] then s else Exec(Next(s, run[0]), run[1..])
  }

  // ---------------------------------------------------------------- the invariant

  ghost predicate HasSlot(c: Pc) { c.Holding? || c.Leaving? || c.Releasing? }

  ghost predicate HasSpin(c: Pc) { c.Checking? || c.Testing? || c.Releasing? }

  /** A thread's place agrees with the lock. */
  ghost predicate ThreadOk(s: State, t: Tid)
    requires t in s.pc
  {
    && (HasSlot(s.pc[t]) <==> s.holder == Some(t))
    && (HasSpin(s.pc[t]) <==> s.spin == Some(t))
    && (s.pc[t].Sleeping? <==> t in s.waiters)
  }

  /** A woken thread that has not yet looked again. */
  ghost predicate Contender(s: State, t: Tid) { At(s, t, Woken) || At(s, t, Checking(true)) }

  ghost predicate Inv(s: State) {
    && (forall t {:trigger ThreadOk(s, t)} :: t in s.pc ==> ThreadOk(s, t))
    && (s.holder.Some? ==> s.holder.value in s.pc) && (s.spin.Some? ==> s.spin.value in s.pc)
    && (forall t :: t in s.waiters ==> t in s.pc)
    && NoDup(s.waiters)
    && (s.holder == None && s.waiters != [] ==> !s.wakeAll && exists t :: Contender(s, t))
  }

  /** A call changes only where the caller is. */
  lemma CallKeeps(s: State, t: Tid, c: Pc)
    requires Inv(s) && t in s.pc && !s.pc[t].Sleeping? && !c.Sleeping? && !Contender(s, t)
    requires HasSlot(s.pc[t]) == HasSlot(c) && HasSpin(s.pc[t]) == HasSpin(c)
    ensures Inv(Go(s, t, c))
  {
    var s' := Go(s, t, c);
    forall u | u in s'.pc ensures ThreadOk(s', u) { assert ThreadOk(s, u); }
    if s'.holder == None && s'.waiters != [] {
      var w :| Contender(s, w);
      assert Contender(s', w);
    }
  }

  lemma LockKeeps(s: State, t: Tid)
    requires Inv(s) && Enabled(s, Lock(t))
    ensures Inv(TakeSpin(s, t))
  {
    var s' := TakeSpin(s, t);
    forall u | u in s'.pc ensures ThreadOk(s', u) { assert ThreadOk(s, u); }
    if s'.holder == None && s'.waiters != [] {
      var w :| Contender(s, w);
      assert Contender(s', w);
    }
  }

  lemma CheckKeeps(s: State, t: Tid)
    requires Inv(s) && s.spin == Some(t) && t in s.pc && s.pc[t].Checking?
    ensures Inv(Check(s, t))
  {
    var s' := Check(s, t);
    forall u | u in s'.pc ensures ThreadOk(s', u) { assert ThreadOk(s, u) && ThreadOk(s, t); }
    assert ThreadOk(s, t);
    assert NoDup(s'.waiters);
  }

  lemma TryKeeps(s: State, t: Tid)
    requires Inv(s) && s.spin == Some(t) && t in s.pc && s.pc[t].Testing?
    ensures Inv(TryCheck(s, t))
  {
    var s' := TryCheck(s, t);
    forall u | u in s'.pc ensures ThreadOk(s', u) { assert ThreadOk(s, u); }
  }

  lemma GiveUpKeeps(s: State, t: Tid)
    requires Inv(s) && s.spin == Some(t) && t in s.pc && s.pc[t].Releasing?
    ensures Inv(GiveUp(s, t))
  {
    var s', n := GiveUp(s, t), |Wake(s)|;
    assert ThreadOk(s, t);
    forall u | u in s'.pc ensures ThreadOk(s', u) { GiveUpThread(s, t, u); }
    forall u | u in s'.waiters ensures u in s'.pc { SplitDistinct(s.waiters, n, u); }
    if s'.waiters != [] {
      assert ThreadOk(s, s.waiters[0]);
      assert Contender(s', s.waiters[0]);
    }
  }

  lemma GiveUpThread(s: State, t: Tid, u: Tid)
    requires Inv(s) && s.spin == Some(t) && t in s.pc && s.pc[t].Releasing? && u in s.pc
    ensures ThreadOk(GiveUp(s, t), u)
  {
    assert ThreadOk(s, t) && ThreadOk(s, u);
    assert s.waiters[..|Wake(s)|] == Wake(s);
    SplitDistinct(s.waiters, |Wake(s)|, u);
  }

  /** An element of a list without repetitions is in one part of it. */
  lemma SplitDistinct(s: seq<Tid>, n: int, x: Tid)
    requires 0 <= n <= |s| && NoDup(s)
    ensures x in s <==> x in s[..n] || x in s[n..]
    ensures !(x in s[..n] && x in s[n..])
  {
    assert s == s[..n] + s[n..];
  }

  lemma StepKeeps(s: State, x: Step)
    requires Inv(s) && Enabled(s, x)
    ensures Inv(Next(s, x))
  {
    match x
    case Acquire(t) => CallKeeps(s, t, Entering);
    case Try(t) => CallKeeps(s, t, Trying);
    case Release(t) => CallKeeps(s, t, Leaving);
    case Lock(t) => LockKeeps(s, t);
    case Act(t) =>
      if s.pc[t].Checking? { CheckKeeps(s, t); }
      else if s.pc[t].Testing? { TryKeeps(s, t); }
      else { GiveUpKeeps(s, t); }
  }

  lemma {:induction false} RunKeeps(s: State, run: seq<Step>)
    requires Inv(s) && Legal(s, run)
    ensures Inv(Exec(s, run)) && Exec(s, run).wakeAll == s.wakeAll
    decreases |run|
  {
    if run != [] {
      StepKeeps(s, run[0]);
      RunKeeps(Next(s, run[0]), run[1..]);
    }
  }

  lemma InitialInv(s: State)
    requires Initial(s)
    ensures Inv(s)
  {
    forall t | t in s.pc ensures ThreadOk(s, t) {}
  }

  // ---------------------------------------------------------------- what the locks promise

  /** In every reachable state at most one thread has the slot: one holder of a sleeplock, one
      transaction in progress. */
  lemma MutualExclusion(s0: State, run: seq<Step>, t: Tid, u: Tid)
    requires Initial(s0) && Legal(s0, run)
    ensures var s := Exec(s0, run); t in s.pc && u in s.pc && HasSlot(s.pc[t]) && HasSlot(s.pc[u]) ==> t == u
  {
    InitialInv(s0);
    RunKeeps(s0, run);
    var s := Exec(s0, run);
    if t in s.pc && u in s.pc { assert ThreadOk(s, t) && ThreadOk(s, u); }
  }

  /** No wakeup is lost: a free sleeplock with waiters has a woken thread that has not looked again yet. */
  lemma NoLostWakeup(s0: State, run: seq<Step>)
    requires Initial(s0) && Legal(s0, run)
    ensures var s := Exec(s0, run); s.holder == None && s.waiters != [] ==> exists t :: Contender(s, t)
  {
    InitialInv(s0);
    RunKeeps(s0, run);
  }

  /** Threads wait for a journal transaction only while one is in progress. */
  lemma WaitOnlyWhileBusy(s0: State, run: seq<Step>)
    requires Initial(s0) && s0.wakeAll && Legal(s0, run)
    ensures Exec(s0, run).waiters != [] ==> Exec(s0, run).holder.Some?
  {
    InitialInv(s0);
    RunKeeps(s0, run);
  }

  /** While the slot is free, a thread that wants it can always move, or another can on its way out of the spinlock. */
  lemma NoDeadlock(s0: State, run: seq<Step>, t: Tid)
    requires Initial(s0) && Legal(s0, run)
    requires var s := Exec(s0, run); s.holder == None && t in s.pc && s.pc[t] != Out
    ensures exists x :: Enabled(Exec(s0, run), x) && (x.Lock? || x.Act?)
  {
    InitialInv(s0);
    RunKeeps(s0, run);
    var s := Exec(s0, run);
    assert ThreadOk(s, t);
    if s.spin.Some? {
      assert ThreadOk(s, s.spin.value);
      assert Enabled(s, Act(s.spin.value));
    } else if s.pc[t].Sleeping? {
      assert s.waiters != [];
      var w :| Contender(s, w);
      assert ThreadOk(s, w);
      assert Enabled(s, Lock(w));
    } else {
      assert Enabled(s, Lock(t));
    }
  }
}
