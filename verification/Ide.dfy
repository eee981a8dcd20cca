/**
The request queue between `bdev_make_request` and the IDE driver, as a step system.

The device lock and the queue lock are different locks, so requests are appended while the
request handler or the interrupt handler is halfway through. Each step is one critical section
of the queue lock, or one change under the device lock.
 */
module Ide {
  import opened Common
  type Id = int

  /** Who holds the device lock, and how far it is. */
  datatype Holder =
    | Nobody
    | HandlerIdle(caller: Id)               // ide_request_handler has seen IDE_IDLE
    | HandlerFront(caller: Id, bio: Id)     // and has the first request of the queue
    | TrapPopped(bio: Id)                   // ide_trap_handler has removed the active request
    | TrapDone                              // and has completed it
    | TrapFront(next: Option<Id>)           // and knows the next request, if any

  datatype State = State(
    queue: seq<Id>,
    busy: bool,             // ide->status
    holder: Holder,
    device: Option<Id>,     // the command the device works on, or has raised the interrupt for
    finished: bool,         // that interrupt is pending
    called: set<Id>,        // submitters whose call of the handler is over
    submitted: seq<Id>,
    issued: seq<Id>,
    completed: seq<Id>)

  ghost predicate Initial(s: State) { s == State([], false, Nobody, None, false, {}, [], [], []) }

  // ---------------------------------------------------------------- submitters

  /** bdev_make_request puts a new request at the end of the queue. */
  ghost predicate CanSubmit(s: State, id: Id) { id !in s.submitted }

  ghost function Submit(s: State, id: Id): State { s.(queue := s.queue + [id], submitted := s.submitted + [id]) }

  /** The submitter calls ide_request_handler, which does nothing if the device is busy. */
  ghost predicate CanCall(s: State, id: Id) { s.holder == Nobody && id in s.submitted && id !in s.called }

  ghost function Call(s: State, id: Id): State {
    if s.busy then s.(called := s.called + {id}) else s.(holder := HandlerIdle(id))
  }

  ghost predicate CanPeek(s: State) { s.holder.HandlerIdle? }

  ghost function Peek(s: State): State
    requires CanPeek(s)
  {
    var id := s.holder.caller;
    if s.queue == [] then s.(holder := Nobody, called := s.called + {id})
    else s.(holder := HandlerFront(id, s.queue[0]))
  }

  ghost predicate CanIssue(s: State) { s.holder.HandlerFront? }

  ghost function Issue(s: State): State
    requires CanIssue(s)
  {
    s.(holder := Nobody, called := s.called + {s.holder.caller}, busy := true, device := Some(s.holder.bio),
        finished := false,
       issued := s.issued + [s.holder.bio])
  }

  // ---------------------------------------------------------------- the device

  ghost predicate CanFinish(s: State) { s.device.Some? && !s.finished }

  ghost function Finish(s: State): State { s.(finished := true) }

  /** The interrupt handler, if the device is busy, removes the first request. */
  ghost predicate CanTrap(s: State) { s.holder == Nobody && s.finished }

  ghost function Trap(s: State): State {
    if s.busy && s.queue != []
    then s.(holder := TrapPopped(s.queue[0]), queue := s.queue[1..], device := None, finished := false)
    else s.(finished := false)
  }

  ghost predicate CanComplete(s: State) { s.holder.TrapPopped? }

  ghost function Complete(s: State): State
    requires CanComplete(s)
  {
    s.(holder := TrapDone, completed := s.completed + [s.holder.bio])
  }

  ghost predicate CanLook(s: State) { s.holder.TrapDone? }

  ghost function Look(s: State): State
    requires CanLook(s)
  {
    s.(holder := TrapFront(if s.queue == [] then None else Some(s.queue[0])))
  }

  ghost predicate CanLeave(s: State) { s.holder.TrapFront? }

  ghost function Leave(s: State): State
    requires CanLeave(s)
  {
    match s.holder.next
    case None => s.(holder := Nobody, busy := false)
    case Some(b) => s.(holder := Nobody, busy := true, device := Some(b), finished := false, issued := s.issued + [b])
  }

  // ---------------------------------------------------------------- the invariant

  /** Requests removed from the queue but not yet completed. */
  ghost function Popped(s: State): seq<Id> { if s.holder.TrapPopped? then [s.holder.bio] else [] }

  /** No request is lost, duplicated or overtaken. */
  ghost predicate Ordered(s: State) {
    && s.submitted == s.completed + Popped(s) + s.queue
    && (forall i, j :: 0 <= i < j < |s.submitted| ==> s.submitted[i] != s.submitted[j])
    && (forall id :: id in s.called ==> id in s.submitted)
  }

  /** The device works on the first request of the queue. */
  ghost predicate HeadIssued(s: State) {
    s.queue != [] && s.device == Some(s.queue[0]) && s.issued == s.completed + [s.queue[0]]
  }

  /** Nothing is issued beyond what has left the queue. */
  ghost predicate HeadNotIssued(s: State) { s.device == None && !s.finished && s.issued == s.completed + Popped(s) }

  /** No one in the queue has called the handler in vain. */
  ghost predicate Waiting(s: State) { forall id :: id in s.queue ==> id !in s.called }

  /** Busy means that the first request has been issued; idle, that no one waits for nothing. */
  ghost predicate Held(s: State) {
    match s.holder
    case Nobody => if s.busy then HeadIssued(s) else HeadNotIssued(s) && Waiting(s)
    case HandlerIdle(c) => !s.busy && HeadNotIssued(s) && Waiting(s) && c in s.submitted && c !in s.called
    case HandlerFront(c, b) =>
      && !s.busy && HeadNotIssued(s) && Waiting(s) && c in s.submitted && c !in s.called && s.queue != []
      && b == s.queue[0]
    case TrapPopped(_) => s.busy && HeadNotIssued(s)
    case TrapDone => s.busy && HeadNotIssued(s)
    case TrapFront(next) =>
      && s.busy && HeadNotIssued(s)
      && match next { case None => Waiting(s) case Some(b) => s.queue != [] && b == s.queue[0] }
  }

  ghost predicate Inv(s: State) { Ordered(s) && Held(s) }

  // ---------------------------------------------------------------- steps and runs

  datatype Step =
    | DoSubmit(id: Id) | DoCall(caller: Id) | DoPeek | DoIssue | DoFinish | DoTrap | DoComplete | DoLook | DoLeave

  ghost predicate Enabled(s: State, t: Step) {
    match t
    case DoSubmit(id) => CanSubmit(s, id)
    case DoCall(id) => CanCall(s, id)
    case DoPeek => CanPeek(s)
    case DoIssue => CanIssue(s)
    case DoFinish => CanFinish(s)
    case DoTrap => CanTrap(s)
    case DoComplete => CanComplete(s)
    case DoLook => CanLook(s)
    case DoLeave => CanLeave(s)
  }

  ghost function Next(s: State, t: Step): State
    requires Enabled(s, t)
  {
    match t
    case DoSubmit(id) => Submit(s, id)
    case DoCall(id) => Call(s, id)
    case DoPeek => Peek(s)
    case DoIssue => Issue(s)
    case DoFinish => Finish(s)
    case DoTrap => Trap(s)
    case DoComplete => Complete(s)
    case DoLook => Look(s)
    case DoLeave => Leave(s)
  }

  ghost predicate Legal(s: State, run: seq<Step>)
    decreases |run|
  {
    run == [] || (Enabled(s, run[0]) && Legal(Next(s, run[0]), run[1..]))
  }

  ghost function Exec(s: State, run: seq<Step>): State
    requires Legal(s, run)
    decreases |run|
  {
    if run == [] then s else Exec(Next(s, run[0]), run[1..])
  }

  lemma SubmitKeeps(s: State, id: Id)
    requires Inv(s) && CanSubmit(s, id)
    ensures Inv(Submit(s, id))
  {
    var s' := Submit(s, id);
    assert s'.submitted == s'.completed + Popped(s') + s'.queue;
    assert forall x :: x in s'.queue <==> x in s.queue || x == id;
  }

  lemma HandlerKeeps(s: State)
    requires Inv(s)
    ensures CanPeek(s) ==> Inv(Peek(s))
    ensures CanIssue(s) ==> Inv(Issue(s))
  {
  }

  lemma CallKeeps(s: State, id: Id)
    requires Inv(s) && CanCall(s, id)
    ensures Inv(Call(s, id))
  {
  }

  lemma TrapKeeps(s: State)
    requires Inv(s) && CanTrap(s)
    ensures Inv(Trap(s))
  {
    var s' := Trap(s);
    assert s.queue == [s.queue[0]] + s.queue[1..];
    assert s'.submitted == s'.completed + Popped(s') + s'.queue;
  }

  lemma CompletionKeeps(s: State)
    requires Inv(s)
    ensures CanComplete(s) ==> Inv(Complete(s))
    ensures CanLook(s) ==> Inv(Look(s))
    ensures CanLeave(s) ==> Inv(Leave(s))
  {
  }

  lemma StepKeeps(s: State, t: Step)
    requires Inv(s) && Enabled(s, t)
    ensures Inv(Next(s, t))
  {
    match t
    case DoSubmit(id) => SubmitKeeps(s, id);
    case DoCall(id) => CallKeeps(s, id);
    case DoPeek => HandlerKeeps(s);
    case DoIssue => HandlerKeeps(s);
    case DoFinish =>
    case DoTrap => TrapKeeps(s);
    case DoComplete => CompletionKeeps(s);
    case DoLook => CompletionKeeps(s);
    case DoLeave => CompletionKeeps(s);
  }

  lemma {:induction false} RunKeeps(s: State, run: seq<Step>)
    requires Inv(s) && Legal(s, run)
    ensures Inv(Exec(s, run))
    decreases |run|
  {
    if run != [] {
      StepKeeps(s, run[0]);
      RunKeeps(Next(s, run[0]), run[1..]);
    }
  }

  // ---------------------------------------------------------------- what the protocol promises

  lemma OrderedParts(s: State)
    requires Inv(s)
    ensures s.completed <= s.issued <= s.submitted
  {
    assert s.submitted == s.completed + (Popped(s) + s.queue);
  }

  /** Requests are issued and completed in the order of submission, each at most once. */
  lemma InOrder(s0: State, run: seq<Step>)
    requires Initial(s0) && Legal(s0, run)
    ensures var s := Exec(s0, run);
      && s.completed <= s.issued <= s.submitted
      && forall i, j :: 0 <= i < j < |s.submitted| ==> s.submitted[i] != s.submitted[j]
  {
    RunKeeps(s0, run);
    OrderedParts(Exec(s0, run));
  }

  /** Between critical sections the device is busy exactly if the first request has been issued,
      and is still pending. */
  lemma BusyMeansIssued(s0: State, run: seq<Step>)
    requires Initial(s0) && Legal(s0, run) && Exec(s0, run).holder == Nobody
    ensures var s := Exec(s0, run);
      && (s.busy <==> s.queue != [] && s.queue[0] in s.issued)
      && (s.queue != [] ==> s.queue[0] !in s.completed)
  {
    RunKeeps(s0, run);
    var s := Exec(s0, run);
    if s.queue != [] { FrontPending(s); }
  }

  /** The first request of the queue has not been completed. */
  lemma FrontPending(s: State)
    requires Ordered(s) && s.queue != []
    ensures s.queue[0] !in s.completed
  {
    var k := |s.completed| + |Popped(s)|;
    assert s.submitted[k] == s.queue[0];
    forall i | 0 <= i < |s.completed| ensures s.completed[i] != s.queue[0] { assert s.submitted[i] == s.completed[i]; }
  }

  /** An idle device with requests in its queue has a submitter for each that is still to call the handler. */
  lemma NeverStuck(s0: State, run: seq<Step>)
    requires Initial(s0) && Legal(s0, run)
    ensures var s := Exec(s0, run);
      s.holder == Nobody && !s.busy ==> forall id :: id in s.queue ==> CanCall(s, id)
  {
    RunKeeps(s0, run);
    var s := Exec(s0, run);
    assert forall id :: id in s.queue ==> id in s.submitted;
  }

  /** The assertions of the handlers hold: an interrupt finds its request, which is pending, at the front. */
  lemma AssertionsHold(s0: State, run: seq<Step>)
    requires Initial(s0) && Legal(s0, run)
    ensures var s := Exec(s0, run);
      && (CanTrap(s) ==> s.busy && s.queue != [] && s.device == Some(s.queue[0]) && s.queue[0] !in s.completed)
      && (s.holder.HandlerFront? ==> s.holder.bio !in s.completed)
      && (s.holder.TrapFront? && s.holder.next.Some? ==> s.holder.next.value !in s.completed)
  {
    RunKeeps(s0, run);
    var s := Exec(s0, run);
    if s.queue != [] { FrontPending(s); }
  }

  /** A request that is not complete can always get closer to completion. */
  lemma Progress(s0: State, run: seq<Step>, id: Id)
    requires Initial(s0) && Legal(s0, run) && id in Exec(s0, run).submitted && id !in Exec(s0, run).completed
    ensures exists t :: Enabled(Exec(s0, run), t) && !t.DoSubmit?
  {
    RunKeeps(s0, run);
    var s := Exec(s0, run);
    assert id in Popped(s) + s.queue;
    var t :=
      match s.holder
      case Nobody => if s.busy then (if s.finished then DoTrap else DoFinish) else DoCall(id)
      case HandlerIdle(_) => DoPeek
      case HandlerFront(_, _) => DoIssue
      case TrapPopped(_) => DoComplete
      case TrapDone => DoLook
      case TrapFront(_) => DoLeave;
    assert Enabled(s, t);
  }

  // ---------------------------------------------------------------- bounded work

  ghost function Uncalled(s: State): set<Id> { set id | id in s.submitted && id !in s.called }

  ghost function HolderWork(h: Holder): int {
    match h
    case Nobody => 0
    case HandlerIdle(_) => -1
    case HandlerFront(_, _) => -2
    case TrapPopped(_) => 0
    case TrapDone => 4
    case TrapFront(_) => 3
  }

  /** The work left for the requests submitted so far. */
  ghost function Work(s: State): int {
    10 * (|s.submitted| - |s.completed|) + 5 * |Uncalled(s)| + HolderWork(s.holder)
    + if s.device.None? then 0 else if s.finished then 1 else 2
  }

  lemma WorkNonNegative(s: State)
    requires Inv(s)
    ensures Work(s) >= 0
  {
    if s.holder.HandlerIdle? || s.holder.HandlerFront? { assert s.holder.caller in Uncalled(s); }
  }

  lemma CallWorks(s: State, t: State, id: Id)
    requires id in Uncalled(s) && t.submitted == s.submitted && t.called == s.called + {id}
    ensures |Uncalled(t)| == |Uncalled(s)| - 1
  {
    assert Uncalled(t) == Uncalled(s) - {id};
  }

  lemma SubmitWorks(s: State, id: Id)
    requires Inv(s) && CanSubmit(s, id)
    ensures Work(Submit(s, id)) <= Work(s) + 15
  {
    assert Uncalled(Submit(s, id)) == Uncalled(s) + {id};
  }

  lemma CallerWorks(s: State, id: Id)
    requires Inv(s) && CanCall(s, id)
    ensures Work(Call(s, id)) < Work(s)
  {
    if s.busy { CallWorks(s, Call(s, id), id); } else { assert Uncalled(Call(s, id)) == Uncalled(s); }
  }

  lemma HandlerWorks(s: State)
    requires Inv(s)
    ensures CanPeek(s) ==> Work(Peek(s)) < Work(s)
    ensures CanIssue(s) ==> Work(Issue(s)) < Work(s)
  {
    if CanPeek(s) {
      if s.queue == [] { CallWorks(s, Peek(s), s.holder.caller); } else { assert Uncalled(Peek(s)) == Uncalled(s); }
    } else if CanIssue(s) {
      CallWorks(s, Issue(s), s.holder.caller);
    }
  }

  lemma DeviceWorks(s: State, t: Step)
    requires Inv(s) && Enabled(s, t) && (t.DoFinish? || t.DoTrap? || t.DoComplete? || t.DoLook? || t.DoLeave?)
    ensures Work(Next(s, t)) < Work(s)
  {
    assert Uncalled(Next(s, t)) == Uncalled(s);
  }

  /** A new request adds a bounded amount of work, and every other step does some. */
  lemma StepWorks(s: State, t: Step)
    requires Inv(s) && Enabled(s, t)
    ensures if t.DoSubmit? then Work(Next(s, t)) <= Work(s) + 15 else Work(Next(s, t)) < Work(s)
  {
    match t
    case DoSubmit(id) => SubmitWorks(s, id);
    case DoCall(id) => CallerWorks(s, id);
    case DoPeek => HandlerWorks(s);
    case DoIssue => HandlerWorks(s);
    case _ => DeviceWorks(s, t);
  }

  ghost function Submits(run: seq<Step>): int {
    if run == [] then 0 else (if run[0].DoSubmit? then 1 else 0) + Submits(run[1..])
  }

  /**
  However steps interleave, n requests take at most 15 n steps other than their submission; so
  a run that goes on as long as it can completes all of them.
   */
  lemma {:induction false} WorkBounded(s: State, run: seq<Step>)
    requires Inv(s) && Legal(s, run)
    ensures |run| - Submits(run) <= Work(s) + 15 * Submits(run)
    decreases |run|
  {
    if run == [] {
      WorkNonNegative(s);
    } else {
      StepKeeps(s, run[0]);
      StepWorks(s, run[0]);
      WorkBounded(Next(s, run[0]), run[1..]);
    }
  }

  /** The oldest request that has not been completed. */
  lemma FirstOpen(s: State)
    requires Ordered(s) && Popped(s) + s.queue != []
    ensures (Popped(s) + s.queue)[0] in s.submitted && (Popped(s) + s.queue)[0] !in s.completed
  {
    assert s.submitted == s.completed + (Popped(s) + s.queue);
    assert s.submitted[|s.completed|] == (Popped(s) + s.queue)[0];
    forall i | 0 <= i < |s.completed|
      ensures s.completed[i] != (Popped(s) + s.queue)[0]
    {
      assert s.submitted[i] == s.completed[i];
    }
  }

  /** When nothing but a new submission is possible, every request is complete. */
  lemma QuietMeansDone(s0: State, run: seq<Step>)
    requires Initial(s0) && Legal(s0, run) && forall t :: Enabled(Exec(s0, run), t) ==> t.DoSubmit?
    ensures Exec(s0, run).completed == Exec(s0, run).submitted
    ensures |run| - Submits(run) <= 15 * Submits(run)
  {
    RunKeeps(s0, run);
    WorkBounded(s0, run);
    var s := Exec(s0, run);
    if Popped(s) + s.queue != [] {
      var id := (Popped(s) + s.queue)[0];
      FirstOpen(s);
      Progress(s0, run, id);
      assert false;
    }
  }
}
