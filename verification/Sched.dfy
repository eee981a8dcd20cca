/** The scheduler of `sched.c` on one processor. */
module Sched {
  import opened SchedModel
  import opened Lists

  datatype TState = New | Running | Ready | Sleeping | Zombie

  /** The lists hold known threads, none of them idle, the queue each once; every thread has a priority. */
  ghost predicate Threads(idle: Tid, current: Tid, ready: seq<Tid>, state: map<Tid, TState>, prio: Prio,
                          asleep: set<Tid>) {
    && idle in state && current in state && NoDup(ready)
    && (forall t :: t in ready ==> t in state && t != idle)
    && (forall t :: t in asleep ==> t in state && t != idle)
    && (forall t :: t in state ==> t in prio && prio[t] >= 0)
  }

  lemma InQueue(idle: Tid, current: Tid, ready: seq<Tid>, state: map<Tid, TState>, prio: Prio, asleep: set<Tid>, t: Tid)
    requires Threads(idle, current, ready, state, prio, asleep) && t in ready
    ensures t in state && t in prio && prio[t] >= 0
  {
  }

  class Scheduler {
    /** Runs when nothing else can; it is never queued. */
    const idle: Tid
    var current: Tid
    var ready: seq<Tid>
    var state: map<Tid, TState>
    var prio: Prio
    /** The threads on some wait list. */
    var asleep: set<Tid>

    ghost predicate Listed()
      reads this
    {
      Threads(idle, current, ready, state, prio, asleep)
    }

    /** Thread t is where its state says; `running` is the one that runs. */
    ghost predicate Placed(t: Tid, running: Tid)
      requires t in state
      reads this
    {
      && (state[t].Running? <==> t == running) && (state[t].Ready? <==> t in ready)
      && (state[t].Sleeping? <==> t in asleep)
    }

    /** Every thread but the idle one is in one place: it runs, is queued once, is on a wait list,
        or neither lives yet nor any more. */
    ghost predicate Valid()
      reads this
    {
      Listed() && forall t {:trigger Placed(t, current)} :: t in state && t != idle ==> Placed(t, current)
    }

    /** While the processor changes hands no thread runs. */
    ghost predicate Switching()
      reads this
    {
      Listed() && forall t {:trigger Placed(t, idle)} :: t in state && t != idle ==> Placed(t, idle)
    }

    /** No thread in the queue is more urgent than the running one. */
    ghost predicate Urgent()
      requires Listed()
      reads this
    {
      forall t :: t in ready ==> t in prio && prio[t] <= prio[current]
    }

    /** get_max_priority_thread: the longest-queued of the most urgent. */
    method GetMaxPriorityThread() returns (t: Tid, ghost i: int)
      requires Listed() && ready != []
      ensures Known(ready, prio) && FirstMax(ready, prio, i) && t == ready[i]
      ensures t in ready && t in prio && forall u :: u in ready ==> u in prio && prio[u] <= prio[t]
    {
      i := 0;
      t := ready[0];
      var best := -1;
      for k := 0 to |ready|
        invariant 0 <= i < |ready| && t == ready[i] && (k == 0 ==> best == -1) && (k > 0 ==> i < k && best == prio[t])
        invariant forall j :: 0 <= j < k ==> ready[j] in prio && 0 <= prio[ready[j]] <= best
        invariant forall j :: 0 <= j < i ==> ready[j] in prio && (k > 0 ==> prio[ready[j]] < best)
      {
        InQueue(idle, current, ready, state, prio, asleep, ready[k]);
        if best < prio[ready[k]] {
          t, best := ready[k], prio[ready[k]];
          i := k;
        }
      }
    }

    /** sched: the queue is served, or the idle thread runs. Its assertion holds. */
    method Dispatch()
      requires Switching()
      modifies this`current, this`ready, this`state
      ensures Valid() && state.Keys == old(state.Keys)
      ensures old(ready) == [] ==> current == idle && ready == []
      ensures old(ready) != [] ==> Known(old(ready), prio) && exists i ::
        FirstMax(old(ready), prio, i) && current == old(ready)[i] && ready == old(ready)[..i] + old(ready)[i + 1..]
      ensures Urgent()
    {
      if ready != [] {
        var next, i := GetMaxPriorityThread();
        assert Placed(next, idle);
        assert state[next] == Ready;
        RemoveAt(ready, i);
        ready := Without(ready, next);
        state := state[next := Running];
        current := next;
        forall t | t in state && t != idle ensures Placed(t, current) { assert old(Placed(t, idle)); }
      } else {
        current := idle;
        state := state[idle := Running];
        forall t | t in state && t != idle ensures Placed(t, current) { assert old(Placed(t, idle)); }
      }
    }

    /**
    sched_sched. A running thread that stays ready goes to the end of the queue; then the
    longest-queued of the most urgent runs. For a thread that stays ready this is a tick.
     */
    method SchedSched(next: TState)
      requires Valid() && (next == Ready || (current != idle && (next == Sleeping || next == Zombie)))
      modifies this
      ensures Valid() && Urgent() && state.Keys == old(state.Keys) && prio == old(prio)
      ensures asleep == old(asleep) + if next == Sleeping then {old(current)} else {}
      ensures next == Ready && old(current) != idle ==> Tick(Cpu(old(current), old(ready)), Cpu(current, ready), prio)
      ensures !(next == Ready && old(current) != idle) && old(ready) == [] ==> current == idle && ready == []
      ensures !(next == Ready && old(current) != idle) && old(ready) != [] ==> Known(old(ready), prio) && exists i ::
        FirstMax(old(ready), prio, i) && current == old(ready)[i] && ready == old(ready)[..i] + old(ready)[i + 1..]
    {
      ghost var me := current;
      assert me != idle ==> Placed(me, me);
      if next == Ready && current != idle {
        ready := ready + [current];
      }
      if next == Sleeping {
        asleep := asleep + {current};
      }
      state := state[current := next];
      forall t | t in state && t != idle ensures Placed(t, idle) { assert old(Placed(t, me)); }
      Dispatch();
    }

    /**
    sched_ready of a thread that was asleep or is new: it runs at once if it is more urgent than
    the running thread, and queues otherwise.
     */
    method SchedReady(t: Tid)
      requires Valid() && t in state && t != idle && (state[t] == Sleeping || state[t] == New)
      modifies this
      ensures Valid() && state.Keys == old(state.Keys) && prio == old(prio) && asleep == old(asleep) - {t}
      ensures prio[t] <= prio[old(current)] ==> current == old(current) && ready == old(ready) + [t]
      ensures prio[t] > prio[old(current)] ==>
        current == t && ready == old(ready) + if old(current) == idle then [] else [old(current)]
      ensures old(Urgent()) ==> Urgent()
    {
      if prio[current] < prio[t] {
        Preempt(t);
      } else {
        Enqueue(t);
      }
    }

    /** A thread that is not more urgent than the running one joins the queue. */
    method Enqueue(t: Tid)
      requires Valid() && t in state && t != idle && (state[t] == Sleeping || state[t] == New)
      requires prio[t] <= prio[current]
      modifies this
      ensures Valid() && state.Keys == old(state.Keys) && prio == old(prio) && asleep == old(asleep) - {t}
      ensures current == old(current) && ready == old(ready) + [t]
      ensures old(Urgent()) ==> Urgent()
    {
      assert Placed(t, current) && (current != idle ==> Placed(current, current));
      asleep := asleep - {t};
      state := state[t := Ready];
      ready := ready + [t];
      forall u | u in state && u != idle ensures Placed(u, current) { assert old(Placed(u, current)); }
    }

    /** A more urgent thread takes the processor, and the running one joins the queue. */
    method Preempt(t: Tid)
      requires Valid() && t in state && t != idle && (state[t] == Sleeping || state[t] == New)
      requires prio[t] > prio[current]
      modifies this
      ensures Valid() && state.Keys == old(state.Keys) && prio == old(prio) && asleep == old(asleep) - {t}
      ensures current == t && ready == old(ready) + if old(current) == idle then [] else [old(current)]
      ensures old(Urgent()) ==> Urgent()
    {
      ghost var me := current;
      assert Placed(t, me) && (me != idle ==> Placed(me, me));
      asleep := asleep - {t};
      if current != idle {
        state := state[current := Ready];
        ready := ready + [current];
      }
      state := state[t := Running];
      current := t;
      forall u | u in state && u != idle ensures Placed(u, current) { assert old(Placed(u, me)); }
    }

    /** The queue once the running thread, unless it is the idle one, has been added. */
    ghost function Queued(): seq<Tid>
      reads this
    {
      ready + if current == idle then [] else [current]
    }

    /** yield(READY): the last thread in the queue that is more urgent than the running one takes
        over, if there is one. */
    method YieldReady() returns (ghost at: int)
      requires Valid()
      modifies this
      ensures Valid() && state.Keys == old(state.Keys) && prio == old(prio) && asleep == old(asleep)
      ensures old(Urgent()) ==> current == old(current) && ready == old(ready)
      ensures !old(Urgent()) ==>
        0 <= at < |old(ready)| && current == old(ready)[at] && prio[current] > prio[old(current)]
      ensures !old(Urgent()) ==>
        forall j :: at < j < |old(ready)| ==> old(ready)[j] in prio && prio[old(ready)[j]] <= prio[old(current)]
      ensures !old(Urgent()) ==> ready == old(Queued())[..at] + old(Queued())[at + 1..]
    {
      var found, best;
      found, best, at := FindHigher();
      if found {
        SwitchTo(best, at);
      }
    }

    /** The loop of yield: the last thread in the queue that is more urgent than the running one. */
    method FindHigher() returns (found: bool, best: Tid, ghost at: int)
      requires Listed()
      ensures found <==> !Urgent()
      ensures found ==> 0 <= at < |ready| && ready[at] == best && best in prio && prio[best] > prio[current]
      ensures found ==> forall j :: at < j < |ready| ==> ready[j] in prio && prio[ready[j]] <= prio[current]
    {
      found, best, at := false, 0, 0;
      for k := 0 to |ready|
        invariant found ==> 0 <= at < k && ready[at] == best && best in prio && prio[best] > prio[current]
        invariant forall j :: 0 <= j < k && (found ==> at < j) ==> ready[j] in prio && prio[ready[j]] <= prio[current]
      {
        InQueue(idle, current, ready, state, prio, asleep, ready[k]);
        if prio[ready[k]] > prio[current] {
          found, best, at := true, ready[k], k;
        }
      }
    }

    /** The running thread is queued, and t, from place `at` of the queue, runs. */
    method SwitchTo(t: Tid, ghost at: int)
      requires Valid() && 0 <= at < |ready| && ready[at] == t && t != current
      modifies this
      ensures Valid() && state.Keys == old(state.Keys) && prio == old(prio) && asleep == old(asleep) && current == t
      ensures ready == old(Queued())[..at] + old(Queued())[at + 1..]
    {
      ghost var me, q := current, Queued();
      assert Placed(t, me) && (me != idle ==> Placed(me, me));
      QueuedFacts();
      RemoveAt(q, at);
      if current != idle {
        ready := ready + [current];
      }
      assert ready == q;
      state := state[current := Ready];
      ready := Without(ready, t);
      state := state[t := Running];
      current := t;
      forall u | u in state && u != idle ensures Placed(u, current) { assert old(Placed(u, me)); }
    }

    lemma QueuedFacts()
      requires Valid()
      ensures NoDup(Queued()) && forall t :: t in Queued() <==> t in ready || (t == current && current != idle)
    {
      assert current != idle ==> Placed(current, current);
    }
  }

  lemma {:induction false} RemoveAt(q: seq<Tid>, i: int)
    requires NoDup(q) && 0 <= i < |q|
    ensures Without(q, q[i]) == q[..i] + q[i + 1..] && NoDup(Without(q, q[i]))
    ensures forall t :: t in Without(q, q[i]) <==> t in q && t != q[i]
    decreases i
  {
    WithoutFacts(q, q[i]);
    if i > 0 {
      RemoveAt(q[1..], i - 1);
      assert q[0] != q[i] && q[1..][i - 1] == q[i];
      assert [q[0]] + (q[1..][..i - 1] + q[1..][i..]) == q[..i] + q[i + 1..];
    }
  }
}
