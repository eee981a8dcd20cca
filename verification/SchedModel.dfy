/** The ready queue as a value: which thread is picked, and how timer ticks rotate equals. */
module SchedModel {
  type Tid = int

  type Prio = map<Tid, int>

  ghost predicate Known(q: seq<Tid>, prio: Prio) { forall i :: 0 <= i < |q| ==> q[i] in prio && prio[q[i]] >= 0 }

  /** Index i is the first of maximal priority: the thread that has queued longest among the most urgent. */
  ghost predicate FirstMax(q: seq<Tid>, prio: Prio, i: int)
    requires Known(q, prio)
  {
    && 0 <= i < |q|
    && (forall j :: 0 <= j < |q| ==> prio[q[j]] <= prio[q[i]])
    && (forall j :: 0 <= j < i ==> prio[q[j]] < prio[q[i]])
  }

  /** The threads of priority p, in queue order. */
  ghost function Tops(q: seq<Tid>, prio: Prio, p: int): seq<Tid> {
    if q == [] then []
    else Tops(q[..|q| - 1], prio, p) + if q[|q| - 1] in prio && prio[q[|q| - 1]] == p then [q[|q| - 1]] else []
  }

  lemma {:induction false} TopsConcat(a: seq<Tid>, b: seq<Tid>, prio: Prio, p: int)
    ensures Tops(a + b, prio, p) == Tops(a, prio, p) + Tops(b, prio, p)
    decreases |b|
  {
    if b == [] {
      assert a + b == a;
    } else {
      assert (a + b)[..|a + b| - 1] == a + b[..|b| - 1];
      TopsConcat(a, b[..|b| - 1], prio, p);
    }
  }

  lemma {:induction false} NoTops(q: seq<Tid>, prio: Prio, p: int)
    requires Known(q, prio) && forall j :: 0 <= j < |q| ==> prio[q[j]] < p
    ensures Tops(q, prio, p) == []
    decreases |q|
  {
    if q != [] { NoTops(q[..|q| - 1], prio, p); }
  }

  lemma TopsOne(x: Tid, prio: Prio)
    requires x in prio
    ensures Tops([x], prio, prio[x]) == [x]
  {
    assert [x][..0] == [];
  }

  lemma TopsBefore(q: seq<Tid>, prio: Prio, i: int)
    requires Known(q, prio) && FirstMax(q, prio, i)
    ensures Tops(q[..i], prio, prio[q[i]]) == []
  {
    forall j | 0 <= j < i ensures q[..i][j] in prio && 0 <= prio[q[..i][j]] < prio[q[i]] { assert q[..i][j] == q[j]; }
    NoTops(q[..i], prio, prio[q[i]]);
  }

  lemma TopsAround(a: seq<Tid>, x: Tid, b: seq<Tid>, prio: Prio)
    requires x in prio && Tops(a, prio, prio[x]) == []
    ensures Tops(a + [x] + b, prio, prio[x]) == [x] + Tops(a + b, prio, prio[x])
  {
    TopsOne(x, prio);
    TopsConcat(a, [x], prio, prio[x]);
    TopsConcat(a + [x], b, prio, prio[x]);
    TopsConcat(a, b, prio, prio[x]);
    Regroup(Tops(a + [x] + b, prio, prio[x]), Tops(a + [x], prio, prio[x]), Tops(a + b, prio, prio[x]),
            Tops(a, prio, prio[x]), Tops([x], prio, prio[x]), Tops(b, prio, prio[x]));
  }

  lemma Regroup(u: seq<Tid>, v: seq<Tid>, w: seq<Tid>, a: seq<Tid>, x: seq<Tid>, b: seq<Tid>)
    requires u == v + b && v == a + x && w == a + b && a == []
    ensures u == x + w
  {
  }

  /** The picked thread is the first of the most urgent ones, and the others keep their order. */
  lemma PickTops(q: seq<Tid>, prio: Prio, i: int)
    requires Known(q, prio) && FirstMax(q, prio, i)
    ensures Tops(q, prio, prio[q[i]]) == [q[i]] + Tops(q[..i] + q[i + 1..], prio, prio[q[i]])
  {
    TopsBefore(q, prio, i);
    TopsAround(q[..i], q[i], q[i + 1..], prio);
    assert q == q[..i] + [q[i]] + q[i + 1..];
  }

  datatype Cpu = Cpu(current: Tid, ready: seq<Tid>)

  /** One timer tick: the running thread goes to the end of the queue, and the queue is served. */
  ghost predicate Tick(c: Cpu, c': Cpu, prio: Prio) {
    var q := c.ready + [c.current];
    Known(q, prio) && exists i :: FirstMax(q, prio, i) && c' == Cpu(q[i], q[..i] + q[i + 1..])
  }

  /** A run of n ticks and nothing else. */
  ghost predicate Ticks(cs: seq<Cpu>, prio: Prio) {
    |cs| > 0 && forall n :: 0 <= n < |cs| - 1 ==> Tick(cs[n], cs[n + 1], prio)
  }

  /** The threads that share the processor: the running one and those of its priority, in order of their turns. */
  ghost function Lane(c: Cpu, prio: Prio): seq<Tid>
    requires c.current in prio
  {
    [c.current] + Tops(c.ready, prio, prio[c.current])
  }

  /** The running thread is among the most urgent. */
  ghost predicate Leading(c: Cpu, prio: Prio) {
    Known(c.ready + [c.current], prio) && c.current in prio &&
    forall t :: t in c.ready ==> t in prio && prio[t] <= prio[c.current]
  }

  function Rotate(s: seq<Tid>): seq<Tid> { if s == [] then s else s[1..] + [s[0]] }

  lemma MaxPriority(c: Cpu, prio: Prio, i: int)
    requires Leading(c, prio) && FirstMax(c.ready + [c.current], prio, i)
    ensures prio[(c.ready + [c.current])[i]] == prio[c.current]
  {
    var q := c.ready + [c.current];
    assert q[|q| - 1] == c.current;
    if i < |c.ready| { assert q[i] == c.ready[i]; }
  }

  /** A tick passes the turn to the next of the lane. */
  lemma TickRotates(c: Cpu, c': Cpu, prio: Prio)
    requires Leading(c, prio) && Tick(c, c', prio)
    ensures Leading(c', prio) && Lane(c', prio) == Rotate(Lane(c, prio))
  {
    var q := c.ready + [c.current];
    var i :| FirstMax(q, prio, i) && c' == Cpu(q[i], q[..i] + q[i + 1..]);
    MaxPriority(c, prio, i);
    PickTops(q, prio, i);
    TopsConcat(c.ready, [c.current], prio, prio[c.current]);
    TopsOne(c.current, prio);
    assert Tops(q, prio, prio[c.current]) == Tops(c.ready, prio, prio[c.current]) + [c.current];
    assert Lane(c', prio) == Tops(q, prio, prio[c.current]);
    assert Lane(c, prio)[1..] == Tops(c.ready, prio, prio[c.current]);
    TickLeads(c, c', prio, i);
  }

  lemma TickLeads(c: Cpu, c': Cpu, prio: Prio, i: int)
    requires Known(c.ready + [c.current], prio) && FirstMax(c.ready + [c.current], prio, i)
    requires var q := c.ready + [c.current]; c' == Cpu(q[i], q[..i] + q[i + 1..])
    ensures Leading(c', prio)
  {
    var q := c.ready + [c.current];
    forall t | t in c'.ready ensures t in q {
      if t in q[..i] { assert t in q; } else { assert t in q[i + 1..]; }
    }
    var q' := c'.ready + [c'.current];
    forall j | 0 <= j < |q'| ensures q'[j] in prio && prio[q'[j]] >= 0 { assert q'[j] in q; }
  }

  /** From any state, a tick starts the turns of the most urgent threads, in queue order. */
  lemma TickStarts(c: Cpu, c': Cpu, prio: Prio)
    requires Tick(c, c', prio)
    ensures Leading(c', prio) && Lane(c', prio) == Tops(c.ready + [c.current], prio, prio[c'.current])
    ensures forall t :: t in c.ready + [c.current] ==> t in prio && prio[t] <= prio[c'.current]
  {
    var q := c.ready + [c.current];
    var i :| FirstMax(q, prio, i) && c' == Cpu(q[i], q[..i] + q[i + 1..]);
    TickLeads(c, c', prio, i);
    PickTops(q, prio, i);
  }

  ghost function RotateBy(s: seq<Tid>, n: nat): seq<Tid> { if n == 0 then s else Rotate(RotateBy(s, n - 1)) }

  lemma {:induction false} RotateHead(s: seq<Tid>, n: nat, j: int)
    requires 0 <= j && j + n < |s|
    ensures |RotateBy(s, n)| == |s| && RotateBy(s, n)[j] == s[j + n]
    decreases n
  {
    if n > 0 { RotateHead(s, n - 1, j + 1); }
  }

  lemma {:induction false} LaneAfter(cs: seq<Cpu>, prio: Prio, n: nat)
    requires Ticks(cs, prio) && Leading(cs[0], prio) && n < |cs|
    ensures Leading(cs[n], prio) && Lane(cs[n], prio) == RotateBy(Lane(cs[0], prio), n)
    decreases n
  {
    if n > 0 {
      LaneAfter(cs, prio, n - 1);
      assert Tick(cs[n - 1], cs[n - 1 + 1], prio);
      TickRotates(cs[n - 1], cs[n], prio);
    }
  }

  /**
  Round robin: with nothing but timer ticks, the k threads that share the highest priority run
  one after the other, in the order in which they queued, within k ticks.
   */
  lemma RoundRobin(cs: seq<Cpu>, prio: Prio, n: nat)
    requires Ticks(cs, prio) && Leading(cs[0], prio) && n < |cs| && n < |Lane(cs[0], prio)|
    ensures cs[n].current == Lane(cs[0], prio)[n]
  {
    LaneAfter(cs, prio, n);
    RotateHead(Lane(cs[0], prio), n, 0);
    assert Lane(cs[n], prio)[0] == cs[n].current;
  }

  /** Every thread of the lane gets its turn. */
  lemma EveryoneRuns(cs: seq<Cpu>, prio: Prio, t: Tid)
    requires Ticks(cs, prio) && Leading(cs[0], prio) && t in Lane(cs[0], prio) && |cs| >= |Lane(cs[0], prio)|
    ensures exists n :: 0 <= n < |Lane(cs[0], prio)| && cs[n].current == t
  {
    var n :| 0 <= n < |Lane(cs[0], prio)| && Lane(cs[0], prio)[n] == t;
    RoundRobin(cs, prio, n);
  }

  /** The same from any state, such as one where a less urgent thread runs: from the first tick on,
      the threads of the highest priority run one after the other, in queue order. */
  lemma RoundRobinFromAny(cs: seq<Cpu>, prio: Prio, n: nat)
    requires Ticks(cs, prio) && n + 1 < |cs|
    ensures cs[1].current in prio && forall t :: t in cs[0].ready + [cs[0].current] ==>
      t in prio && prio[t] <= prio[cs[1].current]
    ensures var lane := Tops(cs[0].ready + [cs[0].current], prio, prio[cs[1].current]);
      n < |lane| ==> cs[n + 1].current == lane[n]
  {
    assert Tick(cs[0], cs[0 + 1], prio);
    TickStarts(cs[0], cs[1], prio);
    forall k | 0 <= k < |cs[1..]| - 1 ensures Tick(cs[1..][k], cs[1..][k + 1], prio) {
      assert Tick(cs[k + 1], cs[k + 1 + 1], prio);
    }
    if n < |Lane(cs[1], prio)| { RoundRobin(cs[1..], prio, n); }
  }
}
