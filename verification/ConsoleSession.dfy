/**
Readers of the console and the keyboard, interleaved: a reader takes what is committed,
sleeps when it needs more, and goes on when it gets the lock again, while other readers and
the keyboard interrupt do the same in between.
 */
module ConsoleSession {
  import opened Console

  /** A call of console_read: what it has read, and how many characters were taken when it began. */
  datatype Reader = Reader(size: int, out: seq<int>, done: bool, from: nat)

  /** `log` is every character ever committed, `taken` who took which of them. */
  datatype Session = Session(lines: Lines, readers: map<int, Reader>, taken: seq<(int, int)>, log: seq<int>)

  datatype Event =
    | Type(c: int)               // console_storec, from the keyboard interrupt
    | Call(id: int, size: int)   // a thread calls console_read
    | Run(id: int)               // it holds the lock and reads until it is done or must wait

  function Tag(id: int, chars: seq<int>): (t: seq<(int, int)>)
    ensures |t| == |chars| && forall i :: 0 <= i < |t| ==> t[i] == (id, chars[i])
  {
    seq(|chars|, i requires 0 <= i < |chars| => (id, chars[i]))
  }

  predicate Enabled(s: Session, e: Event) {
    match e
    case Type(_) => true
    case Call(id, size) => size >= 0 && (id in s.readers ==> s.readers[id].done)
    case Run(id) => id in s.readers && !s.readers[id].done && |s.readers[id].out| <= s.readers[id].size
  }

  function TypeIn(s: Session, c: int): Session {
    var l := Store(s.lines, c);
    var more := if |s.lines.committed| <= |l.committed| then l.committed[|s.lines.committed|..] else [];
    s.(lines := l, log := s.log + more)
  }

  function RunOn(s: Session, id: int): Session
    requires Enabled(s, Run(id))
  {
    var x := s.readers[id];
    var r := Read(s.lines.committed, x.size - |x.out|, |x.out|);
    var gone := if |r.1| <= |s.lines.committed| then s.lines.committed[..|s.lines.committed| - |r.1|] else [];
    s.(lines := s.lines.(committed := r.1), taken := s.taken + Tag(id, gone),
       readers := s.readers[id := x.(out := x.out + r.0, done := r.2 == Done)])
  }

  function Next(s: Session, e: Event): Session
    requires Enabled(s, e)
  {
    match e
    case Type(c) => TypeIn(s, c)
    case Call(id, size) => s.(readers := s.readers[id := Reader(size, [], false, |s.taken|)])
    case Run(id) => RunOn(s, id)
  }

  predicate Legal(s: Session, run: seq<Event>)
    decreases |run|
  {
    run == [] || (Enabled(s, run[0]) && Legal(Next(s, run[0]), run[1..]))
  }

  function Exec(s: Session, run: seq<Event>): Session
    requires Legal(s, run)
    decreases |run|
  {
    if run == [] then s else Exec(Next(s, run[0]), run[1..])
  }

  function Start(): Session { Session(Lines([], []), map[], [], []) }

  // ---------------------------------------------------------------- who took what

  function Chars(t: seq<(int, int)>): (c: seq<int>)
    ensures |c| == |t|
  {
    seq(|t|, i requires 0 <= i < |t| => t[i].1)
  }

  /** What reader id took, in order. */
  function By(t: seq<(int, int)>, id: int): seq<int> {
    if t == [] then []
    else By(t[..|t| - 1], id) + if t[|t| - 1].0 == id then [t[|t| - 1].1] else []
  }

  lemma {:induction false} ByTag(t: seq<(int, int)>, id: int, chars: seq<int>, x: int)
    ensures By(t + Tag(id, chars), x) == if x == id then By(t, x) + chars else By(t, x)
    decreases |chars|
  {
    var u := t + Tag(id, chars);
    if chars == [] {
      assert u == t;
    } else {
      var n := |chars| - 1;
      assert u[..|u| - 1] == t + Tag(id, chars[..n]);
      ByTag(t, id, chars[..n], x);
      assert chars == chars[..n] + [chars[n]];
    }
  }

  /** A reader has what it took since it began, but for an end of file that ended it. */
  ghost predicate ReaderOk(s: Session, id: int)
    requires id in s.readers
  {
    var x := s.readers[id];
    && |x.out| <= x.size && x.from <= |s.taken|
    && (By(s.taken[x.from..], id) == x.out || (x.done && x.out == [] && By(s.taken[x.from..], id) == [EOF]))
    && OneLine(x.out, x.done)
  }

  ghost predicate Inv(s: Session) {
    && LinesOk(s.lines) && Chars(s.taken) + s.lines.committed == s.log
    && forall id {:trigger ReaderOk(s, id)} :: id in s.readers ==> ReaderOk(s, id)
  }

  /** No end of file, and a newline only at the end of what is done. */
  ghost predicate OneLine(out: seq<int>, done: bool) {
    forall i :: 0 <= i < |out| ==> out[i] != EOF && (out[i] == NEWLINE ==> done && i == |out| - 1)
  }

  lemma LineCons(a: seq<int>, b: seq<int>, done: bool)
    requires OneLine(a, false) && OneLine(b, done)
    ensures OneLine(a + b, done)
  {
    var out := a + b;
    forall i | 0 <= i < |out| ensures out[i] != EOF && (out[i] == NEWLINE ==> done && i == |out| - 1) {
      assert i >= |a| ==> out[i] == b[i - |a|];
    }
  }

  /** What a read takes is one line at most. */
  lemma {:induction false} ReadLine(committed: seq<int>, n: int, got: int)
    requires n >= 0
    ensures OneLine(Read(committed, n, got).0, Read(committed, n, got).2 == Done)
    decreases n
  {
    if n > 0 && committed != [] && !Commits(committed[0]) {
      ReadLine(committed[1..], n - 1, got + 1);
      var t := Read(committed[1..], n - 1, got + 1);
      LineCons([committed[0]], t.0, t.2 == Done);
    }
  }

  lemma TakenAfter(taken: seq<(int, int)>, f: nat, id: int, gone: seq<int>, y: int)
    requires f <= |taken|
    ensures By((taken + Tag(id, gone))[f..], y) == if y == id then By(taken[f..], y) + gone else By(taken[f..], y)
  {
    assert (taken + Tag(id, gone))[f..] == taken[f..] + Tag(id, gone);
    ByTag(taken[f..], id, gone, y);
  }

  lemma CharsConcat(t: seq<(int, int)>, id: int, chars: seq<int>)
    ensures Chars(t + Tag(id, chars)) == Chars(t) + chars
  {
  }

  lemma TypeKeeps(s: Session, c: int)
    requires Inv(s)
    ensures Inv(TypeIn(s, c))
  {
    StoreOk(s.lines, c);
    var l := Store(s.lines, c);
    assert l.committed == s.lines.committed + l.committed[|s.lines.committed|..];
    forall id | id in s.readers ensures ReaderOk(TypeIn(s, c), id) { assert ReaderOk(s, id); }
  }

  lemma CallKeeps(s: Session, id: int, size: int)
    requires Inv(s) && Enabled(s, Call(id, size))
    ensures Inv(Next(s, Call(id, size)))
  {
    var s' := Next(s, Call(id, size));
    forall x | x in s'.readers ensures ReaderOk(s', x) {
      if x != id { assert ReaderOk(s, x); } else { assert s.taken[|s.taken|..] == []; }
    }
  }

  /** What a read removes is what it returns, but for an end of file. */
  lemma Removed(all: seq<int>, n: int, got: int)
    requires n >= 0 && got >= 0
    ensures var r := Read(all, n, got);
      && |r.1| <= |all| && all == all[..|all| - |r.1|] + r.1 && |r.0| <= n
      && (all[..|all| - |r.1|] == r.0 || (got == 0 && r.0 == [] && all[..|all| - |r.1|] == [EOF] && r.2 == Done))
  {
    ReadInOrder(all, n, got);
  }

  lemma StillOk(l: Lines, rest: seq<int>)
    requires LinesOk(l) && |rest| <= |l.committed|
    ensures LinesOk(l.(committed := rest))
  {
  }

  lemma Regroup(a: seq<int>, b: seq<int>, c: seq<int>, all: seq<int>, log: seq<int>)
    requires a + all == log && all == b + c
    ensures a + b + c == log
  {
  }

  lemma RunTaken(s: Session, id: int)
    requires LinesOk(s.lines) && Chars(s.taken) + s.lines.committed == s.log && Enabled(s, Run(id))
    ensures Chars(RunOn(s, id).taken) + RunOn(s, id).lines.committed == s.log && LinesOk(RunOn(s, id).lines)
  {
    hide Read;
    hide Chars;
    hide LinesOk;
    var x, all := s.readers[id], s.lines.committed;
    Removed(all, x.size - |x.out|, |x.out|);
    var rest := RunOn(s, id).lines.committed;
    StillOk(s.lines, rest);
    var gone := all[..|all| - |rest|];
    CharsConcat(s.taken, id, gone);
    Regroup(Chars(s.taken), gone, rest, all, s.log);
  }

  lemma RunReader(s: Session, id: int)
    requires Inv(s) && Enabled(s, Run(id))
    ensures ReaderOk(RunOn(s, id), id)
  {
    hide Read;
    hide By;
    hide OneLine;
    assert ReaderOk(s, id);
    var x, all := s.readers[id], s.lines.committed;
    var r := Read(all, x.size - |x.out|, |x.out|);
    Removed(all, x.size - |x.out|, |x.out|);
    ReadLine(all, x.size - |x.out|, |x.out|);
    var gone := all[..|all| - |r.1|];
    TakenAfter(s.taken, x.from, id, gone, id);
    LineCons(x.out, r.0, r.2 == Done);
    if gone != r.0 { assert [] + [EOF] == [EOF]; }
  }

  lemma RunOther(s: Session, id: int, y: int)
    requires Inv(s) && Enabled(s, Run(id)) && y in s.readers && y != id
    ensures ReaderOk(RunOn(s, id), y)
  {
    hide Read;
    hide By;
    hide OneLine;
    assert ReaderOk(s, y);
    var all, f := s.lines.committed, s.readers[y].from;
    Removed(all, s.readers[id].size - |s.readers[id].out|, |s.readers[id].out|);
    var gone := all[..|all| - |RunOn(s, id).lines.committed|];
    TakenAfter(s.taken, f, id, gone, y);
  }

  lemma RunKeeps(s: Session, id: int)
    requires Inv(s) && Enabled(s, Run(id))
    ensures Inv(RunOn(s, id))
  {
    RunTaken(s, id);
    forall y | y in RunOn(s, id).readers ensures ReaderOk(RunOn(s, id), y) {
      if y == id { RunReader(s, id); } else { RunOther(s, id, y); }
    }
  }

  lemma StepKeeps(s: Session, e: Event)
    requires Inv(s) && Enabled(s, e)
    ensures Inv(Next(s, e))
  {
    match e
    case Type(c) => TypeKeeps(s, c);
    case Call(id, size) => CallKeeps(s, id, size);
    case Run(id) => RunKeeps(s, id);
  }

  lemma {:induction false} RunsKeep(s: Session, run: seq<Event>)
    requires Inv(s) && Legal(s, run)
    ensures Inv(Exec(s, run)) && s.log <= Exec(s, run).log && s.taken <= Exec(s, run).taken
    decreases |run|
  {
    if run != [] {
      StepKeeps(s, run[0]);
      RunsKeep(Next(s, run[0]), run[1..]);
    }
  }

  /**
  Whatever the interleaving, every committed character is taken by one reader, in the order
  of commitment, or still there; and each call returns exactly what it took, one line at most.
   */
  lemma EachOnce(run: seq<Event>)
    requires Legal(Start(), run)
    ensures var z := Exec(Start(), run);
      && Chars(z.taken) + z.lines.committed == z.log
      && forall id :: id in z.readers ==> ReaderOk(z, id)
  {
    RunsKeep(Start(), run);
  }

  // ---------------------------------------------------------------- sleeping

  /** Sleeping makes no difference: a read that waits and goes on with what was committed since
      reads what it would have read if all had been there at once. */
  lemma {:induction false} SleepUnseen(a: seq<int>, b: seq<int>, n: int, got: int)
    requires n >= 0 && Read(a, n, got).2 == Wait
    ensures var o := Read(a, n, got).0;
      |o| <= n && Read(a + b, n, got) == Prefix(o, Read(b, n - |o|, got + |o|))
    decreases n
  {
    if a == [] {
      assert [] + b == b;
      PrefixNone(Read(b, n, got));
    } else {
      assert (a + b)[0] == a[0] && (a + b)[1..] == a[1..] + b;
      SleepUnseen(a[1..], b, n - 1, got + 1);
      var o := Read(a[1..], n - 1, got + 1).0;
      var rest := Read(b, n - 1 - |o|, got + 1 + |o|);
      assert [a[0]] + (o + rest.0) == [a[0]] + o + rest.0;
    }
  }
}
