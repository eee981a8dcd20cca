/**
The console input ring of `console.c`. Its three indices run freely through 32 bits; what lies
between them is a committed sequence, which readers may take, and a line being edited.
 */
module Console {
  import opened Arithmetic

  const LEN := 256
  const WORD := 0x1_0000_0000

  const KILL := 21       // ^U
  const ERASE := 8       // ^H
  const DELETE := 127
  const EOF := 4         // ^D
  const NEWLINE := 10
  const RETURN := 13

  // ---------------------------------------------------------------- the line discipline

  /** What readers may take, and what can still be edited. */
  datatype Lines = Lines(committed: seq<int>, edit: seq<int>)

  predicate Commits(c: int) { c == NEWLINE || c == EOF }

  function Translate(c: int): int { if c == RETURN then NEWLINE else c }

  /** console_storec on sequences. */
  function Store(l: Lines, c: int): Lines {
    if c == KILL then l.(edit := [])
    else if c == ERASE || c == DELETE then (if l.edit == [] then l else l.(edit := l.edit[..|l.edit| - 1]))
    else if c == 0 || |l.committed| + |l.edit| >= LEN then l
    else
      var edit := l.edit + [Translate(c)];
      if Commits(Translate(c)) || |l.committed| + |edit| == LEN then Lines(l.committed + edit, []) else l.(edit := edit)
  }

  /** A character read, or the reasons to stop. */
  datatype Outcome = Done | Wait

  /** console_read of at most n more characters when `got` have been read: what it takes, what is
      left, and if it must wait. */
  function Read(committed: seq<int>, n: int, got: int): (r: (seq<int>, seq<int>, Outcome))
    requires n >= 0
    decreases n
  {
    if n == 0 then ([], committed, Done)
    else if committed == [] then ([], committed, Wait)
    else
      var c := committed[0];
      if c == EOF then ([], if got > 0 then committed else committed[1..], Done)
      else if c == NEWLINE then ([c], committed[1..], Done)
      else var r := Read(committed[1..], n - 1, got + 1); ([c] + r.0, r.1, r.2)
  }

  ghost predicate LinesOk(l: Lines) {
    |l.committed| + |l.edit| <= LEN && (forall i :: 0 <= i < |l.edit| ==> !Commits(l.edit[i]))
    && (l.edit != [] ==> |l.committed| + |l.edit| < LEN)
  }

  /** The buffer never overflows, and the edited line never holds the end of a line or of the file. */
  lemma StoreOk(l: Lines, c: int)
    requires LinesOk(l)
    ensures LinesOk(Store(l, c)) && l.committed <= Store(l, c).committed
  {
  }

  /** Erasing and killing touch only characters that are not committed. */
  lemma EditOnly(l: Lines, c: int)
    requires c == KILL || c == ERASE || c == DELETE
    ensures Store(l, c).committed == l.committed && Store(l, c).edit <= l.edit
  {
  }

  /** A reader takes the next characters in order: they are what was committed first. */
  lemma {:induction false} ReadInOrder(committed: seq<int>, n: int, got: int)
    requires n >= 0 && got >= 0
    ensures var r := Read(committed, n, got);
      && |r.0| <= n
      && (committed == r.0 + r.1 || (got == 0 && r.0 == [] && committed == [EOF] + r.1 && r.2 == Done))
      && (r.2 == Wait ==> r.1 == [] && |r.0| < n)
    decreases n
  {
    if n > 0 && committed != [] && !Commits(committed[0]) {
      ReadInOrder(committed[1..], n - 1, got + 1);
      assert committed == [committed[0]] + committed[1..];
    }
  }

  // ---------------------------------------------------------------- the ring

  function Distance(a: int, b: int): int { (b - a) % WORD }

  /** n characters from position a on. */
  ghost function Window(buf: seq<int>, a: int, n: int): (w: seq<int>)
    requires |buf| == LEN && n >= 0
    ensures |w| == n
  {
    seq(n, k requires 0 <= k < n => buf[(a + k) % LEN])
  }

  lemma WindowSplit(buf: seq<int>, a: int, m: int, n: int)
    requires |buf| == LEN && m >= 0 && n >= 0
    ensures Window(buf, a, m + n) == Window(buf, a, m) + Window(buf, a + m, n)
  {
  }

  /** Positions count modulo the ring, so 32-bit wrap-around does not matter. */
  lemma WindowWrap(buf: seq<int>, a: int, n: int)
    requires |buf| == LEN && n >= 0
    ensures Window(buf, a % WORD, n) == Window(buf, a, n)
  {
    DropLow(a, LEN, WORD / LEN);
    forall k | 0 <= k < n ensures Window(buf, a % WORD, n)[k] == Window(buf, a, n)[k] {
      ModAdd(a % WORD, k, LEN);
      ModAdd(a, k, LEN);
    }
  }

  /** A character stored behind a window that is not full does not touch it. */
  lemma WindowStore(buf: seq<int>, a: int, n: int, c: int)
    requires |buf| == LEN && 0 <= n < LEN
    ensures Window(buf[(a + n) % LEN := c], a, n) == Window(buf, a, n)
    ensures Window(buf[(a + n) % LEN := c], a, n + 1) == Window(buf, a, n) + [c]
  {
    var buf' := buf[(a + n) % LEN := c];
    forall k | 0 <= k < n ensures Window(buf', a, n)[k] == Window(buf, a, n)[k] {
      assert (a + k) % LEN != (a + n) % LEN;
    }
  }

  lemma StepBack(w: int, e: int)
    requires 0 <= w < WORD && 0 <= e < WORD && e != w
    ensures Distance(w, (e - 1) % WORD) == Distance(w, e) - 1
  {
  }

  lemma StepOn(w: int, e: int)
    requires 0 <= w < WORD && 0 <= e < WORD && Distance(w, e) < WORD - 1
    ensures Distance(w, (e + 1) % WORD) == Distance(w, e) + 1
  {
  }

  lemma Leave(r: int, w: int)
    requires 0 <= r < WORD && 0 <= w < WORD && r != w
    ensures Distance((r + 1) % WORD, w) == Distance(r, w) - 1
  {
  }

  lemma AddDistance(r: int, w: int, e: int)
    requires 0 <= r < WORD && 0 <= w < WORD && 0 <= e < WORD && Distance(r, w) + Distance(w, e) < WORD
    ensures Distance(r, e) == Distance(r, w) + Distance(w, e) && e == (w + Distance(w, e)) % WORD
    ensures w == (r + Distance(r, w)) % WORD
  {
    WrapAround(w, e, Distance(w, e), WORD);
    WrapAround(r, w, Distance(r, w), WORD);
    DivUnique(e - r, WORD, (w - r) / WORD + (e - w) / WORD, Distance(r, w) + Distance(w, e));
  }

  /** What the indices delimit. */
  ghost function Between(buf: seq<int>, r: int, w: int, e: int): Lines
    requires |buf| == LEN
  {
    Lines(Window(buf, r, Distance(r, w)), Window(buf, w, Distance(w, e)))
  }

  ghost predicate Indices(r: int, w: int, e: int) {
    0 <= r < WORD && 0 <= w < WORD && 0 <= e < WORD && Distance(r, w) + Distance(w, e) <= LEN
  }

  /** Moving the edit index back drops the last character of the line. */
  lemma DropLast(buf: seq<int>, r: int, w: int, e: int)
    requires |buf| == LEN && Indices(r, w, e) && e != w
    ensures Indices(r, w, (e - 1) % WORD)
    ensures var l := Between(buf, r, w, e);
      l.edit != [] && Between(buf, r, w, (e - 1) % WORD) == Lines(l.committed, l.edit[..|l.edit| - 1])
    ensures var l := Between(buf, r, w, e); buf[(e - 1) % WORD % LEN] == l.edit[|l.edit| - 1]
  {
    StepBack(w, e);
    AddDistance(r, w, e);
    var n := Distance(w, e);
    assert Window(buf, w, n)[n - 1] == buf[(w + n - 1) % LEN];
    LastPosition(w, n, e);
  }

  lemma LastPosition(w: int, n: int, e: int)
    requires e == (w + n) % WORD && 0 < n
    ensures (e - 1) % WORD % LEN == (w + n - 1) % LEN
  {
    ModAdd(w + n, -1, WORD);
    DropLow(w + n - 1, LEN, WORD / LEN);
  }

  /** Storing a character at the edit index adds it to the line. */
  lemma AddLast(buf: seq<int>, r: int, w: int, e: int, c: int)
    requires |buf| == LEN && Indices(r, w, e) && Distance(r, e) < LEN
    ensures Indices(r, w, (e + 1) % WORD)
    ensures var l := Between(buf, r, w, e);
      Between(buf[e % LEN := c], r, w, (e + 1) % WORD) == Lines(l.committed, l.edit + [c])
    ensures Distance(r, e) == Distance(r, w) + Distance(w, e)
  {
    AddDistance(r, w, e);
    StepOn(w, e);
    var n, m := Distance(r, w), Distance(w, e);
    EditPosition(r, w, e, n, m);
    WindowSplit(buf, r, n, m);
    WindowWrap(buf, r + n, m);
    WindowStore(buf, r, n + m, c);
    WindowSplit(buf[e % LEN := c], r, n, m + 1);
    WindowWrap(buf[e % LEN := c], r + n, m + 1);
    SplitEqual(buf, buf[e % LEN := c], r, n, m, c);
  }

  lemma EditPosition(r: int, w: int, e: int, n: int, m: int)
    requires w == (r + n) % WORD && e == (w + m) % WORD
    ensures e % LEN == (r + (n + m)) % LEN
  {
    DropLow(w + m, LEN, WORD / LEN);
    DropLow(r + n, LEN, WORD / LEN);
    ModAdd(w, m, LEN);
    ModAdd(r + n, m, LEN);
  }

  lemma SplitEqual(buf: seq<int>, buf': seq<int>, r: int, n: int, m: int, c: int)
    requires |buf| == LEN == |buf'| && n >= 0 && m >= 0
    requires Window(buf', r, n) + Window(buf', r + n, m + 1) == Window(buf, r, n) + Window(buf, r + n, m) + [c]
    ensures Window(buf', r, n) == Window(buf, r, n) && Window(buf', r + n, m + 1) == Window(buf, r + n, m) + [c]
  {
    var u, v := Window(buf', r, n) + Window(buf', r + n, m + 1), Window(buf, r, n) + Window(buf, r + n, m) + [c];
    assert u[..n] == Window(buf', r, n) && v[..n] == Window(buf, r, n);
    assert u[n..] == Window(buf', r + n, m + 1) && v[n..] == Window(buf, r + n, m) + [c];
  }

  /** Committing moves the line to the committed characters. */
  lemma CommitAll(buf: seq<int>, r: int, w: int, e: int)
    requires |buf| == LEN && Indices(r, w, e)
    ensures Indices(r, e, e)
    ensures var l := Between(buf, r, w, e); Between(buf, r, e, e) == Lines(l.committed + l.edit, [])
  {
    AddDistance(r, w, e);
    WindowSplit(buf, r, Distance(r, w), Distance(w, e));
    WindowWrap(buf, r + Distance(r, w), Distance(w, e));
  }

  /** Reading takes the first committed character. */
  lemma NoneCommitted(buf: seq<int>, r: int, e: int)
    requires |buf| == LEN && Indices(r, r, e)
    ensures Between(buf, r, r, e).committed == []
  {
  }

  lemma TakeFirst(buf: seq<int>, r: int, w: int, e: int)
    requires |buf| == LEN && Indices(r, w, e) && r != w
    ensures Indices((r + 1) % WORD, w, e)
    ensures Between(buf, r, w, e).committed != [] && buf[r % LEN] == Between(buf, r, w, e).committed[0]
    ensures Between(buf, (r + 1) % WORD, w, e) ==
      Lines(Between(buf, r, w, e).committed[1..], Between(buf, r, w, e).edit)
  {
    Leave(r, w);
    WindowSplit(buf, r, 1, Distance(r, w) - 1);
    WindowWrap(buf, r + 1, Distance(r, w) - 1);
    assert Window(buf, r, 1) == [buf[r % LEN]];
  }

  /** The line is empty exactly if the indices meet, and does not end in a newline. */
  lemma EditLength(buf: seq<int>, r: int, w: int, e: int)
    requires |buf| == LEN && Indices(r, w, e) && LinesOk(Between(buf, r, w, e))
    ensures e == w <==> Between(buf, r, w, e).edit == []
    ensures e != w ==> buf[(e - 1) % WORD % LEN] != NEWLINE
  {
    if e != w { DropLast(buf, r, w, e); }
  }

  class Input {
    const buf: array<int>
    var r: int
    var w: int
    var e: int
    /** All characters ever committed, and all that readers have taken. */
    ghost var log: seq<int>
    ghost var taken: seq<int>

    ghost function L(): Lines
      requires buf.Length == LEN
      reads this, buf
    {
      Between(buf[..], r, w, e)
    }

    ghost predicate Valid()
      reads this, buf
    {
      buf.Length == LEN && Indices(r, w, e) && LinesOk(L()) && log == taken + L().committed
    }

    /** An empty ring, wherever its indices start. */
    constructor (start: int)
      requires 0 <= start < WORD
      ensures Valid() && fresh(buf) && L() == Lines([], []) && log == []
    {
      buf := new int[LEN];
      r, w, e := start, start, start;
      log, taken := [], [];
    }

    /** The loop of ^U: the whole line goes. */
    method Kill()
      requires Valid()
      modifies this`e
      ensures Valid() && L() == Lines(old(L()).committed, [])
    {
      while e != w && buf[(e - 1) % WORD % LEN] != NEWLINE
        invariant Valid() && L().committed == old(L()).committed
        decreases |L().edit|
      {
        EditLength(buf[..], r, w, e);
        Erase();
      }
      EditLength(buf[..], r, w, e);
    }

    method Erase()
      requires Valid()
      modifies this`e
      ensures Valid() && L() == Store(old(L()), ERASE)
    {
      if e != w {
        DropLast(buf[..], r, w, e);
        e := (e - 1) % WORD;
      }
    }

    /** A character that is neither of the editing ones. */
    method Insert(ch: int)
      requires Valid() && ch != KILL && ch != ERASE && ch != DELETE
      modifies this`e, this`w, this`log, buf
      ensures Valid() && L() == Store(old(L()), ch) && log == taken + L().committed
    {
      StoreOk(L(), ch);
      AddDistance(r, w, e);
      if ch != 0 && Distance(r, e) < LEN {
        var c := Translate(ch);
        AddLast(buf[..], r, w, e, c);
        ghost var before := buf[..];
        buf[e % LEN] := c;
        assert buf[..] == before[e % LEN := c];
        e := (e + 1) % WORD;
        Full(r, w, e);
        if c == NEWLINE || c == EOF || e == (r + LEN) % WORD {
          CommitAll(buf[..], r, w, e);
          w := e;
        }
        log := taken + L().committed;
      }
    }

    /** console_storec refines the line discipline. Nothing committed is lost or changed. */
    method Storec(ch: int)
      requires Valid()
      modifies this`e, this`w, this`log, buf
      ensures Valid() && L() == Store(old(L()), ch) && old(log) <= log
    {
      StoreOk(L(), ch);
      if ch == KILL {
        Kill();
      } else if ch == ERASE || ch == DELETE {
        Erase();
      } else {
        Insert(ch);
      }
    }

    /**
    The loop of console_read, from its start or from where it waited with `got` characters read,
    up to the point where it must wait (again) or is done.
     */
    method ReadOn(size: int, got: int) returns (out: seq<int>, outcome: Outcome)
      requires Valid() && 0 <= got <= size
      modifies this`r, this`taken
      ensures Valid() && log == old(log) && old(taken) <= taken && L().edit == old(L()).edit
      ensures Read(old(L()).committed, size - got, got) == (out, L().committed, outcome)
    {
      hide Between;
      hide LinesOk;
      hide Prefix;
      out := [];
      var n := size - got;
      ghost var all := Read(L().committed, n, got);
      PrefixNone(all);
      while n > 0
        invariant Valid() && log == old(log) && 0 <= n <= size && got + |out| == size - n
        invariant L().edit == old(L()).edit && old(taken) <= taken
        invariant all == Prefix(out, Read(L().committed, n, got + |out|))
        decreases n
      {
        PrefixEnd(out, L().committed);
        if r == w {
          NoneCommitted(buf[..], r, e);
          outcome := Wait;
          return;
        }
        TakeFirst(buf[..], r, w, e);
        var c := buf[r % LEN];
        if c == EOF {
          if n == size {
            Advance();
          }
          return out, Done;
        }
        Advance();
        PrefixStep(out, c, Read(L().committed, n - 1, got + |out| + 1));
        out := out + [c];
        n := n - 1;
        if c == NEWLINE {
          PrefixOne(out[..|out| - 1], c, L().committed);
          return out, Done;
        }
      }
      PrefixEnd(out, L().committed);
      outcome := Done;
    }

    /** input.r++: one committed character is taken. */
    method Advance()
      requires Valid() && r != w
      modifies this`r, this`taken
      ensures Valid() && log == old(log) && old(taken) <= taken && old(L()).committed != []
      ensures L() == Lines(old(L()).committed[1..], old(L()).edit)
    {
      TakeFirst(buf[..], r, w, e);
      ghost var l := L();
      r := (r + 1) % WORD;
      taken := taken + [l.committed[0]];
      assert l.committed == [l.committed[0]] + l.committed[1..];
    }
  }

  /** What a read has taken before, in front of what it takes then. */
  function Prefix(out: seq<int>,
                  r: (seq<int>, seq<int>, Outcome)): (seq<int>, seq<int>, Outcome) { (out + r.0, r.1, r.2) }

  lemma PrefixNone(r: (seq<int>, seq<int>, Outcome))
    ensures Prefix([], r) == r
  {
    assert [] + r.0 == r.0;
  }

  lemma PrefixEnd(out: seq<int>, rest: seq<int>)
    ensures forall o :: Prefix(out, ([], rest, o)) == (out, rest, o)
    ensures rest != [] ==> Prefix(out, ([], rest[1..], Done)) == (out, rest[1..], Done)
  {
    assert out + [] == out;
  }

  lemma PrefixOne(out: seq<int>, c: int, rest: seq<int>)
    ensures Prefix(out, ([c], rest, Done)) == (out + [c], rest, Done)
  {
  }

  lemma PrefixStep(out: seq<int>, c: int, r: (seq<int>, seq<int>, Outcome))
    ensures Prefix(out, ([c] + r.0, r.1, r.2)) == Prefix(out + [c], r)
  {
    assert out + ([c] + r.0) == out + [c] + r.0;
  }

  /** The test for a full ring, in 32 bits. */
  lemma Full(r: int, w: int, e: int)
    requires Indices(r, w, e)
    ensures e == (r + LEN) % WORD <==> Distance(r, w) + Distance(w, e) == LEN
  {
    AddDistance(r, w, e);
    WrapAround(r, e, LEN, WORD);
  }
}
