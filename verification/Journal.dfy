/**
The write-ahead journal of `jbd.c`, and what a crash between any two of its block writes
leaves behind.

A block is a sequence of 128 words. A block write is atomic. `Recover` is what a mount
would make of the disk by replaying the journal: it is the specification of recovery.
 */
module Journal {
  const JOURNAL_SIZE := 128
  const BLK_WORDS := 128
  const HEADER := 0
  const BMAP := 1
  const JDATA := 2

  type Disk = map<int, seq<int>>

  datatype Write = Write(blk: int, data: seq<int>)

  predicate InJournal(start: int, b: int) { start <= b < start + JDATA + JOURNAL_SIZE }

  /** The disk after the block writes ws. */
  ghost function Apply(d: Disk, ws: seq<Write>): Disk {
    if ws == [] then d
    else var w := ws[|ws| - 1]; Apply(d, ws[..|ws| - 1])[w.blk := w.data]
  }

  /** The blocks of the file system proper. */
  ghost function Home(start: int, d: Disk): Disk { map b | b in d && !InJournal(start, b) :: d[b] }

  ghost predicate DiskOk(start: int, d: Disk) {
    && (forall b :: InJournal(start, b) ==> b in d)
    && (forall b :: b in d ==> |d[b]| == BLK_WORDS)
  }

  /** The number of logged blocks the header announces. */
  ghost function Logged(start: int, d: Disk): int
    requires DiskOk(start, d)
  {
    d[start + HEADER][0]
  }

  /** The first n logged blocks written to where the block map says. */
  ghost function Replay(start: int, d: Disk, n: int): Disk
    requires DiskOk(start, d) && 0 <= n <= JOURNAL_SIZE
  {
    if n == 0 then d
    else Replay(start, d, n - 1)[d[start + BMAP][n - 1] := d[start + JDATA + n - 1]]
  }

  /** The file system that recovery finds, if the header is sane. */
  ghost predicate Sane(start: int, d: Disk) {
    DiskOk(start, d) && 0 <= Logged(start, d) <= JOURNAL_SIZE
  }

  ghost function Recover(start: int, d: Disk): Disk
    requires Sane(start, d)
  {
    Home(start, Replay(start, d, Logged(start, d)))
  }

  // ---------------------------------------------------------------- the writes of a commit

  /** A block of the file system, with its new contents. */
  ghost predicate WriteOk(start: int, d: Disk, w: Write) {
    w.blk in d && !InJournal(start, w.blk) && |w.data| == BLK_WORDS
  }

  ghost predicate LogOk(start: int, d: Disk, log: seq<Write>) {
    |log| <= JOURNAL_SIZE && forall i :: 0 <= i < |log| ==> WriteOk(start, d, log[i])
  }

  /** write_journal_blks, first loop. */
  ghost function DataWrites(start: int, log: seq<Write>): (ws: seq<Write>)
    ensures |ws| == |log|
  {
    seq(|log|, i requires 0 <= i < |log| => Write(start + JDATA + i, log[i].data))
  }

  ghost function Blks(log: seq<Write>): (s: seq<int>)
    ensures |s| == |log|
  {
    seq(|log|, i requires 0 <= i < |log| => log[i].blk)
  }

  /** The block map keeps the words past the logged blocks. */
  ghost function BmapWrite(start: int, d: Disk, log: seq<Write>): Write
    requires DiskOk(start, d) && |log| <= JOURNAL_SIZE
  {
    Write(start + BMAP, Blks(log) + d[start + BMAP][|log|..])
  }

  ghost function HeaderWrite(start: int, d: Disk, n: int): Write
    requires DiskOk(start, d)
  {
    Write(start + HEADER, [n] + d[start + HEADER][1..])
  }

  /** All writes of one commit, in order. */
  ghost function CommitWrites(start: int, d: Disk, log: seq<Write>): (ws: seq<Write>)
    requires DiskOk(start, d) && |log| <= JOURNAL_SIZE
    ensures |ws| == 2 * |log| + 3
  {
    DataWrites(start, log) + [BmapWrite(start, d, log), HeaderWrite(start, d, |log|)] + log + [HeaderWrite(start, d, 0)]
  }

  // ---------------------------------------------------------------- sequences of writes

  lemma {:induction false} ApplyConcat(d: Disk, a: seq<Write>, b: seq<Write>)
    ensures Apply(d, a + b) == Apply(Apply(d, a), b)
    decreases |b|
  {
    if b == [] {
      assert a + b == a;
    } else {
      ApplyConcat(d, a, b[..|b| - 1]);
      assert (a + b)[..|a + b| - 1] == a + b[..|b| - 1];
    }
  }

  lemma ApplySnoc(d: Disk, ws: seq<Write>, w: Write)
    ensures Apply(d, ws + [w]) == Apply(d, ws)[w.blk := w.data]
  {
    assert (ws + [w])[..|ws|] == ws;
  }

  ghost predicate Touches(ws: seq<Write>, b: int) { exists i :: 0 <= i < |ws| && ws[i].blk == b }

  /** Blocks that are not written keep their contents. */
  lemma {:induction false} ApplyElsewhere(d: Disk, ws: seq<Write>, b: int)
    requires !Touches(ws, b)
    ensures b in Apply(d, ws) <==> b in d
    ensures b in d ==> Apply(d, ws)[b] == d[b]
    decreases |ws|
  {
    if ws != [] {
      var i := |ws| - 1;
      assert ws[i].blk != b;
      assert forall j :: 0 <= j < i ==> ws[..i][j] == ws[j];
      ApplyElsewhere(d, ws[..i], b);
    }
  }

  /** Two disks that differ only where ws writes are equal after it. */
  lemma {:induction false} ApplyOver(d: Disk, e: Disk, ws: seq<Write>, b: int)
    requires b in d <==> b in e
    requires b in d && !Touches(ws, b) ==> d[b] == e[b]
    ensures b in Apply(d, ws) <==> b in Apply(e, ws)
    ensures b in Apply(d, ws) ==> Apply(d, ws)[b] == Apply(e, ws)[b]
    decreases |ws|
  {
    if ws != [] {
      var i := |ws| - 1;
      if ws[i].blk != b {
        assert forall j :: 0 <= j < i ==> ws[..i][j] == ws[j];
        if Touches(ws, b) {
          var k :| 0 <= k < |ws| && ws[k].blk == b;
          assert ws[..i][k].blk == b;
        }
        ApplyOver(d, e, ws[..i], b);
      }
    }
  }

  /** Writing a log again after any part of it was written makes no difference. */
  lemma ApplyAgain(start: int, d: Disk, log: seq<Write>, j: int)
    requires LogOk(start, d, log) && 0 <= j <= |log|
    ensures Apply(Apply(d, log[..j]), log) == Apply(d, log)
  {
    var e := Apply(d, log[..j]);
    SameBlocks(start, d, log[..j]);
    SameBlocks(start, d, log);
    SameBlocks(start, e, log);
    forall b | b in d ensures Apply(e, log)[b] == Apply(d, log)[b] {
      if !Touches(log, b) {
        assert forall i :: 0 <= i < j ==> log[..j][i] == log[i];
        ApplyElsewhere(d, log[..j], b);
      }
      ApplyOver(e, d, log, b);
    }
  }

  /** Writes to existing blocks keep the disk well-formed. */
  lemma {:induction false} SameBlocks(start: int, d: Disk, ws: seq<Write>)
    requires forall i :: 0 <= i < |ws| ==> ws[i].blk in d
    ensures Apply(d, ws).Keys == d.Keys
    decreases |ws|
  {
    if ws != [] {
      assert forall j :: 0 <= j < |ws| - 1 ==> ws[..|ws| - 1][j] == ws[j];
      SameBlocks(start, d, ws[..|ws| - 1]);
    }
  }

  lemma {:induction false} KeepsOk(start: int, d: Disk, ws: seq<Write>)
    requires DiskOk(start, d) && forall i :: 0 <= i < |ws| ==> ws[i].blk in d && |ws[i].data| == BLK_WORDS
    ensures DiskOk(start, Apply(d, ws)) && Apply(d, ws).Keys == d.Keys
    decreases |ws|
  {
    if ws != [] {
      assert forall j :: 0 <= j < |ws| - 1 ==> ws[..|ws| - 1][j] == ws[j];
      KeepsOk(start, d, ws[..|ws| - 1]);
    }
  }

  /** Writes outside the journal are writes to the file system. */
  lemma {:induction false} HomeApply(start: int, d: Disk, ws: seq<Write>)
    requires forall i :: 0 <= i < |ws| ==> !InJournal(start, ws[i].blk)
    ensures Home(start, Apply(d, ws)) == Apply(Home(start, d), ws)
    decreases |ws|
  {
    if ws != [] {
      var i := |ws| - 1;
      assert !InJournal(start, ws[i].blk);
      assert forall j :: 0 <= j < i ==> ws[..i][j] == ws[j];
      HomeApply(start, d, ws[..i]);
    }
  }

  /** Writes inside the journal are not seen by the file system. */
  lemma {:induction false} HomeUntouched(start: int, d: Disk, ws: seq<Write>)
    requires forall i :: 0 <= i < |ws| ==> InJournal(start, ws[i].blk)
    ensures Home(start, Apply(d, ws)) == Home(start, d)
    decreases |ws|
  {
    if ws != [] {
      var i := |ws| - 1;
      assert InJournal(start, ws[i].blk);
      assert forall j :: 0 <= j < i ==> ws[..i][j] == ws[j];
      HomeUntouched(start, d, ws[..i]);
    }
  }

  // ---------------------------------------------------------------- one commit

  /** The journal is empty. */
  ghost predicate Clean(start: int, d: Disk) { DiskOk(start, d) && Logged(start, d) == 0 }

  /** The journal holds the whole log. */
  ghost predicate Holds(start: int, d: Disk, log: seq<Write>) {
    && DiskOk(start, d) && Logged(start, d) == |log| <= JOURNAL_SIZE
    && (forall i :: 0 <= i < |log| ==> d[start + BMAP][i] == log[i].blk)
    && (forall i :: 0 <= i < |log| ==> d[start + JDATA + i] == log[i].data)
  }

  lemma {:induction false} ReplayHolds(start: int, d: Disk, log: seq<Write>, n: int)
    requires Holds(start, d, log) && 0 <= n <= |log|
    ensures Replay(start, d, n) == Apply(d, log[..n])
    decreases n
  {
    if n > 0 {
      ReplayHolds(start, d, log, n - 1);
      assert log[..n] == log[..n - 1] + [log[n - 1]];
      ApplySnoc(d, log[..n - 1], log[n - 1]);
    }
  }

  /** Recovery of a full journal writes the log. */
  lemma RecoverHolds(start: int, d: Disk, log: seq<Write>)
    requires Holds(start, d, log) && LogOk(start, d, log)
    ensures Recover(start, d) == Apply(Home(start, d), log)
  {
    ReplayHolds(start, d, log, |log|);
    assert log[..|log|] == log;
    HomeApply(start, d, log);
  }

  /** Before the header is written, recovery finds the old state. */
  lemma BeforeHeader(start: int, d: Disk, ws: seq<Write>)
    requires Clean(start, d)
    requires forall i :: 0 <= i < |ws| ==>
      InJournal(start, ws[i].blk) && ws[i].blk != start + HEADER && |ws[i].data| == BLK_WORDS
    ensures Clean(start, Apply(d, ws)) && Recover(start, Apply(d, ws)) == Home(start, d)
  {
    KeepsOk(start, d, ws);
    HomeUntouched(start, d, ws);
    ApplyElsewhere(d, ws, start + HEADER);
  }

  lemma {:induction false} DataWritten(start: int, d: Disk, log: seq<Write>, n: int, i: int)
    requires 0 <= i < n <= |log|
    ensures start + JDATA + i in Apply(d, DataWrites(start, log)[..n])
    ensures Apply(d, DataWrites(start, log)[..n])[start + JDATA + i] == log[i].data
    decreases n
  {
    var ws := DataWrites(start, log);
    assert ws[..n] == ws[..n - 1] + [ws[n - 1]];
    ApplySnoc(d, ws[..n - 1], ws[n - 1]);
    if i < n - 1 { DataWritten(start, d, log, n - 1, i); }
  }

  /** The data and the block map, as `write_journal_blks` writes them. */
  ghost function LogWrites(start: int, d: Disk, log: seq<Write>): seq<Write>
    requires DiskOk(start, d) && |log| <= JOURNAL_SIZE
  {
    DataWrites(start, log) + [BmapWrite(start, d, log)]
  }

  lemma LogWritesInJournal(start: int, d: Disk, log: seq<Write>, i: int)
    requires DiskOk(start, d) && LogOk(start, d, log) && 0 <= i <= |log|
    ensures var w := LogWrites(start, d, log)[i];
      InJournal(start, w.blk) && w.blk != start + HEADER && |w.data| == BLK_WORDS
  {
    if i < |log| { assert WriteOk(start, d, log[i]); }
  }

  /** Once the header is written, the journal holds the log. */
  lemma AfterHeader(start: int, d: Disk, log: seq<Write>)
    requires Clean(start, d) && LogOk(start, d, log)
    ensures var e := Apply(d, LogWrites(start, d, log) + [HeaderWrite(start, d, |log|)]);
      Holds(start, e, log) && Home(start, e) == Home(start, d) && e.Keys == d.Keys
  {
    var ws, h := DataWrites(start, log), HeaderWrite(start, d, |log|);
    var lw := LogWrites(start, d, log);
    forall i | 0 <= i <= |log| ensures InJournal(start, lw[i].blk) && |lw[i].data| == BLK_WORDS {
      LogWritesInJournal(start, d, log, i);
    }
    assert forall i :: 0 <= i < |lw| ==> (lw + [h])[i] == lw[i];
    KeepsOk(start, d, lw + [h]);
    HomeUntouched(start, d, lw + [h]);
    ApplySnoc(d, ws, BmapWrite(start, d, log));
    ApplySnoc(d, lw, h);
    forall i | 0 <= i < |log| ensures Apply(d, lw + [h])[start + JDATA + i] == log[i].data {
      DataWritten(start, d, log, |log|, i);
      assert ws[..|log|] == ws;
    }
  }

  /** While the log is written home, the journal still holds it, and recovery finds the new state. */
  lemma WhileApplying(start: int, d: Disk, log: seq<Write>, j: int)
    requires Holds(start, d, log) && LogOk(start, d, log) && 0 <= j <= |log|
    ensures Holds(start, Apply(d, log[..j]), log)
    ensures Recover(start, Apply(d, log[..j])) == Apply(Home(start, d), log)
  {
    var ws := log[..j];
    var e := Apply(d, ws);
    assert forall i :: 0 <= i < j ==> ws[i] == log[i];
    KeepsOk(start, d, ws);
    forall b | InJournal(start, b) ensures e[b] == d[b] { ApplyElsewhere(d, ws, b); }
    RecoverHolds(start, e, log);
    HomeApply(start, d, ws);
    HomeLog(start, d, log);
    ApplyAgain(start, Home(start, d), log, j);
  }

  lemma HomeLog(start: int, d: Disk, log: seq<Write>)
    requires LogOk(start, d, log)
    ensures LogOk(start, Home(start, d), log)
  {
    forall i | 0 <= i < |log| ensures WriteOk(start, Home(start, d), log[i]) { assert WriteOk(start, d, log[i]); }
  }

  /** Erasing the header leaves the file system as it is. */
  lemma Erased(start: int, d: Disk, c: Disk)
    requires DiskOk(start, d) && DiskOk(start, c)
    ensures var e := Apply(d, [HeaderWrite(start, c, 0)]);
      Clean(start, e) && Home(start, e) == Home(start, d) == Recover(start, e) && e.Keys == d.Keys
  {
    var ws := [HeaderWrite(start, c, 0)];
    KeepsOk(start, d, ws);
    HomeUntouched(start, d, ws);
    ApplySnoc(d, [], ws[0]);
    assert [] + ws == ws;
  }

  lemma CommitParts(start: int, d: Disk, log: seq<Write>)
    requires DiskOk(start, d) && |log| <= JOURNAL_SIZE
    ensures CommitWrites(start, d, log) ==
      ((LogWrites(start, d, log) + [HeaderWrite(start, d, |log|)]) + log) + [HeaderWrite(start, d, 0)]
  {
  }

  /** A complete commit: the new state is on disk and the journal is empty again. */
  lemma CommitDone(start: int, d: Disk, log: seq<Write>)
    requires Clean(start, d) && LogOk(start, d, log)
    ensures var e := Apply(d, CommitWrites(start, d, log));
      && Clean(start, e) && e.Keys == d.Keys
      && Home(start, e) == Recover(start, e) == Apply(Home(start, d), log)
  {
    CommitParts(start, d, log);
    hide Apply;
    hide Recover;
    hide CommitWrites;
    hide LogWrites;
    hide Holds;
    var head := LogWrites(start, d, log) + [HeaderWrite(start, d, |log|)];
    var e := Apply(d, head);
    AfterHeader(start, d, log);
    ApplyConcat(d, head, log);
    ApplyConcat(d, head + log, [HeaderWrite(start, d, 0)]);
    KeepsOk(start, e, log);
    HomeApply(start, e, log);
    Erased(start, Apply(e, log), d);
  }

  /**
  A crash after any k of the writes of a commit: recovery finds the old state up to the
  write of the header, and the new state from then on.
   */
  lemma CommitAtomic(start: int, d: Disk, log: seq<Write>, k: int)
    requires Clean(start, d) && LogOk(start, d, log) && 0 <= k <= |CommitWrites(start, d, log)|
    ensures var e := Apply(d, CommitWrites(start, d, log)[..k]);
      Sane(start, e) && Recover(start, e) == if k <= |log| + 1 then Home(start, d) else Apply(Home(start, d), log)
  {
    var n, cw := |log|, CommitWrites(start, d, log);
    var lw := LogWrites(start, d, log);
    if k <= n + 1 {
      assert cw[..k] == lw[..k];
      forall i | 0 <= i < k
        ensures InJournal(start, lw[..k][i].blk) && lw[..k][i].blk != start + HEADER && |lw[..k][i].data| == BLK_WORDS
      {
        LogWritesInJournal(start, d, log, i);
      }
      BeforeHeader(start, d, lw[..k]);
    } else if k <= 2 * n + 2 {
      var head, j := lw + [HeaderWrite(start, d, n)], k - (n + 2);
      assert cw[..k] == head + log[..j];
      ApplyConcat(d, head, log[..j]);
      AfterHeader(start, d, log);
      WhileApplying(start, Apply(d, head), log, j);
    } else {
      assert cw[..k] == cw;
      CommitDone(start, d, log);
    }
  }

  // ---------------------------------------------------------------- runs of transactions

  /** The writes of a transaction: none if it logged nothing. */
  ghost function TxnWrites(start: int, d: Disk, log: seq<Write>): seq<Write>
    requires DiskOk(start, d) && |log| <= JOURNAL_SIZE
  {
    if log == [] then [] else CommitWrites(start, d, log)
  }

  ghost predicate TxnsOk(start: int, d: Disk, txns: seq<seq<Write>>) {
    forall i :: 0 <= i < |txns| ==> LogOk(start, d, txns[i])
  }

  lemma TxnDone(start: int, d: Disk, log: seq<Write>)
    requires Clean(start, d) && LogOk(start, d, log)
    ensures var e := Apply(d, TxnWrites(start, d, log));
      && Clean(start, e) && e.Keys == d.Keys
      && Home(start, e) == Recover(start, e) == Apply(Home(start, d), log)
  {
    if log != [] { CommitDone(start, d, log); }
  }

  /** The block writes of a run of transactions. */
  ghost function RunWrites(start: int, d: Disk, txns: seq<seq<Write>>): seq<Write>
    requires Clean(start, d) && TxnsOk(start, d, txns)
    decreases |txns|
  {
    if txns == [] then []
    else
      TxnDone(start, d, txns[0]);
      var ws := TxnWrites(start, d, txns[0]);
      ws + RunWrites(start, Apply(d, ws), txns[1..])
  }

  /** The file system after the first n transactions. */
  ghost function After(home: Disk, txns: seq<seq<Write>>, n: int): Disk
    requires 0 <= n <= |txns|
    decreases n
  {
    if n == 0 then home else After(Apply(home, txns[0]), txns[1..], n - 1)
  }

  /** How many transactions are wholly among the first k writes. */
  ghost function Completed(txns: seq<seq<Write>>, k: int): (n: int)
    ensures 0 <= n <= |txns|
    decreases |txns|
  {
    if txns == [] then 0
    else
      var l := if txns[0] == [] then 0 else 2 * |txns[0]| + 3;
      if k < l then 0 else 1 + Completed(txns[1..], k - l)
  }

  /** A crash inside the first transaction. */
  lemma FirstCut(start: int, d: Disk, txns: seq<seq<Write>>, k: int) returns (n: int)
    requires Clean(start, d) && TxnsOk(start, d, txns) && txns != [] && 0 <= k < |TxnWrites(start, d, txns[0])|
    ensures 0 <= n <= 1 && k <= |RunWrites(start, d, txns)|
    ensures var e := Apply(d, RunWrites(start, d, txns)[..k]);
      Sane(start, e) && Recover(start, e) == After(Home(start, d), txns, n)
  {
    var log, ws := txns[0], TxnWrites(start, d, txns[0]);
    TxnDone(start, d, log);
    CommitAtomic(start, d, log, k);
    FirstTxn(Home(start, d), txns);
    hide Apply;
    hide Recover;
    hide Home;
    assert RunWrites(start, d, txns)[..k] == ws[..k];
    n := if k <= |log| + 1 then 0 else 1;
  }

  lemma NoTxns(start: int, d: Disk, k: int)
    requires Clean(start, d) && 0 <= k <= |RunWrites(start, d, [])|
    ensures Completed([], k) == 0 && Sane(start, Apply(d, RunWrites(start, d, [])[..k]))
    ensures Recover(start, Apply(d, RunWrites(start, d, [])[..k])) == After(Home(start, d), [], 0)
  {
    assert RunWrites(start, d, [])[..k] == [];
  }

  lemma AfterNext(home: Disk, txns: seq<seq<Write>>, n: int)
    requires txns != [] && 0 <= n < |txns|
    ensures After(home, txns, n + 1) == After(Apply(home, txns[0]), txns[1..], n)
  {
  }

  /**
  A crash anywhere in a run of transactions: recovery finds the state after some number of
  whole transactions, all the completed ones and at most one more.
   */
  lemma {:induction false} RunAtomic(start: int, d: Disk, txns: seq<seq<Write>>, k: int) returns (n: int)
    requires Clean(start, d) && TxnsOk(start, d, txns) && 0 <= k <= |RunWrites(start, d, txns)|
    ensures Completed(txns, k) <= n <= Completed(txns, k) + 1 && n <= |txns|
    ensures var e := Apply(d, RunWrites(start, d, txns)[..k]);
      Sane(start, e) && Recover(start, e) == After(Home(start, d), txns, n)
    decreases |txns|
  {
    hide Apply;
    hide Recover;
    hide Home;
    hide RunWrites;
    hide After;
    hide Completed;
    hide TxnWrites;
    hide Sane;
    if txns == [] {
      NoTxns(start, d, k);
      return 0;
    }
    CompletedStep(start, d, txns, k);
    var ws := TxnWrites(start, d, txns[0]);
    if k < |ws| {
      n := FirstCut(start, d, txns, k);
    } else {
      RunSplit(start, d, txns, k);
      var m := RunAtomic(start, Apply(d, ws), txns[1..], k - |ws|);
      AfterNext(Home(start, d), txns, m);
      n := m + 1;
    }
  }

  /** A cut beyond the first transaction is a cut in the rest of the run. */
  lemma RunSplit(start: int, d: Disk, txns: seq<seq<Write>>, k: int)
    requires Clean(start, d) && TxnsOk(start, d, txns) && txns != []
    requires |TxnWrites(start, d, txns[0])| <= k <= |RunWrites(start, d, txns)|
    ensures var ws := TxnWrites(start, d, txns[0]);
      var e := Apply(d, ws);
      && Clean(start, e) && TxnsOk(start, e, txns[1..]) && Home(start, e) == Apply(Home(start, d), txns[0])
      && k - |ws| <= |RunWrites(start, e, txns[1..])|
      && Apply(d, RunWrites(start, d, txns)[..k]) == Apply(e, RunWrites(start, e, txns[1..])[..k - |ws|])
  {
    hide Apply;
    hide TxnWrites;
    hide Recover;
    hide Home;
    var ws := TxnWrites(start, d, txns[0]);
    TxnDone(start, d, txns[0]);
    LaterOk(start, d, Apply(d, ws), txns);
    var rest := RunWrites(start, Apply(d, ws), txns[1..]);
    assert RunWrites(start, d, txns) == ws + rest;
    assert (ws + rest)[..k] == ws + rest[..k - |ws|];
    ApplyConcat(d, ws, rest[..k - |ws|]);
  }

  lemma SameLogOk(start: int, d: Disk, e: Disk, log: seq<Write>)
    requires LogOk(start, d, log) && e.Keys == d.Keys
    ensures LogOk(start, e, log)
  {
    forall j | 0 <= j < |log| ensures WriteOk(start, e, log[j]) { assert WriteOk(start, d, log[j]); }
  }

  lemma CompletedStep(start: int, d: Disk, txns: seq<seq<Write>>, k: int)
    requires txns != [] && Clean(start, d) && TxnsOk(start, d, txns)
    ensures var l := |TxnWrites(start, d, txns[0])|;
      Completed(txns, k) == if k < l then 0 else 1 + Completed(txns[1..], k - l)
  {
  }

  lemma LaterOk(start: int, d: Disk, e: Disk, txns: seq<seq<Write>>)
    requires TxnsOk(start, d, txns) && txns != [] && e.Keys == d.Keys
    ensures TxnsOk(start, e, txns[1..])
  {
    forall i | 0 <= i < |txns| - 1 ensures LogOk(start, e, txns[1..][i]) {
      assert LogOk(start, d, txns[i + 1]);
      SameLogOk(start, d, e, txns[i + 1]);
    }
  }

  lemma FirstTxn(home: Disk, txns: seq<seq<Write>>)
    requires txns != []
    ensures After(home, txns, 0) == home && After(home, txns, 1) == Apply(home, txns[0])
  {
    assert After(Apply(home, txns[0]), txns[1..], 0) == Apply(home, txns[0]);
  }

  // ---------------------------------------------------------------- the journal

  /** The logged blocks with their contents in the buffer cache. */
  ghost function Log(datablks: seq<int>, cache: Disk): (log: seq<Write>)
    requires forall i :: 0 <= i < |datablks| ==> datablks[i] in cache
    ensures |log| == |datablks|
  {
    seq(|datablks|, i requires 0 <= i < |datablks| => Write(datablks[i], cache[datablks[i]]))
  }

  /** A log of distinct blocks brings exactly these up to date. */
  lemma {:induction false} LogEffect(home: Disk, datablks: seq<int>, cache: Disk, b: int)
    requires forall i :: 0 <= i < |datablks| ==> datablks[i] in cache
    ensures b in datablks ==> b in Apply(home, Log(datablks, cache)) && Apply(home, Log(datablks, cache))[b] == cache[b]
    ensures b !in datablks ==> (b in Apply(home, Log(datablks, cache)) <==> b in home)
    ensures b !in datablks && b in home ==> Apply(home, Log(datablks, cache))[b] == home[b]
    decreases |datablks|
  {
    if datablks != [] {
      var i := |datablks| - 1;
      var log := Log(datablks, cache);
      assert log[..i] == Log(datablks[..i], cache);
      assert datablks == datablks[..i] + [datablks[i]];
      LogEffect(home, datablks[..i], cache, b);
    }
  }

  lemma TakeNext<T>(t: seq<T>, ws: seq<T>, i: int)
    requires 0 <= i < |ws|
    ensures t + ws[..i] + [ws[i]] == t + ws[..i + 1]
    ensures ws[..i] + [ws[i]] == ws[..i + 1]
  {
  }

  class Journal {
    const start: int
    var disk: Disk
    /** The contents of the cached blocks; those logged are pinned. */
    var cache: Disk
    var datablks: seq<int>
    var busy: bool
    /** The block writes issued so far, and the disk they started from. */
    ghost var trace: seq<Write>
    ghost const disk0: Disk

    /** The blocks of the device. */
    ghost const blocks: set<int>

    ghost predicate Loggable(b: int)
      reads this`cache
    {
      b in blocks && !InJournal(start, b) && b in cache && |cache[b]| == BLK_WORDS
    }

    ghost predicate DiskValid()
      reads this`disk, this`trace
    {
      DiskOk(start, disk) && disk == Apply(disk0, trace) && disk.Keys == blocks
    }

    ghost predicate LogValid()
      reads this`cache, this`datablks, this`busy
    {
      && |datablks| <= JOURNAL_SIZE
      && (forall i :: 0 <= i < |datablks| ==> Loggable(datablks[i]))
      && (forall i, j :: 0 <= i < j < |datablks| ==> datablks[i] != datablks[j])
      && (!busy ==> datablks == [])
    }

    ghost predicate Valid()
      reads this
    {
      DiskValid() && LogValid()
    }

    /** bdev_write_blk. */
    method WriteDisk(w: Write)
      requires DiskValid() && w.blk in blocks && |w.data| == BLK_WORDS
      modifies this`disk, this`trace
      ensures DiskValid() && disk == old(disk)[w.blk := w.data]
      ensures trace == old(trace) + [w]
    {
      hide Apply;
      ApplySnoc(disk0, trace, w);
      disk := disk[w.blk := w.data];
      trace := trace + [w];
    }

    /** jbd_begin_txn, once the journal is idle. */
    method BeginTxn()
      requires Valid() && !busy
      modifies this`busy
      ensures Valid() && busy
    {
      busy := true;
    }

    /** The file system changes a cached block. */
    method Modify(b: int, data: seq<int>)
      requires Valid() && b in cache && |data| == BLK_WORDS
      modifies this`cache
      ensures Valid() && cache == old(cache)[b := data]
    {
      cache := cache[b := data];
    }

    /** jbd_write_blk: a block is logged once. Its panic is the precondition. */
    method WriteBlk(b: int)
      requires Valid() && busy && Loggable(b) && (|datablks| < JOURNAL_SIZE || b in datablks)
      modifies this`datablks
      ensures Valid() && (forall x :: x in datablks <==> x == b || x in old(datablks)) && old(datablks) <= datablks
    {
      for i := 0 to |datablks|
        invariant forall j :: 0 <= j < i ==> datablks[j] != b
      {
        if datablks[i] == b {
          return;
        }
      }
      datablks := datablks + [b];
    }

    /** Block i of the log goes to its place in the journal. */
    method LogBlock(i: int)
      requires Valid() && 0 <= i < |datablks|
      modifies this`disk, this`trace
      ensures DiskValid() && trace == old(trace) + [DataWrites(start, Log(datablks, cache))[i]]
      ensures disk[start + HEADER] == old(disk[start + HEADER]) && disk[start + BMAP] == old(disk[start + BMAP])
    {
      assert Loggable(datablks[i]) && InJournal(start, start + JDATA + i);
      WriteDisk(Write(start + JDATA + i, cache[datablks[i]]));
    }

    /** The first loop of write_journal_blks: the data, and the block map in memory. */
    method WriteJournalData() returns (bmap: seq<int>)
      requires Valid() && busy
      modifies this`disk, this`trace
      ensures DiskValid() && trace == old(trace) + DataWrites(start, Log(datablks, cache)) && bmap == datablks
      ensures disk[start + HEADER] == old(disk[start + HEADER]) && disk[start + BMAP] == old(disk[start + BMAP])
    {
      hide Apply;
      hide DataWrites;
      hide Log;
      ghost var ws := DataWrites(start, Log(datablks, cache));
      bmap := [];
      for i := 0 to |datablks|
        invariant DiskValid() && trace == old(trace) + ws[..i] && bmap == datablks[..i]
        invariant disk[start + HEADER] == old(disk[start + HEADER]) && disk[start + BMAP] == old(disk[start + BMAP])
      {
        LogBlock(i);
        bmap := bmap + [datablks[i]];
        TakeNext(old(trace), ws, i);
        TakeNext(datablks, datablks, i);
      }
      assert ws[..|ws|] == ws;
    }

    /** write_journal_blks. */
    method WriteJournalBlks()
      requires Valid() && busy && 0 < |datablks| < JOURNAL_SIZE
      modifies this`disk, this`trace
      ensures DiskValid() && trace == old(trace) + LogWrites(start, old(disk), Log(datablks, cache))
      ensures disk[start + HEADER] == old(disk[start + HEADER])
    {
      var bmap := WriteJournalData();
      assert Blks(Log(datablks, cache)) == bmap;
      WriteDisk(Write(start + BMAP, bmap + disk[start + BMAP][|datablks|..]));
    }

    /** write_journal_header. */
    method WriteJournalHeader(n: int)
      requires DiskValid()
      modifies this`disk, this`trace
      ensures DiskValid() && disk == old(disk)[start + HEADER := HeaderWrite(start, old(disk), n).data]
      ensures trace == old(trace) + [HeaderWrite(start, old(disk), n)]
    {
      WriteDisk(Write(start + HEADER, [n] + disk[start + HEADER][1..]));
    }

    /** apply_journal. */
    method ApplyJournal()
      requires Valid() && busy
      modifies this`disk, this`trace
      ensures DiskValid() && trace == old(trace) + Log(datablks, cache)
      ensures disk[start + HEADER] == old(disk[start + HEADER])
    {
      ghost var log := Log(datablks, cache);
      for i := 0 to |datablks|
        invariant DiskValid() && trace == old(trace) + log[..i]
        invariant disk[start + HEADER] == old(disk[start + HEADER])
      {
        assert Loggable(datablks[i]);
        WriteDisk(Write(datablks[i], cache[datablks[i]]));
        TakeNext(old(trace), log, i);
      }
      assert log[..|log|] == log;
    }

    /** commit_journal with erase_journal: the writes of a commit, in order. */
    method CommitJournal()
      requires Valid() && busy && 0 < |datablks| < JOURNAL_SIZE
      modifies this`disk, this`trace, this`datablks
      ensures Valid() && datablks == []
      ensures trace == old(trace) + CommitWrites(start, old(disk), old(Log(datablks, cache)))
    {
      hide Apply;
      hide LogWrites;
      hide CommitWrites;
      ghost var log := Log(datablks, cache);
      WriteJournalBlks();
      WriteJournalHeader(|datablks|);
      ApplyJournal();
      datablks := [];
      WriteJournalHeader(0);
      CommitOrder(start, old(disk), log, old(trace));
    }

    /**
    jbd_end_txn: exactly the logged blocks take their cached contents, the journal is empty
    again, and the writes are those of one transaction. Its assertion is the precondition.
     */
    method EndTxn()
      requires Valid() && busy && Clean(start, disk) && |datablks| < JOURNAL_SIZE
      modifies this`disk, this`trace, this`datablks, this`busy
      ensures Valid() && !busy && Clean(start, disk)
      ensures LogOk(start, old(disk), old(Log(datablks, cache)))
      ensures trace == old(trace) + TxnWrites(start, old(disk), old(Log(datablks, cache)))
      ensures forall b :: b in disk && !InJournal(start, b) ==>
        disk[b] == if b in old(datablks) then cache[b] else old(disk)[b]
    {
      hide Apply;
      hide CommitWrites;
      hide Recover;
      ghost var log, d, blks := Log(datablks, cache), disk, datablks;
      forall i | 0 <= i < |log| ensures WriteOk(start, d, log[i]) { assert Loggable(datablks[i]); }
      if |datablks| > 0 {
        CommitJournal();
        TxnDone(start, d, log);
        ApplyConcat(disk0, old(trace), CommitWrites(start, d, log));
        forall b | b in disk && !InJournal(start, b)
          ensures disk[b] == if b in blks then cache[b] else d[b]
        {
          assert Home(start, disk)[b] == disk[b];
          LogEffect(Home(start, d), blks, cache, b);
        }
      }
      busy := false;
    }
  }

  lemma CommitOrder(start: int, d: Disk, log: seq<Write>, trace: seq<Write>)
    requires DiskOk(start, d) && |log| <= JOURNAL_SIZE
    ensures trace + LogWrites(start, d, log) + [HeaderWrite(start, d, |log|)] + log + [HeaderWrite(start, d, 0)] ==
      trace + CommitWrites(start, d, log)
  {
  }
}
