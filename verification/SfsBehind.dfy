/**
What becomes of a file system when words of a block are emptied behind the back of the file
that owns it. The buffers of eight blocks share a page of the block cache, so a loop that runs
over the end of one buffer goes on in the next block.
 */
module SfsBehind {
  import opened Common
  import opened SfsModel
  import opened Bitmap = SfsBitmap

  // ---------------------------------------------------------------- words

  /** The first m words of a block are emptied. */
  function Blanked(b: seq<int>, m: int): (r: seq<int>)
    requires |b| == BLK && 0 <= m <= PTRS
    ensures |r| == BLK
  {
    if m == 0 then b
    else if GetWord(b, m - 1) == 0 then Blanked(b, m - 1)
    else PutWord(Blanked(b, m - 1), m - 1, 0)
  }

  lemma {:induction false} BlankedWord(b: seq<int>, m: int, x: int)
    requires |b| == BLK && 0 <= m <= PTRS && 0 <= x < PTRS
    ensures GetWord(Blanked(b, m), x) == if x < m then 0 else GetWord(b, x)
    decreases m
  {
    if m > 0 {
      BlankedWord(b, m - 1, x);
      GetPut(Blanked(b, m - 1), m - 1, 0, x);
    }
  }

  lemma {:induction false} BlankedByte(b: seq<int>, m: int, q: int)
    requires |b| == BLK && 0 <= m <= PTRS && 0 <= q < BLK
    ensures Blanked(b, m)[q] == if q / 4 < m && GetWord(b, q / 4) != 0 then 0 else b[q]
    decreases m
  {
    if m > 0 { BlankedByte(b, m - 1, q); }
  }

  /** The blocks named by the first m words. */
  ghost function Words(b: seq<int>, m: int): set<int>
    requires |b| == BLK && 0 <= m <= PTRS
  {
    set x | 0 <= x < m && GetWord(b, x) != 0 :: GetWord(b, x)
  }

  lemma InWords(b: seq<int>, m: int, w: int)
    requires |b| == BLK && 0 <= w < m <= PTRS
    ensures GetWord(b, w) == 0 || GetWord(b, w) in Words(b, m)
  {
  }

  lemma WordsNext(b: seq<int>, m: int)
    requires |b| == BLK && 0 <= m < PTRS
    ensures Words(b, m + 1) == Words(b, m) + if GetWord(b, m) == 0 then {} else {GetWord(b, m)}
  {
    forall w | w in Words(b, m + 1) ensures w in Words(b, m) || w == GetWord(b, m) {
      var x :| 0 <= x < m + 1 && GetWord(b, x) != 0 && GetWord(b, x) == w;
    }
    forall w | w in Words(b, m) ensures w in Words(b, m + 1) {
      var x :| 0 <= x < m && GetWord(b, x) != 0 && GetWord(b, x) == w;
    }
  }

  // ---------------------------------------------------------------- the file system

  /** The first m words of block u are emptied. */
  function Blank(fs: Fs, u: int, m: int): Fs
    requires m > 0 ==> u in fs.data && |fs.data[u]| == BLK && m <= PTRS
  {
    if m <= 0 then fs else WriteBlock(fs, u, Blanked(fs.data[u], m))
  }

  lemma BlankNext(fs: Fs, u: int, m: int)
    requires Shaped(fs) && u in fs.data && 0 <= m < PTRS
    ensures var fs' := Blank(fs, u, m);
      u in fs'.data && fs'.data[u] == Blanked(fs.data[u], m) && forall b :: b in fs'.data <==> b in fs.data
    ensures var fs' := Blank(fs, u, m);
      Blank(fs, u, m + 1) ==
        if GetWord(fs.data[u], m) == 0 then fs' else WriteBlock(fs', u, PutWord(fs'.data[u], m, 0))
  {
    var fs', b := Blank(fs, u, m), Blanked(fs.data[u], m + 1);
    assert fs'.data[u := b] == fs.data[u := b];
    assert fs'.data[u := fs'.data[u]] == fs'.data;
  }

  /** The blocks these words name. */
  ghost function Stray(fs: Fs, u: int, m: int): set<int>
    requires m > 0 ==> u in fs.data && |fs.data[u]| == BLK && m <= PTRS
  {
    if m <= 0 then {} else Words(fs.data[u], m)
  }

  lemma StrayNext(fs: Fs, u: int, m: int)
    requires Shaped(fs) && u in fs.data && 0 <= m < PTRS
    ensures var w := GetWord(fs.data[u], m); Stray(fs, u, m + 1) == Stray(fs, u, m) + if w == 0 then {} else {w}
  {
    WordsNext(fs.data[u], m);
    assert Words(fs.data[u], 0) == {};
  }

  /** The slot is one of these words: u is the indirect block it lies in. */
  predicate Cut(owner: map<int, Slot>, s: Slot, u: int, m: int) {
    s.Entry? && u in owner && owner[u] == Top(s.ino, Indir(s.k)) && IndirOfs(s.k) < m
  }

  ghost function Spared(owner: map<int, Slot>, u: int, m: int): map<int, Slot> {
    map b | b in owner && !Cut(owner, owner[b], u, m) :: owner[b]
  }

  ghost predicate CanBlank(fs: Fs, owner: map<int, Slot>, u: int, m: int) {
    Inv(fs, owner) && 0 <= m <= PTRS && (m > 0 ==> u in fs.data)
  }

  lemma CutWord(fs: Fs, owner: map<int, Slot>, u: int, m: int, s: Slot)
    requires CanBlank(fs, owner, u, m) && m > 0 && SlotOk(fs, s) && s.Entry?
    ensures Cut(owner, s, u, m) <==> fs.inodes[s.ino].addrs[Indir(s.k)] == u && u != 0 && IndirOfs(s.k) < m
  {
    if fs.inodes[s.ino].addrs[Indir(s.k)] != 0 { TableOwner(fs, owner, s.ino, s.k); }
    if u in owner { assert OwnedAt(fs, owner, u); }
  }

  /** Exactly these slots name nothing any more. */
  lemma BlankRef(fs: Fs, owner: map<int, Slot>, u: int, m: int, s: Slot)
    requires CanBlank(fs, owner, u, m) && SlotOk(fs, s)
    ensures Shaped(Blank(fs, u, m)) && SlotOk(Blank(fs, u, m), s)
    ensures Ref(Blank(fs, u, m), s) == if Cut(owner, s, u, m) then 0 else Ref(fs, s)
  {
    if m > 0 && s.Entry? {
      CutWord(fs, owner, u, m, s);
      BlankedWord(fs.data[u], m, IndirOfs(s.k));
    }
  }

  lemma BlankShaped(fs: Fs, owner: map<int, Slot>, u: int, m: int)
    requires CanBlank(fs, owner, u, m)
    ensures Shaped(Blank(fs, u, m))
  {
  }

  /** References stay sound; the blocks in the emptied slots are named no more. */
  lemma BlankInv(fs: Fs, owner: map<int, Slot>, u: int, m: int)
    requires CanBlank(fs, owner, u, m)
    ensures Inv(Blank(fs, u, m), Spared(owner, u, m))
  {
    var fs', owner' := Blank(fs, u, m), Spared(owner, u, m);
    forall s ensures NamedAt(fs', owner', s) {
      assert NamedAt(fs, owner, s);
      if SlotOk(fs, s) { BlankRef(fs, owner, u, m, s); }
    }
    forall b | b in owner' ensures OwnedAt(fs', owner', b) {
      assert OwnedAt(fs, owner, b);
      BlankRef(fs, owner, u, m, owner[b]);
    }
  }

  /** The blocks that lose their name were named by the words. */
  lemma CutIsStray(fs: Fs, owner: map<int, Slot>, u: int, m: int, b: int)
    requires CanBlank(fs, owner, u, m) && b in owner && Cut(owner, owner[b], u, m)
    ensures b in Stray(fs, u, m)
  {
    assert OwnedAt(fs, owner, b) && OwnedAt(fs, owner, u);
    assert GetWord(fs.data[u], IndirOfs(owner[b].k)) == b;
  }

  // ---------------------------------------------------------------- files

  /** The byte of file x at p afterwards: a hole where the block's name is gone, a changed byte
      where the block is the one that was emptied. */
  ghost function ByteAfter(fs: Fs, owner: map<int, Slot>, u: int, m: int, x: int, p: int): Option<int>
    requires Shaped(fs) && x in fs.inodes && 0 <= p < MAX_BLKS * BLK && 0 <= m <= PTRS
  {
    if Cut(owner, SlotOf(x, p / BLK), u, m) then None
    else if m > 0 && u in fs.data && BlockOf(fs, x, p / BLK) == u && u != 0 then Some(Blanked(fs.data[u], m)[p % BLK])
    else FileByte(fs, x, p)
  }

  lemma BlankByte(fs: Fs, owner: map<int, Slot>, u: int, m: int, x: int, p: int)
    requires CanBlank(fs, owner, u, m) && x in fs.inodes && 0 <= p < MAX_BLKS * BLK
    ensures Shaped(Blank(fs, u, m)) && FileByte(Blank(fs, u, m), x, p) == ByteAfter(fs, owner, u, m, x, p)
  {
    BlankRef(fs, owner, u, m, SlotOf(x, p / BLK));
  }

  /** File x loses a byte or has one changed if u is its block and a word is not 0. */
  lemma Damaged(fs: Fs, owner: map<int, Slot>, u: int, m: int, x: int, w: int)
    requires CanBlank(fs, owner, u, m) && u in owner && owner[u].ino == x && 0 <= w < m
    requires GetWord(fs.data[u], w) != 0
    ensures !KeptFile(fs, Blank(fs, u, m), x)
  {
    assert OwnedAt(fs, owner, u);
    match owner[u]
    case Entry(_, k) => DamagedData(fs, owner, u, m, x, w, k);
    case Top(_, j) =>
      if j < NDIRECT {
        DamagedData(fs, owner, u, m, x, w, j);
      } else {
        var k := NDIRECT + PTRS * (j - NDIRECT) + w;
        DamagedTable(fs, owner, u, m, x, k);
      }
  }

  lemma DamagedData(fs: Fs, owner: map<int, Slot>, u: int, m: int, x: int, w: int, k: int)
    requires CanBlank(fs, owner, u, m) && x in fs.inodes && 0 <= k < MAX_BLKS && BlockOf(fs, x, k) == u && 0 <= w < m
    requires u in owner && owner[u] == SlotOf(x, k) && u != 0 && GetWord(fs.data[u], w) != 0
    ensures !KeptFile(fs, Blank(fs, u, m), x)
  {
    var b := fs.data[u];
    var q := if b[4 * w] != 0 then 4 * w else if b[4 * w + 1] != 0 then 4 * w + 1
      else if b[4 * w + 2] != 0 then 4 * w + 2 else 4 * w + 3;
    var p := k * BLK + q;
    assert p / BLK == k && p % BLK == q && q / 4 == w && b[q] != 0;
    BlankByte(fs, owner, u, m, x, p);
    BlankedByte(b, m, q);
    assert FileByte(Blank(fs, u, m), x, p) == Some(0) && FileByte(fs, x, p) == Some(b[q]);
  }

  lemma DamagedTable(fs: Fs, owner: map<int, Slot>, u: int, m: int, x: int, k: int)
    requires CanBlank(fs, owner, u, m) && x in fs.inodes && NDIRECT <= k < MAX_BLKS && BlockOf(fs, x, k) != 0
    requires Cut(owner, Entry(x, k), u, m)
    ensures !KeptFile(fs, Blank(fs, u, m), x)
  {
    BlockOwner(fs, owner, x, k);
    assert k * BLK / BLK == k;
    BlankByte(fs, owner, u, m, x, k * BLK);
    assert FileByte(Blank(fs, u, m), x, k * BLK).None? && FileByte(fs, x, k * BLK).Some?;
  }

  /** With all the words 0, or u of another file, a byte stays what it was. */
  lemma Spares(fs: Fs, owner: map<int, Slot>, u: int, m: int, x: int, p: int)
    requires CanBlank(fs, owner, u, m) && x in fs.inodes && 0 <= p < MAX_BLKS * BLK
    requires Stray(fs, u, m) == {} || u !in owner || owner[u].ino != x
    ensures ByteAfter(fs, owner, u, m, x, p) == FileByte(fs, x, p)
  {
    var s := SlotOf(x, p / BLK);
    if BlockOf(fs, x, p / BLK) != 0 { BlockOwner(fs, owner, x, p / BLK); }
    if m > 0 && Stray(fs, u, m) == {} {
      forall w | 0 <= w < m ensures GetWord(fs.data[u], w) == 0 {
        InWords(fs.data[u], m, w);
      }
      BlankedByte(fs.data[u], m, p % BLK);
      if s.Entry? { CutWord(fs, owner, u, m, s); }
    }
  }

  /** The other files are kept exactly if the words are 0 or u is no block of theirs. */
  lemma BlankKept(fs: Fs, owner: map<int, Slot>, u: int, m: int, i: int)
    requires CanBlank(fs, owner, u, m)
    ensures OthersKept(fs, Blank(fs, u, m), i) <==> Stray(fs, u, m) == {} || u !in owner || owner[u].ino == i
  {
    if Stray(fs, u, m) == {} || u !in owner || owner[u].ino == i {
      forall x | x != i ensures KeptFile(fs, Blank(fs, u, m), x) {
        if x in fs.inodes {
          forall p | 0 <= p < MAX_BLKS * BLK
            ensures Shaped(Blank(fs, u, m)) && FileByte(Blank(fs, u, m), x, p) == FileByte(fs, x, p)
          {
            BlankByte(fs, owner, u, m, x, p);
            Spares(fs, owner, u, m, x, p);
          }
        }
      }
    } else {
      var b :| b in Stray(fs, u, m);
      var w :| 0 <= w < m && GetWord(fs.data[u], w) != 0 && GetWord(fs.data[u], w) == b;
      Damaged(fs, owner, u, m, owner[u].ino, w);
    }
  }
}
