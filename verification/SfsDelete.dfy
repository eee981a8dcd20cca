/**
sfs_delete_inode: the blocks it gives back, those it does not, and what it does to other files.

The inner loop (`kernel/fs/sfs/sfs.c:1074`) ends with the file, not with the indirect block. A
file of more than 140 blocks makes it run on into the buffer of the block after the indirect
block, where it frees and empties what it takes for entries.
 */
module SfsDelete {
  import opened Common
  import opened SfsModel
  import opened Sfs
  import opened SfsBehind
  import opened Bitmap = SfsBitmap

  const LIMIT := 140   // blocks reached through the first indirect block

  const BLKS_PER_PAGE := 8   // blocks that share a page of the block cache

  /** The slots emptied once the first c blocks (and then the indirect block) are freed. */
  predicate Emptied(s: Slot, i: int, c: int, table: bool) {
    s.ino == i && match s
    case Top(_, j) => (j < c && j < NDIRECT) || (table && j == NDIRECT)
    case Entry(_, k) => k < c
  }

  ghost function Remaining(owner: map<int, Slot>, i: int, c: int, table: bool): map<int, Slot> {
    map b | b in owner && !Emptied(owner[b], i, c, table) :: owner[b]
  }

  /** Exactly the slots of the first c blocks name nothing any more; of the data only the first
      indirect block of the file has changed. */
  ghost predicate Stripped(fs: Fs, fs': Fs, i: int, c: int) {
    && Shaped(fs) && Shaped(fs') && fs'.inodes.Keys == fs.inodes.Keys && fs'.data.Keys == fs.data.Keys
    && (forall s :: SlotOk(fs, s) ==>
         SlotOk(fs', s) && Ref(fs', s) == if Emptied(s, i, c, false) then 0 else Ref(fs, s))
    && (forall x :: x in fs.inodes ==>
         fs'.inodes[x].size == fs.inodes[x].size && (x != i ==> fs'.inodes[x] == fs.inodes[x]))
    && (i in fs.inodes ==>
         forall b :: b in fs.data && b != fs.inodes[i].addrs[NDIRECT] ==> fs'.data[b] == fs.data[b])
  }

  lemma EmptiedNext(fs: Fs, s: Slot, i: int, c: int, table: bool, s0: Slot)
    requires SlotOk(fs, s) && if table then s0 == Top(i, NDIRECT) else 0 <= c && s0 == SlotOf(i, c)
    ensures Emptied(s, i, if table then c else c + 1, table) <==> Emptied(s, i, c, false) || s == s0
  {
  }

  lemma RemainsNext(fs: Fs, owner: map<int, Slot>, i: int, c: int, table: bool, s0: Slot)
    requires Inv(fs, owner) && SlotOk(fs, s0) && Ref(fs, s0) != 0
    requires if table then s0 == Top(i, NDIRECT) else 0 <= c && s0 == SlotOf(i, c)
    ensures Remaining(owner, i, c, false) - {Ref(fs, s0)} == Remaining(owner, i, if table then c else c + 1, table)
  {
    hide Emptied;
    assert NamedAt(fs, owner, s0);
    forall b | b in owner
      ensures Emptied(owner[b], i, if table then c else c + 1, table) <==>
        Emptied(owner[b], i, c, false) || b == Ref(fs, s0)
    {
      assert OwnedAt(fs, owner, b);
      EmptiedNext(fs, owner[b], i, c, table, s0);
    }
  }

  /** The next slot is emptied. */
  lemma StripNext(fs: Fs, owner: map<int, Slot>, fs1: Fs, fs2: Fs, i: int, c: int)
    requires Inv(fs, owner) && Stripped(fs, fs1, i, c) && i in fs.inodes && 0 <= c < LIMIT && BlockOf(fs, i, c) != 0
    requires Rebound(fs1, fs2, SlotOf(i, c), 0) && Local(fs1, fs2, i, fs.inodes[i].addrs[NDIRECT])
    ensures Stripped(fs, fs2, i, c + 1)
    ensures Remaining(owner, i, c, false) - {BlockOf(fs, i, c)} == Remaining(owner, i, c + 1, false)
  {
    var s0 := SlotOf(i, c);
    forall s | SlotOk(fs, s) ensures Emptied(s, i, c + 1, false) <==> Emptied(s, i, c, false) || s == s0 {
      EmptiedNext(fs, s, i, c, false, s0);
    }
    RemainsNext(fs, owner, i, c, false, s0);
  }

  /** Freeing blocks of file i does not touch the bytes of the others. */
  lemma StripByte(fs: Fs, owner: map<int, Slot>, fs': Fs, i: int, c: int, x: int, p: int)
    requires Inv(fs, owner) && Stripped(fs, fs', i, c) && i in fs.inodes && c <= LIMIT
    requires x != i && x in fs.inodes && 0 <= p < MAX_BLKS * BLK
    ensures x in fs'.inodes && BlockOf(fs', x, p / BLK) == BlockOf(fs, x, p / BLK)
    ensures FileByte(fs', x, p) == FileByte(fs, x, p)
  {
    assert x in fs'.inodes.Keys && SlotOk(fs, SlotOf(x, p / BLK)) && SlotOk(fs, Top(i, NDIRECT));
    if BlockOf(fs, x, p / BLK) != 0 {
      BlockOwner(fs, owner, x, p / BLK);
      if fs.inodes[i].addrs[NDIRECT] != 0 { TableOwner(fs, owner, i, NDIRECT); }
    }
  }

  /** The file system without inode i, whose remaining references are forgotten. */
  function Forget(fs: Fs, i: int): Fs { fs.(inodes := fs.inodes - {i}) }

  ghost function Others(owner: map<int, Slot>,
                        i: int): map<int, Slot> { map b | b in owner && owner[b].ino != i :: owner[b] }

  lemma ForgetInv(fs: Fs, owner: map<int, Slot>, i: int)
    requires Inv(fs, owner)
    ensures Inv(Forget(fs, i), Others(owner, i)) && OthersKept(fs, Forget(fs, i), i)
  {
    var fs', owner' := Forget(fs, i), Others(owner, i);
    forall s ensures NamedAt(fs', owner', s) { assert NamedAt(fs, owner, s); }
    forall b | b in owner' ensures OwnedAt(fs', owner', b) { assert OwnedAt(fs, owner, b); }
    forall x | x != i ensures KeptFile(fs, fs', x) {
      if x in fs.inodes {
        forall p | 0 <= p < MAX_BLKS * BLK ensures FileByte(fs', x, p) == FileByte(fs, x, p) {
          assert SlotOk(fs, SlotOf(x, p / BLK));
        }
      }
    }
  }

  // ---------------------------------------------------------------- freeing one block

  /** Everything but references of inode i, and the contents of block t, is as before. */
  ghost predicate Local(fs: Fs, fs': Fs, i: int, t: int) {
    && fs'.inodes.Keys == fs.inodes.Keys && fs'.data.Keys == fs.data.Keys
    && (forall x :: x in fs.inodes ==>
         fs'.inodes[x].size == fs.inodes[x].size && (x != i ==> fs'.inodes[x] == fs.inodes[x]))
    && (forall b :: b in fs.data && b != t ==> fs'.data[b] == fs.data[b])
  }

  /** The references are sound, and the bitmap marks exactly the given blocks. */
  ghost predicate Marked(v: Volume, used: set<int>)
    reads v
  {
    Inv(v.fs, v.owner) && DataOk(v.bmap, v.dataStart, v.fs) && BitsOk(v.bmap, v.dataStart, used) && SizesOk(v.fs)
  }

  /** free_data_block. */
  method ClearBlock(v: Volume, blk: int, ghost used: set<int>)
    requires DataOk(v.bmap, v.dataStart, v.fs) && BitsOk(v.bmap, v.dataStart, used) && blk in v.fs.data
    modifies v`bmap
    ensures DataOk(v.bmap, v.dataStart, v.fs) && BitsOk(v.bmap, v.dataStart, used - {blk})
  {
    var marks := ClearUsed(v.bmap, blk - v.dataStart);
    v.bmap := marks;
  }

  /** free_data_block of the block in an address slot, which is then emptied. An indirect block must be empty. */
  method FreeTop(v: Volume, i: int, j: int, ghost used: set<int>)
    requires Marked(v, used) && SlotOk(v.fs, Top(i, j)) && v.fs.inodes[i].addrs[j] != 0
    requires j >= NDIRECT ==> forall k :: NDIRECT <= k < MAX_BLKS && Indir(k) == j ==> Ref(v.fs, Entry(i, k)) == 0
    modifies v
    ensures Marked(v, used - {old(v.fs).inodes[i].addrs[j]})
    ensures v.fs == SetTop(old(v.fs), i, j, 0) && Rebound(old(v.fs), v.fs, Top(i, j), 0)
    ensures v.owner == old(v.owner) - {old(v.fs).inodes[i].addrs[j]}
  {
    var blk := v.fs.inodes[i].addrs[j];
    SetTopRebound(v.fs, v.owner, i, j, 0);
    UnbindInv(v.fs, v.owner, SetTop(v.fs, i, j, 0), Top(i, j));
    assert OwnedAt(v.fs, v.owner, blk);
    ClearBlock(v, blk, used);
    v.fs := SetTop(v.fs, i, j, 0);
    v.owner := v.owner - {blk};
  }

  /** free_data_block of the block in an indirect entry, which is then emptied. */
  method FreeEntry(v: Volume, i: int, k: int, ghost used: set<int>)
    requires Marked(v, used) && SlotOk(v.fs, Entry(i, k)) && Ref(v.fs, Entry(i, k)) != 0
    modifies v
    ensures Marked(v, used - {old(Ref(v.fs, Entry(i, k)))})
    ensures Rebound(old(v.fs), v.fs, Entry(i, k), 0)
    ensures Local(old(v.fs), v.fs, i, old(v.fs).inodes[i].addrs[Indir(k)])
    ensures v.owner == old(v.owner) - {old(Ref(v.fs, Entry(i, k)))}
  {
    TableOwner(v.fs, v.owner, i, k);
    var blk := GetWord(v.fs.data[v.fs.inodes[i].addrs[Indir(k)]], IndirOfs(k));
    SetEntryRebound(v.fs, v.owner, i, k, 0);
    UnbindInv(v.fs, v.owner, SetEntry(v.fs, i, k, 0), Entry(i, k));
    assert OwnedAt(v.fs, v.owner, blk);
    ClearBlock(v, blk, used);
    v.fs := SetEntry(v.fs, i, k, 0);
    v.owner := v.owner - {blk};
  }

  // ---------------------------------------------------------------- freeing a file

  /** The first c blocks of file i are freed. */
  ghost predicate Progress(fs: Fs, owner: map<int, Slot>, v: Volume, i: int, c: int)
    reads v
  {
    && v.owner == Remaining(owner, i, c, false) && Marked(v, v.owner.Keys) && Stripped(fs, v.fs, i, c)
    && i in v.fs.inodes && i in fs.inodes && v.fs.inodes[i].size == fs.inodes[i].size
  }

  /** The next block of the file. */
  method FreeNext(v: Volume, i: int, c: int, ghost fs: Fs, ghost owner: map<int, Slot>)
    requires Inv(fs, owner) && i in fs.inodes && 0 <= c < LIMIT && BlockOf(fs, i, c) != 0
    requires Progress(fs, owner, v, i, c)
    modifies v
    ensures Progress(fs, owner, v, i, c + 1)
  {
    ghost var fs1, used := v.fs, v.owner.Keys;
    assert SlotOk(fs, SlotOf(i, c)) && Ref(fs1, SlotOf(i, c)) == BlockOf(fs, i, c);
    assert SlotOk(fs, Top(i, NDIRECT)) && Ref(fs1, Top(i, NDIRECT)) == fs.inodes[i].addrs[NDIRECT];
    if c < NDIRECT {
      FreeTop(v, i, c, used);
    } else {
      FreeEntry(v, i, c, used);
    }
    StripNext(fs, owner, fs1, v.fs, i, c);
    assert v.owner.Keys == used - {BlockOf(fs, i, c)};
  }

  /** The outer loop over direct blocks. */
  method FreeDirect(v: Volume, i: int, ghost fs: Fs, ghost owner: map<int, Slot>) returns (c: int)
    requires Inv(fs, owner) && i in fs.inodes && Progress(fs, owner, v, i, 0)
    requires HoleFree(fs, i, fs.inodes[i].size)
    modifies v
    ensures 0 <= c <= NDIRECT && Progress(fs, owner, v, i, c)
    ensures (c > 0 ==> (c - 1) * BLK < fs.inodes[i].size) && (fs.inodes[i].size <= c * BLK || c == NDIRECT)
  {
    hide Inv;
    hide HoleFree;
    hide Stripped;
    hide Marked;
    c := 0;
    while c < NDIRECT && c * BLK < v.fs.inodes[i].size
      invariant 0 <= c <= NDIRECT && Progress(fs, owner, v, i, c)
      invariant (c > 0 ==> (c - 1) * BLK < fs.inodes[i].size)
    {
      BlockThere(fs, i, fs.inodes[i].size, c);
      FreeNext(v, i, c, fs, owner);
      c := c + 1;
    }
  }

  lemma BlockThere(fs: Fs, i: int, n: int, c: int)
    requires HoleFree(fs, i, n) && 0 <= c && c * BLK < n
    ensures c < MAX_BLKS && BlockOf(fs, i, c) != 0
  {
    assert FileByte(fs, i, c * BLK).Some? && c * BLK / BLK == c;
  }

  /** The inner loop, as far as it stays inside the first indirect block. */
  method FreeEntries(v: Volume, i: int, ghost fs: Fs, ghost owner: map<int, Slot>) returns (c: int)
    requires Inv(fs, owner) && i in fs.inodes && Progress(fs, owner, v, i, NDIRECT)
    requires var n := fs.inodes[i].size; HoleFree(fs, i, n) && NDIRECT * BLK < n
    modifies v
    ensures Progress(fs, owner, v, i, c) && NDIRECT < c <= LIMIT && (c - 1) * BLK < fs.inodes[i].size
    ensures fs.inodes[i].size <= c * BLK || c == LIMIT
  {
    hide Inv;
    hide HoleFree;
    hide Stripped;
    hide Marked;
    c := NDIRECT;
    while c < LIMIT && c * BLK < v.fs.inodes[i].size
      invariant NDIRECT <= c <= LIMIT && Progress(fs, owner, v, i, c) && (c - 1) * BLK < fs.inodes[i].size
      invariant c > NDIRECT || NDIRECT * BLK < v.fs.inodes[i].size
    {
      BlockThere(fs, i, fs.inodes[i].size, c);
      FreeNext(v, i, c, fs, owner);
      c := c + 1;
    }
  }

  /** How many words the inner loop looks at beyond the indirect block. */
  function Excess(n: int): int { Max(0, (n + BLK - 1) / BLK - LIMIT) }

  /** The block whose buffer follows that of the first indirect block. */
  function Behind(fs: Fs, i: int): int
    requires i in fs.inodes && |fs.inodes[i].addrs| == NADDRS
  {
    fs.inodes[i].addrs[NDIRECT] + 1
  }

  /** The words the loop looks at lie in the same page, and name data blocks or nothing. */
  ghost predicate Readable(fs: Fs, i: int) {
    Shaped(fs) && i in fs.inodes && var m := Excess(fs.inodes[i].size);
      0 < m <= PTRS ==>
        && Behind(fs, i) in fs.data && Behind(fs, i) % BLKS_PER_PAGE != 0
        && forall w :: 0 <= w < m ==>
             GetWord(fs.data[Behind(fs, i)], w) == 0 || GetWord(fs.data[Behind(fs, i)], w) in fs.data
  }

  /** The bitmap marks the given blocks but for those named by the first k words of block u, which
      are emptied. */
  ghost predicate Swept(v: Volume, fs: Fs, used: set<int>, u: int, k: int)
    reads v
  {
    && Shaped(fs) && 0 <= k <= PTRS && (k > 0 ==> u in fs.data) && v.fs == Blank(fs, u, k)
    && DataOk(v.bmap, v.dataStart, fs) && BitsOk(v.bmap, v.dataStart, used - Stray(fs, u, k))
  }

  /** free_data_block of the next word, which is then emptied. */
  method SweepWord(v: Volume, u: int, k: int, ghost fs: Fs, ghost used: set<int>)
    requires Swept(v, fs, used, u, k) && k < PTRS && u in fs.data
    requires GetWord(fs.data[u], k) == 0 || GetWord(fs.data[u], k) in fs.data
    modifies v`bmap, v`fs
    ensures Swept(v, fs, used, u, k + 1)
  {
    hide BitsOk;
    hide GetWord;
    hide PutWord;
    BlankNext(fs, u, k);
    BlankedWord(fs.data[u], k, k);
    StrayNext(fs, u, k);
    hide Stray;
    hide Blank;
    var w := GetWord(v.fs.data[u], k);
    if w != 0 {
      ClearBlock(v, w, used - Stray(fs, u, k));
      v.fs := WriteBlock(v.fs, u, PutWord(v.fs.data[u], k, 0));
      assert used - Stray(fs, u, k) - {w} == used - Stray(fs, u, k + 1);
    } else {
      assert used - Stray(fs, u, k) == used - Stray(fs, u, k + 1);
    }
  }

  /** The inner loop beyond the indirect block: the words there are taken for entries. */
  method FreeBehind(v: Volume, i: int)
    requires Marked(v, v.owner.Keys) && i in v.fs.inodes && Readable(v.fs, i)
    modifies v
    ensures var u, m := Behind(old(v.fs), i), Excess(old(v.fs).inodes[i].size);
      && CanBlank(old(v.fs), old(v.owner), u, m) && v.fs == Blank(old(v.fs), u, m)
      && v.owner == Spared(old(v.owner), u, m) && Marked(v, old(v.owner).Keys - Stray(old(v.fs), u, m))
  {
    var u, k := Behind(v.fs, i), 0;
    ghost var fs, m := v.fs, Excess(v.fs.inodes[i].size);
    assert v.owner.Keys - {} == v.owner.Keys;
    while (LIMIT + k) * BLK < v.fs.inodes[i].size
      invariant 0 <= k <= m && Swept(v, fs, v.owner.Keys, u, k) && v.owner == old(v.owner)
      decreases m - k
    {
      SweepWord(v, u, k, fs, v.owner.Keys);
      k := k + 1;
    }
    BlankInv(fs, v.owner, u, m);
    v.owner := Spared(v.owner, u, m);
  }

  /** The blocks of file i that deletion does not reach. */
  ghost function Leaked(owner: map<int, Slot>, i: int, n: int): set<int> {
    set b | b in owner && owner[b].ino == i && !Needed(owner[b], n)
  }

  /** What remains marked after the loop: the blocks of the other files, and the leaked ones. */
  lemma RemainingKeys(fs: Fs, owner: map<int, Slot>, i: int, n: int, c: int)
    requires Inv(fs, owner) && i in fs.inodes && 0 <= n <= LIMIT * BLK && n <= c * BLK && (c > 0 ==> (c - 1) * BLK < n)
    requires c >= 0
    ensures Remaining(owner, i, c, n > NDIRECT * BLK).Keys == Others(owner, i).Keys + Leaked(owner, i, n)
    ensures Others(Remaining(owner, i, c, n > NDIRECT * BLK), i) == Others(owner, i)
  {
    forall b | b in owner && owner[b].ino == i
      ensures Emptied(owner[b], i, c, n > NDIRECT * BLK) <==> Needed(owner[b], n)
    {
      assert OwnedAt(fs, owner, b);
    }
    var left := Remaining(owner, i, c, n > NDIRECT * BLK);
    forall b ensures b in left.Keys <==> b in Others(owner, i).Keys + Leaked(owner, i, n) {}
    assert Others(left, i) == Others(owner, i);
  }

  lemma Untouched(v: Volume, i: int)
    requires v.Valid() && i in v.fs.inodes
    ensures Progress(v.fs, v.owner, v, i, 0)
  {
    forall b | b in v.owner ensures !Emptied(v.owner[b], i, 0, false) { assert OwnedAt(v.fs, v.owner, b); }
    assert Remaining(v.owner, i, 0, false) == v.owner;
    forall s | SlotOk(v.fs, s) ensures !Emptied(s, i, 0, false) {}
  }

  lemma LeakedIff(fs: Fs, owner: map<int, Slot>, i: int, n: int)
    requires Inv(fs, owner)
    ensures Leaked(owner, i, n) == {} <==> Trim(fs, i, n, true)
  {
    if Leaked(owner, i, n) == {} {
      forall s | SlotOk(fs, s) && s.ino == i && Ref(fs, s) != 0 ensures Needed(s, n) {
        assert NamedAt(fs, owner, s);
        assert Ref(fs, s) !in Leaked(owner, i, n);
      }
    }
    if Trim(fs, i, n, true) {
      forall b | b in owner && owner[b].ino == i ensures Needed(owner[b], n) { assert OwnedAt(fs, owner, b); }
    }
  }

  /** The part of a file that deletion walks through. */
  function Walked(n: int): int { Min(n, LIMIT * BLK) }

  /** The walk ends after c blocks. */
  predicate WalkedTo(n: int, c: int) {
    0 <= n && 0 <= c <= LIMIT && Walked(n) <= c * BLK && (c > 0 ==> (c - 1) * BLK < Walked(n))
  }

  /** The loops are done. `fs1` is the file system when the blocks walked through were freed; since
      then m words of block u and the indirect block have gone. */
  ghost predicate Done(fs: Fs, owner: map<int, Slot>, v: Volume, i: int, c: int, fs1: Fs, u: int, m: int)
    reads v
  {
    && i in fs.inodes && Stripped(fs, fs1, i, c) && WalkedTo(fs.inodes[i].size, c)
    && CanBlank(fs1, Remaining(owner, i, c, false), u, m)
    && Forget(v.fs, i) == Forget(Blank(fs1, u, m), i)
    && Others(v.owner, i) == Others(Spared(Remaining(owner, i, c, false), u, m), i)
    && Marked(v, Remaining(owner, i, c, fs.inodes[i].size > NDIRECT * BLK).Keys - Stray(fs1, u, m))
  }

  /** Freeing blocks of file i leaves the block behind its indirect block as it was. */
  lemma StillReadable(fs: Fs, fs1: Fs, i: int, c: int)
    requires Readable(fs, i) && Stripped(fs, fs1, i, c)
    ensures i in fs1.inodes && fs1.inodes[i].addrs[NDIRECT] == fs.inodes[i].addrs[NDIRECT]
    ensures fs1.inodes[i].size == fs.inodes[i].size && Readable(fs1, i)
  {
    assert i in fs1.inodes.Keys && SlotOk(fs, Top(i, NDIRECT));
  }

  /** With its data blocks freed, the first indirect block is empty. */
  lemma EntriesGone(fs: Fs, owner1: map<int, Slot>, fs1: Fs, i: int, c: int, u: int, m: int)
    requires Stripped(fs, fs1, i, c) && i in fs.inodes && Trim(fs, i, fs.inodes[i].size, false)
    requires (fs.inodes[i].size <= c * BLK || c == LIMIT) && CanBlank(fs1, owner1, u, m)
    ensures Shaped(Blank(fs1, u, m)) && i in Blank(fs1, u, m).inodes
    ensures forall k :: NDIRECT <= k < LIMIT ==> Ref(Blank(fs1, u, m), Entry(i, k)) == 0
  {
    BlankShaped(fs1, owner1, u, m);
    assert i in fs1.inodes.Keys;
    forall k | NDIRECT <= k < LIMIT ensures Ref(Blank(fs1, u, m), Entry(i, k)) == 0 {
      assert SlotOk(fs, Entry(i, k)) && Ref(fs1, Entry(i, k)) == 0;
      BlankRef(fs1, owner1, u, m, Entry(i, k));
    }
  }

  lemma TableInUse(fs: Fs, i: int)
    requires i in fs.inodes && HoleFree(fs, i, fs.inodes[i].size) && NDIRECT * BLK < fs.inodes[i].size
    ensures fs.inodes[i].addrs[NDIRECT] != 0
  {
    BlockThere(fs, i, fs.inodes[i].size, NDIRECT);
  }

  /** The indirect block itself, when the inner loop has ended. */
  method FreeTable(v: Volume, i: int, ghost c: int, ghost fs: Fs, ghost owner: map<int, Slot>)
    requires Inv(fs, owner) && Readable(fs, i) && Progress(fs, owner, v, i, c) && NDIRECT < c <= LIMIT
    requires var n := fs.inodes[i].size;
      HoleFree(fs, i, n) && (c - 1) * BLK < n && Trim(fs, i, n, false) && (n <= c * BLK || c == LIMIT)
    modifies v
    ensures Done(fs, owner, v, i, c, old(v.fs), Behind(fs, i), Excess(fs.inodes[i].size))
  {
    hide Inv;
    hide HoleFree;
    hide Trim;
    hide DataOk;
    hide BitsOk;
    hide Blank;
    hide Stray;
    hide Spared;
    hide SetTop;
    hide Remaining;
    hide Others;
    hide Rebound;
    ghost var fs1, left, t := v.fs, v.owner, fs.inodes[i].addrs[NDIRECT];
    ghost var u, m := Behind(fs, i), Excess(fs.inodes[i].size);
    TableInUse(fs, i);
    StillReadable(fs, fs1, i, c);
    FreeBehind(v, i);
    EntriesGone(fs, left, fs1, i, c, u, m);
    TableStays(fs1, left, i, u, m);
    ForgetTop(v.fs, i, NDIRECT);
    FreeTop(v, i, NDIRECT, left.Keys - Stray(fs1, u, m));
    RemainsNext(fs, owner, i, c, true, Top(i, NDIRECT));
    OwnTable(Spared(left, u, m), i, t);
    assert left.Keys - Stray(fs1, u, m) - {t} == Remaining(owner, i, c, true).Keys - Stray(fs1, u, m);
  }

  lemma TableStays(fs1: Fs, owner1: map<int, Slot>, i: int, u: int, m: int)
    requires CanBlank(fs1, owner1, u, m) && SlotOk(fs1, Top(i, NDIRECT)) && fs1.inodes[i].addrs[NDIRECT] != 0
    ensures var t := fs1.inodes[i].addrs[NDIRECT];
      t in Spared(owner1, u, m) && Spared(owner1, u, m)[t] == Top(i, NDIRECT) && Blank(fs1, u, m).inodes == fs1.inodes
  {
    TableOwner(fs1, owner1, i, NDIRECT);
  }

  lemma ForgetTop(fs: Fs, i: int, j: int)
    requires i in fs.inodes && 0 <= j < |fs.inodes[i].addrs|
    ensures Forget(SetTop(fs, i, j, 0), i) == Forget(fs, i)
  {
    assert SetTop(fs, i, j, 0).inodes - {i} == fs.inodes - {i};
  }

  lemma OwnTable(owner: map<int, Slot>, i: int, t: int)
    requires t in owner && owner[t].ino == i
    ensures Others(owner - {t}, i) == Others(owner, i)
  {
  }

  /** The loops of sfs_delete_inode. */
  method Walk(v: Volume, i: int, ghost fs: Fs, ghost owner: map<int, Slot>) returns (ghost c: int, ghost fs1: Fs)
    requires Inv(fs, owner) && Readable(fs, i) && Progress(fs, owner, v, i, 0)
    requires HoleFree(fs, i, fs.inodes[i].size) && Trim(fs, i, fs.inodes[i].size, false)
    modifies v
    ensures Done(fs, owner, v, i, c, fs1, Behind(fs, i), Excess(fs.inodes[i].size))
  {
    hide Trim;
    hide Inv;
    hide HoleFree;
    hide Stripped;
    hide Marked;
    var d := FreeDirect(v, i, fs, owner);
    if d * BLK < v.fs.inodes[i].size {
      d := FreeEntries(v, i, fs, owner);
      c, fs1 := d, v.fs;
      FreeTable(v, i, c, fs, owner);
    } else {
      c, fs1 := d, v.fs;
      DirectDone(fs, owner, v, i, c);
    }
  }

  /** A file of direct blocks only is done after the outer loop. */
  lemma DirectDone(fs: Fs, owner: map<int, Slot>, v: Volume, i: int, c: int)
    requires Progress(fs, owner, v, i, c) && 0 <= c <= NDIRECT && fs.inodes[i].size <= c * BLK
    requires c > 0 ==> (c - 1) * BLK < fs.inodes[i].size
    ensures Done(fs, owner, v, i, c, v.fs, Behind(fs, i), Excess(fs.inodes[i].size))
  {
    var u := Behind(fs, i);
    forall b | b in v.owner ensures !Cut(v.owner, v.owner[b], u, 0) { assert OwnedAt(v.fs, v.owner, b); }
    assert Excess(fs.inodes[i].size) == 0 && Spared(v.owner, u, 0) == v.owner && Stray(v.fs, u, 0) == {};
    assert v.owner.Keys - {} == v.owner.Keys;
  }

  /**
  sfs_delete_inode of a file without holes. Of the bitmap exactly the bits of the data blocks
  walked through, of the first indirect block and of the words behind it are cleared. The other
  files are as if those words had been emptied, and nothing else: so they keep all their bytes
  exactly if the words were 0 or lay in no block of theirs. The bitmap agrees with the
  references that are left exactly if the words named the blocks of the file that the walk did
  not reach, and no block that is still in use.
   */
  method DeleteInode(v: Volume, i: int)
    requires v.Valid() && i in v.fs.inodes && HoleFree(v.fs, i, v.fs.inodes[i].size)
    requires Trim(v.fs, i, v.fs.inodes[i].size, false) && Readable(v.fs, i)
    modifies v
    ensures v.fs.inodes == old(v.fs.inodes) - {i} && Inv(v.fs, v.owner) && DataOk(v.bmap, v.dataStart, v.fs)
    ensures var fs, owner, n := old(v.fs), old(v.owner), old(v.fs).inodes[i].size;
      var u, m := Behind(fs, i), Excess(n);
      && CanBlank(fs, owner, u, m) && v.owner == Others(Spared(owner, u, m), i)
      && OthersKept(Blank(fs, u, m), v.fs, i)
      && (OthersKept(fs, v.fs, i) <==> Stray(fs, u, m) == {} || u !in Others(owner, i))
      && BitsOk(v.bmap, v.dataStart, Others(owner, i).Keys + Leaked(owner, i, Walked(n)) - Stray(fs, u, m))
      && (v.Valid() <==> Leaked(owner, i, Walked(n)) <= Stray(fs, u, m) && v.owner.Keys !! Stray(fs, u, m))
      && (n <= LIMIT * BLK ==> (v.Valid() <==> Trim(fs, i, n, true)))
  {
    hide Done;
    hide Trim;
    hide Inv;
    hide BitsOk;
    hide DataOk;
    hide HoleFree;
    hide OthersKept;
    ghost var fs, owner, n := v.fs, v.owner, v.fs.inodes[i].size;
    Untouched(v, i);
    ghost var c, fs1 := Walk(v, i, fs, owner);
    Forgotten(fs, owner, v, i, c, fs1, Behind(fs, i), Excess(n));
    v.fs := Forget(v.fs, i);
    v.owner := Others(v.owner, i);
  }

  /** A file that needs the second indirect block loses it, unless the words behind the first
      one name it. */
  lemma SecondLeaks(fs: Fs, owner: map<int, Slot>, i: int)
    requires Inv(fs, owner) && i in fs.inodes && HoleFree(fs, i, fs.inodes[i].size) && LIMIT * BLK < fs.inodes[i].size
    ensures fs.inodes[i].addrs[NDIRECT + 1] in Leaked(owner, i, Walked(fs.inodes[i].size))
  {
    BlockThere(fs, i, fs.inodes[i].size, LIMIT);
    TableOwner(fs, owner, i, LIMIT);
  }

  /** A bitmap marks one set of blocks only. */
  lemma MarksOne(bmap: seq<seq<bv8>>, start: int, a: set<int>, b: set<int>)
    requires BitsOk(bmap, start, a) && forall x :: x in a + b ==> start <= x < start + BITS * |bmap|
    ensures BitsOk(bmap, start, b) <==> a == b
  {
    if BitsOk(bmap, start, b) {
      forall x ensures x in a <==> x in b {
        if x in a + b { assert Used(bmap, x - start) <==> start + (x - start) in a; }
      }
    }
  }

  lemma LeftMarked(fs: Fs, owner: map<int, Slot>, v: Volume, i: int, c: int, fs1: Fs, u: int, m: int)
    requires Inv(fs, owner) && Done(fs, owner, v, i, c, fs1, u, m)
    ensures var O, L, S := Others(owner, i).Keys, Leaked(owner, i, Walked(fs.inodes[i].size)), Stray(fs1, u, m);
      var K := Others(v.owner, i).Keys;
      && BitsOk(v.bmap, v.dataStart, O + L - S) && (BitsOk(v.bmap, v.dataStart, K) <==> L <= S && K !! S)
  {
    var n := fs.inodes[i].size;
    RemainingKeys(fs, owner, i, Walked(n), c);
    var O, L, S, K := Others(owner, i).Keys, Leaked(owner, i, Walked(n)), Stray(fs1, u, m), Others(v.owner, i).Keys;
    assert Forget(v.fs, i).data.Keys == Blank(fs1, u, m).data.Keys == fs.data.Keys;
    forall b | b in O + L ensures v.dataStart <= b < v.dataStart + BITS * |v.bmap| {
      assert OwnedAt(fs, owner, b) && b in fs.data.Keys && b in v.fs.data;
    }
    forall b | b in O - K ensures b in S { CutIsStray(fs1, Remaining(owner, i, c, false), u, m, b); }
    assert K <= O && O !! L;
    MarksOne(v.bmap, v.dataStart, O + L - S, K);
  }

  lemma SparedOthers(owner: map<int, Slot>, i: int, c: int, u: int, m: int)
    ensures Others(Spared(Remaining(owner, i, c, false), u, m), i) == Others(Spared(owner, u, m), i)
  {
    var left := Remaining(owner, i, c, false);
    forall b | b in owner && owner[b].ino != i
      ensures b in left && left[b] == owner[b] && (Cut(left, left[b], u, m) <==> Cut(owner, owner[b], u, m))
    {
    }
  }

  /** What the words behind the indirect block mean is the same before and after the walk. */
  lemma SameBehind(fs: Fs, owner: map<int, Slot>, fs1: Fs, i: int, c: int, u: int, m: int)
    requires Inv(fs, owner) && i in fs.inodes && Stripped(fs, fs1, i, c) && u == Behind(fs, i) && c <= LIMIT
    requires CanBlank(fs1, Remaining(owner, i, c, false), u, m)
    ensures CanBlank(fs, owner, u, m) && Stray(fs1, u, m) == Stray(fs, u, m)
    ensures Others(Spared(Remaining(owner, i, c, false), u, m), i) == Others(Spared(owner, u, m), i)
    ensures OthersKept(Blank(fs, u, m), Blank(fs1, u, m), i)
  {
    SparedOthers(owner, i, c, u, m);
    forall x | x != i ensures KeptFile(Blank(fs, u, m), Blank(fs1, u, m), x) {
      if x in fs.inodes {
        assert x in fs1.inodes.Keys;
        forall p | 0 <= p < MAX_BLKS * BLK
          ensures Shaped(Blank(fs, u, m)) && Shaped(Blank(fs1, u, m))
          ensures FileByte(Blank(fs1, u, m), x, p) == FileByte(Blank(fs, u, m), x, p)
        {
          BlankByte(fs, owner, u, m, x, p);
          BlankByte(fs1, Remaining(owner, i, c, false), u, m, x, p);
          StripByte(fs, owner, fs1, i, c, x, p);
        }
      }
      BlankShaped(fs, owner, u, m);
      BlankShaped(fs1, Remaining(owner, i, c, false), u, m);
    }
  }

  lemma OthersSame(fs: Fs, fs1: Fs, i: int, c: int)
    requires Stripped(fs, fs1, i, c)
    ensures fs1.inodes - {i} == fs.inodes - {i}
  {
    forall x | x in fs.inodes && x != i ensures x in fs1.inodes && fs1.inodes[x] == fs.inodes[x] {
      assert x in fs1.inodes.Keys;
    }
    forall x | x in fs1.inodes ensures x in fs.inodes { assert x in fs.inodes.Keys; }
  }

  lemma KeptThrough(fs: Fs, fs1: Fs, fs2: Fs, i: int)
    requires OthersKept(fs1, fs2, i) && fs1.inodes.Keys == fs.inodes.Keys
    ensures OthersKept(fs, fs2, i) <==> OthersKept(fs, fs1, i)
  {
    if OthersKept(fs, fs2, i) {
      forall x | x != i ensures KeptFile(fs, fs1, x) {
        assert KeptFile(fs, fs2, x) && KeptFile(fs1, fs2, x);
        if x in fs.inodes { assert x in fs1.inodes.Keys; }
      }
    }
    if OthersKept(fs, fs1, i) { KeptTwice(fs, fs1, fs2, i); }
  }

  lemma Forgotten(fs: Fs, owner: map<int, Slot>, v: Volume, i: int, c: int, fs1: Fs, u: int, m: int)
    requires Inv(fs, owner) && i in fs.inodes && |fs.inodes[i].addrs| == NADDRS && u == Behind(fs, i)
    requires Done(fs, owner, v, i, c, fs1, u, m)
    ensures var fs', owner' := Forget(v.fs, i), Others(v.owner, i); var n := fs.inodes[i].size;
      && fs'.inodes == fs.inodes - {i} && Inv(fs', owner') && DataOk(v.bmap, v.dataStart, fs') && SizesOk(fs')
      && CanBlank(fs, owner, u, m) && owner' == Others(Spared(owner, u, m), i)
      && OthersKept(Blank(fs, u, m), fs', i)
      && (OthersKept(fs, fs', i) <==> Stray(fs, u, m) == {} || u !in Others(owner, i))
      && BitsOk(v.bmap, v.dataStart, Others(owner, i).Keys + Leaked(owner, i, Walked(n)) - Stray(fs, u, m))
      && (BitsOk(v.bmap, v.dataStart, owner'.Keys) <==>
           Leaked(owner, i, Walked(n)) <= Stray(fs, u, m) && owner'.Keys !! Stray(fs, u, m))
      && (Leaked(owner, i, Walked(n)) == {} <==> Trim(fs, i, Walked(n), true))
  {
    ForgetInv(v.fs, v.owner, i);
    OthersSame(fs, fs1, i, c);
    SameBehind(fs, owner, fs1, i, c, u, m);
    BlankInv(fs1, Remaining(owner, i, c, false), u, m);
    ForgetInv(Blank(fs1, u, m), Spared(Remaining(owner, i, c, false), u, m), i);
    KeptTwice(Blank(fs, u, m), Blank(fs1, u, m), Forget(v.fs, i), i);
    BlankKept(fs, owner, u, m, i);
    KeptThrough(fs, Blank(fs, u, m), Forget(v.fs, i), i);
    LeakedIff(fs, owner, i, Walked(fs.inodes[i].size));
    LeftMarked(fs, owner, v, i, c, fs1, u, m);
  }

  /** A new inode names nothing: the file system with it is well-formed, and its file is empty. */
  lemma NewInode(fs: Fs, owner: map<int, Slot>, i: int, empty: Inode)
    requires Inv(fs, owner) && i !in fs.inodes && empty.size == 0 && |empty.addrs| == NADDRS &&
    forall j :: 0 <= j < NADDRS ==> empty.addrs[j] == 0
    ensures var fs' := fs.(inodes := fs.inodes[i := empty]);
      Inv(fs', owner) && OthersKept(fs, fs', i) && HoleFree(fs', i, 0) && Trim(fs', i, 0, true)
  {
    var fs' := fs.(inodes := fs.inodes[i := empty]);
    forall s ensures NamedAt(fs', owner, s) { assert NamedAt(fs, owner, s); }
    forall b | b in owner ensures OwnedAt(fs', owner, b) { assert OwnedAt(fs, owner, b); }
    forall x | x != i ensures KeptFile(fs, fs', x) {
      if x in fs.inodes {
        forall p | 0 <= p < MAX_BLKS * BLK ensures FileByte(fs', x, p) == FileByte(fs, x, p) {
          assert SlotOk(fs, SlotOf(x, p / BLK));
        }
      }
    }
  }
}
