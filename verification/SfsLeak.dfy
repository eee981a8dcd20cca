/**
What deletion does wrong. A write to the end of a file of twelve blocks, while one block is
free, takes that block as the indirect block and then fails; deleting the file forgets it. And
a file of more than 140 blocks takes blocks of the file next to it along.
 */
module SfsLeak {
  import opened Common
  import opened SfsModel
  import opened Sfs
  import opened SfsBehind
  import opened SfsDelete
  import opened Bitmap = SfsBitmap

  const TWELVE := NDIRECT * BLK

  /** A file of twelve blocks that names nothing else, and one free block. */
  ghost predicate NearlyFull(fs: Fs, i: int, bmap: seq<seq<bv8>>, size: int, n: int) {
    && Shape(bmap) && OneLeft(bmap, size, n)
    && i in fs.inodes && fs.inodes[i].size == TWELVE && HoleFree(fs, i, TWELVE) && Trim(fs, i, TWELVE, true)
  }

  lemma NearlyFullStuck(fs: Fs, i: int, bmap: seq<seq<bv8>>, size: int, n: int)
    requires NearlyFull(fs, i, bmap, size, n)
    ensures Stuck(fs, i, NDIRECT, bmap, size) && !Full(bmap, size) && Trim(fs, i, TWELVE, false)
  {
    OnlyClear(bmap, size, n, n);
    assert SlotOk(fs, Top(i, NDIRECT)) && !Needed(Top(i, NDIRECT), TWELVE);
  }

  /** After the write the file is what it was, but for the indirect block. */
  lemma CutShort(fs: Fs, owner: map<int, Slot>, fs': Fs, owner': map<int, Slot>, i: int, bmap: seq<seq<bv8>>, size: int,
                 start: int, n: int)
    requires NearlyFull(fs, i, bmap, size, n) && Inv(fs, owner) && Inv(fs', owner')
    requires TableOnly(fs, owner, fs', owner', i, NDIRECT, bmap, size, start) && BitsOk(bmap, start, owner.Keys)
    requires forall p :: 0 <= p < MAX_BLKS * BLK ==> FileByte(fs', i, p) == Written(fs, i, p, TWELVE, [])
    ensures HoleFree(fs', i, TWELVE) && !Trim(fs', i, TWELVE, true)
    ensures Leaked(owner', i, TWELVE) == {start + n} && Others(owner', i) == Others(owner, i)
  {
    NearlyFullStuck(fs, i, bmap, size, n);
    var t := fs'.inodes[i].addrs[NDIRECT];
    OnlyClear(bmap, size, n, t - start);
    forall p | 0 <= p < TWELVE
      ensures FileByte(fs', i, p).Some?
    {
      assert FileByte(fs', i, p) == Written(fs, i, p, TWELVE, []);
    }
    assert SlotOk(fs', Top(i, NDIRECT)) && !Needed(Top(i, NDIRECT), TWELVE) && NamedAt(fs', owner', Top(i, NDIRECT));
    forall b | b in owner && owner[b].ino == i ensures Needed(owner[b], TWELVE) { assert OwnedAt(fs, owner, b); }
    assert !Used(bmap, t - start) && t !in owner.Keys;
    assert Others(owner', i) == Others(owner, i);
  }

  /** Write, then delete: the last free block is lost. */
  method WriteThenDelete(v: Volume, i: int, byte: int, ghost n: int)
    requires v.Valid() && NearlyFull(v.fs, i, v.bmap, v.size, n)
    modifies v
    ensures v.fs.inodes.Keys == old(v.fs.inodes.Keys) - {i} && v.owner == Others(old(v.owner), i)
    ensures v.dataStart + n !in v.owner && BitsOk(v.bmap, v.dataStart, v.owner.Keys + {v.dataStart + n}) && !v.Valid()
  {
    hide Inv;
    hide HoleFree;
    hide Trim;
    hide Full;
    hide OneLeft;
    hide TableOnly;
    hide OthersKept;
    ghost var fs, owner, bmap := v.fs, v.owner, v.bmap;
    NearlyFullStuck(fs, i, bmap, v.size, n);
    var total := v.WriteData(i, [byte], TWELVE);
    assert [byte][..0] == [];
    CutShort(fs, owner, v.fs, v.owner, i, bmap, v.size, v.dataStart, n);
    ghost var owner1 := v.owner;
    NothingBehind(v.fs, owner1, i);
    DeleteInode(v, i);
  }

  /** A file of direct blocks has no words behind an indirect block to lose. */
  lemma NothingBehind(fs: Fs, owner: map<int, Slot>, i: int)
    requires Inv(fs, owner) && i in fs.inodes && fs.inodes[i].size == TWELVE
    ensures Readable(fs, i) && Stray(fs, Behind(fs, i), 0) == {}
    ensures Spared(owner, Behind(fs, i), 0) == owner && Blank(fs, Behind(fs, i), 0) == fs
    ensures Others(owner, i).Keys + Leaked(owner, i, TWELVE) - {} == Others(owner, i).Keys + Leaked(owner, i, TWELVE)
  {
    forall b | b in owner ensures !Cut(owner, owner[b], Behind(fs, i), 0) { assert OwnedAt(fs, owner, b); }
  }

  // ---------------------------------------------------------------- the file next to it

  /** The block behind the first indirect block of file i, which has more than 140 blocks, is the
      first indirect block of file x, and names a block. */
  ghost predicate NextTo(fs: Fs, i: int, x: int) {
    && Readable(fs, i) && x in fs.inodes && x != i && LIMIT * BLK < fs.inodes[i].size <= MAX_BLKS * BLK
    && fs.inodes[x].addrs[NDIRECT] == Behind(fs, i) && BlockOf(fs, x, NDIRECT) != 0
  }

  lemma NextToCut(fs: Fs, owner: map<int, Slot>, i: int, x: int)
    requires Inv(fs, owner) && NextTo(fs, i, x)
    ensures var u, m := Behind(fs, i), Excess(fs.inodes[i].size);
      CanBlank(fs, owner, u, m) && u in Others(owner, i) && Stray(fs, u, m) != {} && Cut(owner, Entry(x, NDIRECT), u, m)
  {
    var u, m := Behind(fs, i), Excess(fs.inodes[i].size);
    assert 0 < m <= PTRS;
    TableOwner(fs, owner, x, NDIRECT);
    CutWord(fs, owner, u, m, Entry(x, NDIRECT));
    InWords(fs.data[u], m, 0);
  }

  /** Deleting file i then makes block 12 of file x a hole. */
  method DeleteNextTo(v: Volume, i: int, x: int)
    requires v.Valid() && NextTo(v.fs, i, x) && i in v.fs.inodes && HoleFree(v.fs, i, v.fs.inodes[i].size)
    requires Trim(v.fs, i, v.fs.inodes[i].size, false)
    modifies v
    ensures Shaped(v.fs) && x in v.fs.inodes && v.fs.inodes[x] == old(v.fs).inodes[x]
    ensures BlockOf(v.fs, x, NDIRECT) == 0 && old(BlockOf(v.fs, x, NDIRECT)) != 0 && !OthersKept(old(v.fs), v.fs, i)
  {
    ghost var fs, owner, u, m := v.fs, v.owner, Behind(v.fs, i), Excess(v.fs.inodes[i].size);
    NextToCut(fs, owner, i, x);
    BlankByte(fs, owner, u, m, x, NDIRECT * BLK);
    DeleteInode(v, i);
    assert KeptFile(Blank(fs, u, m), v.fs, x);
    HoleMeans(v.fs, v.owner, x, NDIRECT);
  }

  lemma HoleMeans(fs: Fs, owner: map<int, Slot>, x: int, k: int)
    requires Inv(fs, owner) && x in fs.inodes && 0 <= k < MAX_BLKS && FileByte(fs, x, k * BLK).None?
    ensures BlockOf(fs, x, k) == 0
  {
    assert k * BLK / BLK == k;
    if BlockOf(fs, x, k) != 0 { BlockOwner(fs, owner, x, k); }
  }
}
