/** The data path of the file system: block allocation, block mapping, reading and writing. */
module Sfs {
  import opened Common
  import opened SfsModel
  import opened Bitmap = SfsBitmap

  function Min(a: int, b: int): int { if a < b then a else b }

  function Max(a: int, b: int): int { if a < b then b else a }

  /** The bitmap marks exactly the given blocks. */
  ghost predicate BitsOk(bmap: seq<seq<bv8>>, start: int, used: set<int>) {
    Shape(bmap) && forall n :: 0 <= n < BITS * |bmap| ==> (Used(bmap, n) <==> start + n in used)
  }

  /** The data blocks are those the bitmap has bits for. */
  ghost predicate DataOk(bmap: seq<seq<bv8>>, start: int, fs: Fs) {
    && 0 < start && start + BITS * |bmap| <= WORD
    && (forall b :: b in fs.data <==> start <= b < start + BITS * |bmap|)
  }

  ghost predicate SizesOk(fs: Fs) { forall i :: i in fs.inodes ==> 0 <= fs.inodes[i].size <= MAX_BLKS * BLK }

  class Volume {
    const dataStart: int
    /** s_size: the number of blocks of the image. */
    const size: int
    var bmap: seq<seq<bv8>>
    var fs: Fs
    ghost var owner: map<int, Slot>

    /** Each block in use is named in one place, and the bitmap marks exactly these. */
    ghost predicate Valid()
      reads this
    {
      Inv(fs, owner) && DataOk(bmap, dataStart, fs) && BitsOk(bmap, dataStart, owner.Keys) && SizesOk(fs)
    }

    /** alloc_data_block: the first free block is marked and cleared, or (0) there is none. */
    method AllocDataBlock() returns (blk: int)
      requires Valid()
      modifies this`bmap, this`fs
      ensures blk == 0 ==> Valid() && bmap == old(bmap) && fs == old(fs) && Full(bmap, size)
      ensures blk != 0 ==> FirstClear(old(bmap), size, blk - dataStart) && !Full(old(bmap), size)
      ensures blk != 0 ==>
        0 < blk < WORD && blk in old(fs).data && blk !in owner && fs == WriteBlock(old(fs), blk, Zeros())
      ensures blk != 0 ==> DataOk(bmap, dataStart, fs) && BitsOk(bmap, dataStart, owner.Keys + {blk})
      ensures blk != 0 ==> LastTaken(old(bmap), bmap, size)
    {
      var n, marked := MarkFree(bmap, size);
      if n < 0 {
        return 0;
      }
      blk := dataStart + n;
      LastMarked(bmap, marked, size, n);
      bmap := marked;
      fs := WriteBlock(fs, blk, Zeros());
    }

    /** A new block for an empty address slot. */
    method AllocTop(i: int, j: int, ghost k: int) returns (blk: int)
      requires Serves(Top(i, j), i, k)
      requires Valid() && SlotOk(fs, Top(i, j)) && fs.inodes[i].addrs[j] == 0
      modifies this
      ensures Valid() && Grown(old(fs), old(owner), fs, owner, i, k)
      ensures blk == 0 ==> fs == old(fs) && owner == old(owner) && bmap == old(bmap) && Full(bmap, size)
      ensures blk != 0 ==> FirstClear(old(bmap), size, blk - dataStart) && !Full(old(bmap), size)
      ensures blk != 0 ==> owner == old(owner)[blk := Top(i, j)] && LastTaken(old(bmap), bmap, size)
      ensures blk != 0 ==> fs.inodes[i].addrs[j] == blk && blk in fs.data && fs.data[blk] == Zeros()
    {
      blk := AllocDataBlock();
      if blk != 0 {
        ClearGrows(old(fs), owner, blk, i, k);
        TopGrows(fs, owner, i, j, blk, k);
        GrownTwice(old(fs), owner, fs, owner, SetTop(fs, i, j, blk), owner[blk := Top(i, j)], i, k);
        fs := SetTop(fs, i, j, blk);
        owner := owner[blk := Top(i, j)];
        assert owner.Keys == old(owner).Keys + {blk};
      }
    }

    /** A new block for an empty indirect entry. */
    method AllocEntry(i: int, k: int) returns (blk: int)
      requires Valid() && SlotOk(fs, Entry(i, k)) && fs.inodes[i].addrs[Indir(k)] != 0 && Ref(fs, Entry(i, k)) == 0
      modifies this
      ensures Valid() && Grown(old(fs), old(owner), fs, owner, i, k)
      ensures blk == 0 ==> fs == old(fs) && owner == old(owner) && bmap == old(bmap) && Full(bmap, size)
      ensures blk != 0 ==> !Full(old(bmap), size)
      ensures blk != 0 ==>
        SlotOk(fs, Entry(i, k)) && Ref(fs, Entry(i, k)) == blk && blk in fs.data && fs.data[blk] == Zeros()
    {
      hide Full;
      hide LastTaken;
      hide FirstClear;
      blk := AllocDataBlock();
      if blk != 0 {
        ClearGrows(old(fs), owner, blk, i, k);
        EntryBound(fs, owner, i, k, blk);
        GrownTwice(old(fs), owner, fs, owner, SetEntry(fs, i, k, blk), owner[blk := Entry(i, k)], i, k);
        fs := SetEntry(fs, i, k, blk);
        owner := owner[blk := Entry(i, k)];
        assert owner.Keys == old(owner).Keys + {blk};
      }
    }

    /** The indirect branch of get_data_block. */
    method GetIndirect(i: int, k: int, alloc: bool) returns (blk: int)
      requires Valid() && i in fs.inodes && NDIRECT <= k < MAX_BLKS
      modifies this
      ensures Valid() && Grown(old(fs), old(owner), fs, owner, i, k)
      ensures !alloc ==> fs == old(fs) && owner == old(owner) && bmap == old(bmap)
      ensures blk == BlockOf(fs, i, k) && (blk != 0 ==> blk in fs.data)
      ensures blk != 0 && old(BlockOf(fs, i, k)) == 0 ==> fs.data[blk] == Zeros()
      ensures blk == 0 ==> old(BlockOf(fs, i, k)) == 0 && (alloc ==> Full(bmap, size))
      ensures blk == 0 && alloc ==> TableOnly(old(fs), old(owner), fs, owner, i, k, old(bmap), size, dataStart)
      ensures alloc && Stuck(old(fs), i, k, old(bmap), size) ==> blk == 0
    {
      hide Full;
      hide FirstClear;
      hide OneLeft;
      hide Grown;
      hide DataOk;
      GrownSame(fs, owner, i, k);
      var j := Indir(k);
      if fs.inodes[i].addrs[j] == 0 {
        if !alloc {
          return 0;
        }
        var table := AllocTop(i, j, k);
        if table == 0 {
          return 0;
        }
        EmptyTable(fs, i, k);
      }
      TableOwner(fs, owner, i, k);
      blk := GetWord(fs.data[fs.inodes[i].addrs[j]], IndirOfs(k));
      if blk != 0 {
        BlockOwner(fs, owner, i, k);
      } else if alloc {
        ghost var fs1, owner1 := fs, owner;
        blk := AllocEntry(i, k);
        GrownTwice(old(fs), old(owner), fs1, owner1, fs, owner, i, k);
      }
    }

    /**
    get_data_block: the block of a file that holds offset `ofs`. A missing block (and a missing
    indirect block) is allocated if asked for. The result is 0 if the block does not exist, or
    no block is free; then at most an empty indirect block is new.
     */
    method GetDataBlock(i: int, ofs: int, alloc: bool) returns (blk: int)
      requires Valid() && i in fs.inodes && 0 <= ofs < MAX_BLKS * BLK
      modifies this
      ensures Valid() && Grown(old(fs), old(owner), fs, owner, i, ofs / BLK)
      ensures !alloc ==> fs == old(fs) && owner == old(owner) && bmap == old(bmap)
      ensures blk == BlockOf(fs, i, ofs / BLK) && (blk != 0 ==> blk in fs.data)
      ensures blk != 0 && old(BlockOf(fs, i, ofs / BLK)) == 0 ==> fs.data[blk] == Zeros()
      ensures blk == 0 ==> old(BlockOf(fs, i, ofs / BLK)) == 0 && (alloc ==> Full(bmap, size))
      ensures blk == 0 && alloc ==> TableOnly(old(fs), old(owner), fs, owner, i, ofs / BLK, old(bmap), size, dataStart)
      ensures alloc && Stuck(old(fs), i, ofs / BLK, old(bmap), size) ==> blk == 0
    {
      hide Full;
      hide FirstClear;
      hide OneLeft;
      var k := ofs / BLK;
      if k < NDIRECT {
        blk := fs.inodes[i].addrs[k];
        if blk != 0 {
          BlockOwner(fs, owner, i, k);
        } else if alloc {
          blk := AllocTop(i, k, k);
        }
      } else {
        blk := GetIndirect(i, k, alloc);
      }
    }

    /** The loop body of read_data: the bytes of one block, or nothing at a hole. */
    method ReadInBlock(i: int, at: int, want: int) returns (bytes: seq<int>)
      requires Valid() && i in fs.inodes && 0 <= at < fs.inodes[i].size && want > 0
      modifies this
      ensures fs == old(fs) && owner == old(owner) && bmap == old(bmap)
      ensures bytes == [] <==> FileByte(fs, i, at).None?
      ensures |bytes| <= want && at + |bytes| <= fs.inodes[i].size && IsRead(fs, i, at, bytes)
    {
      var blk := GetDataBlock(i, at, false);
      if blk == 0 {
        return [];
      }
      var s := Min(Min(BLK - at % BLK, want), fs.inodes[i].size - at);
      bytes := fs.data[blk][at % BLK..at % BLK + s];
      forall q | 0 <= q < s ensures FileByte(fs, i, at + q) == Some(bytes[q]) { SameBlock(at, q); }
    }

    /** read_data: the bytes asked for, up to the end of the file or the first hole. */
    method ReadData(i: int, count: int, ofs: int) returns (buf: seq<int>)
      requires Valid() && count >= 0 && ofs >= 0 && i in fs.inodes
      modifies this
      ensures fs == old(fs) && owner == old(owner) && bmap == old(bmap)
      ensures |buf| <= count && (buf != [] ==> ofs + |buf| <= fs.inodes[i].size) && IsRead(fs, i, ofs, buf)
      ensures |buf| == count || ofs + |buf| >= fs.inodes[i].size || FileByte(fs, i, ofs + |buf|).None?
    {
      buf := [];
      while |buf| < count && ofs + |buf| < fs.inodes[i].size
        invariant fs == old(fs) && owner == old(owner) && bmap == old(bmap) && |buf| <= count
        invariant (buf != [] ==> ofs + |buf| <= fs.inodes[i].size) && IsRead(fs, i, ofs, buf)
        decreases count - |buf|
      {
        var bytes := ReadInBlock(i, ofs + |buf|, count - |buf|);
        if bytes == [] {
          return;
        }
        ReadOn(fs, i, ofs, buf, bytes);
        buf := buf + bytes;
      }
    }

    /** The loop body of write_data: bytes into one block. */
    method WriteInBlock(i: int, at: int, bytes: seq<int>, ghost n: int) returns (ok: bool)
      requires Valid() && i in fs.inodes && 0 <= at
      requires 0 < |bytes| <= BLK - at % BLK && at + |bytes| <= MAX_BLKS * BLK
      modifies this
      ensures Valid() && Wrote(old(fs), fs, i, n, at, if ok then bytes else [], ok)
      ensures Stuck(old(fs), i, at / BLK, old(bmap), size) ==> !ok
      ensures !ok ==>
        Full(bmap, size) && TableOnly(old(fs), old(owner), fs, owner, i, at / BLK, old(bmap), size, dataStart)
    {
      var blk := GetDataBlock(i, at, true);
      GrownOthers(old(fs), old(owner), fs, owner, i, at / BLK);
      GrownTrim(old(fs), old(owner), fs, owner, i, n, at);
      if blk == 0 {
        GrownNothing(old(fs), old(owner), fs, owner, i, n, at);
        return false;
      }
      var block := Splice(fs.data[blk], at % BLK, bytes);
      StoreWrote(old(fs), old(owner), fs, owner, i, n, at, bytes);
      fs := WriteBlock(fs, blk, block);
      ok := true;
    }

    /** As much of the bytes as goes into the block at `at`. */
    method WriteChunk(i: int, at: int, rest: seq<int>, ghost n: int) returns (s: int)
      requires Valid() && i in fs.inodes && 0 <= at && 0 < |rest| && at + |rest| <= MAX_BLKS * BLK
      modifies this
      ensures Valid() && 0 <= s <= |rest| && Wrote(old(fs), fs, i, n, at, rest[..s], s > 0)
      ensures Stuck(old(fs), i, at / BLK, old(bmap), size) ==> s == 0
      ensures s == 0 ==>
        Full(bmap, size) && TableOnly(old(fs), old(owner), fs, owner, i, at / BLK, old(bmap), size, dataStart)
    {
      s := Min(BLK - at % BLK, |rest|);
      var ok := WriteInBlock(i, at, rest[..s], n);
      if !ok {
        s := 0;
      }
    }

    /**
    write_data at any offset. The bytes written replace those of the file and extend it; blocks
    added for them read as zeros elsewhere, and what lies between the old end and `ofs` stays a
    hole. Every other file stays as it was. Fewer bytes are written only when no block is free.
    A file that names no block beyond its end still names none, except that a write cut short
    may leave an empty indirect block.
     */
    method WriteData(i: int, buf: seq<int>, ofs: int) returns (total: int)
      requires Valid() && i in fs.inodes && ofs >= 0 && (buf != [] ==> ofs + |buf| <= MAX_BLKS * BLK)
      modifies this
      ensures Valid() && fs.inodes.Keys == old(fs.inodes.Keys)
      ensures 0 <= total <= |buf| && (total < |buf| ==> Full(bmap, size))
      ensures fs.inodes[i].size ==
        if buf == [] then old(fs.inodes[i].size) else Max(old(fs.inodes[i].size), ofs + total)
      ensures forall p :: 0 <= p < MAX_BLKS * BLK ==>
        FileByte(fs, i, p) == Written(old(fs), i, p, ofs, buf[..total])
      ensures OthersKept(old(fs), fs, i)
      ensures forall x :: x in fs.inodes && x != i ==> fs.inodes[x].size == old(fs).inodes[x].size
      ensures old(Trim(fs, i, fs.inodes[i].size, false)) ==> Trim(fs, i, fs.inodes[i].size, false)
      ensures old(Trim(fs, i, fs.inodes[i].size, true)) && total == |buf| ==> Trim(fs, i, fs.inodes[i].size, true)
      ensures buf != [] && Stuck(old(fs), i, ofs / BLK, old(bmap), size) ==> total == 0
      ensures buf != [] && total == 0 ==>
        TableOnly(old(fs), old(owner), fs, owner, i, ofs / BLK, old(bmap), size, dataStart)
    {
      hide Stuck;
      hide Full;
      hide FirstClear;
      hide Inv;
      total := WriteBlocks(i, buf, ofs);
      if buf != [] && ofs + total > fs.inodes[i].size {
        SizeKeeps(fs, owner, i, ofs + total);
        KeptTwice(old(fs), fs, SetSize(fs, i, ofs + total), i);
        fs := SetSize(fs, i, ofs + total);
      }
    }

    /** One turn of the loop of write_data. */
    method WriteNext(i: int, buf: seq<int>, ofs: int, total: int, ghost fs0: Fs, ghost n: int) returns (s: int)
      requires Valid() && i in fs.inodes
      requires 0 <= ofs && 0 <= total < |buf| && ofs + |buf| <= MAX_BLKS * BLK
      requires Wrote(fs0, fs, i, n, ofs, buf[..total], true)
      modifies this
      ensures Valid() && 0 <= s <= |buf| - total && Wrote(fs0, fs, i, n, ofs, buf[..total + s], s > 0)
      ensures Stuck(old(fs), i, (ofs + total) / BLK, old(bmap), size) ==> s == 0
      ensures s == 0 ==> Full(bmap, size)
      ensures s == 0 ==>
        TableOnly(old(fs), old(owner), fs, owner, i, (ofs + total) / BLK, old(bmap), size, dataStart)
    {
      hide Wrote;
      hide TableOnly;
      hide Stuck;
      hide Full;
      ghost var fs1 := fs;
      s := WriteChunk(i, ofs + total, buf[total..], End(n, ofs, total));
      WroteMore(fs0, fs1, fs, i, n, ofs, buf[..total], buf[total..][..s], s > 0);
      assert buf[..total] + buf[total..][..s] == buf[..total + s];
    }

    /** The loop of write_data. */
    method WriteBlocks(i: int, buf: seq<int>, ofs: int) returns (total: int)
      requires Valid() && i in fs.inodes && ofs >= 0 && (buf != [] ==> ofs + |buf| <= MAX_BLKS * BLK)
      modifies this
      ensures Valid() && 0 <= total <= |buf| && (total < |buf| ==> Full(bmap, size))
      ensures Wrote(old(fs), fs, i, old(fs.inodes[i].size), ofs, buf[..total], total == |buf|)
      ensures buf != [] && Stuck(old(fs), i, ofs / BLK, old(bmap), size) ==> total == 0
      ensures buf != [] && total == 0 ==>
        TableOnly(old(fs), old(owner), fs, owner, i, ofs / BLK, old(bmap), size, dataStart)
    {
      hide Wrote;
      hide TableOnly;
      total := 0;
      ghost var fs0, n := fs, fs.inodes[i].size;
      WroteNothing(fs, i, n, ofs, buf);
      while total < |buf|
        invariant Valid() && 0 <= total <= |buf| && i in fs.inodes && Wrote(fs0, fs, i, n, ofs, buf[..total], true)
        invariant total == 0 ==> fs == fs0 && bmap == old(bmap) && owner == old(owner)
        invariant total > 0 ==> !Stuck(fs0, i, ofs / BLK, old(bmap), size)
      {
        var s := WriteNext(i, buf, ofs, total, fs0, n);
        WroteKeys(fs0, fs, i, n, ofs, buf[..total + s], s > 0);
        if s == 0 {
          return;
        }
        total := total + s;
      }
    }
  }

  /** The bytes are those of the file from `at` on. */
  ghost predicate IsRead(fs: Fs, i: int, at: int, bytes: seq<int>) {
    && Shaped(fs) && i in fs.inodes && 0 <= at && (bytes != [] ==> at + |bytes| <= MAX_BLKS * BLK)
    && forall q :: 0 <= q < |bytes| ==> FileByte(fs, i, at + q) == Some(bytes[q])
  }

  lemma ReadOn(fs: Fs, i: int, at: int, a: seq<int>, b: seq<int>)
    requires IsRead(fs, i, at, a) && IsRead(fs, i, at + |a|, b) && b != []
    ensures IsRead(fs, i, at, a + b)
  {
    forall q | 0 <= q < |a + b| ensures FileByte(fs, i, at + q) == Some((a + b)[q]) {
      if q >= |a| { assert FileByte(fs, i, at + |a| + (q - |a|)) == Some(b[q - |a|]); }
    }
  }

  /** What is read of a file without holes is a slice of its contents. */
  lemma ReadContent(fs: Fs, i: int, at: int, bytes: seq<int>)
    requires i in fs.inodes && HoleFree(fs, i, fs.inodes[i].size) && IsRead(fs, i, at, bytes)
    requires at + |bytes| <= fs.inodes[i].size
    ensures bytes == Content(fs, i, fs.inodes[i].size)[at..at + |bytes|]
  {
    var c := Content(fs, i, fs.inodes[i].size);
    forall q | 0 <= q < |bytes| ensures bytes[q] == c[at + q] { }
  }

  // ---------------------------------------------------------------- running out of blocks

  /** If one block was free, none is. */
  ghost predicate LastTaken(bmap: seq<seq<bv8>>, bmap': seq<seq<bv8>>, size: int) {
    Shape(bmap) && Shape(bmap') && ((exists n :: OneLeft(bmap, size, n)) ==> Full(bmap', size))
  }

  lemma LastMarked(bmap: seq<seq<bv8>>, bmap': seq<seq<bv8>>, size: int, n: int)
    requires Shape(bmap) && FirstClear(bmap, size, n) && Shape(bmap') && |bmap'| == |bmap|
    requires forall x :: 0 <= x < BITS * |bmap| ==> (Used(bmap', x) <==> x == n || Used(bmap, x))
    ensures LastTaken(bmap, bmap', size)
  {
    if m :| OneLeft(bmap, size, m) { NoneLeft(bmap, bmap', size, m, n); }
  }

  /** A new indirect block names nothing. */
  lemma EmptyTable(fs: Fs, i: int, k: int)
    requires Shaped(fs) && SlotOk(fs, Entry(i, k))
    requires var t := fs.inodes[i].addrs[Indir(k)]; t in fs.data && fs.data[t] == Zeros()
    ensures Ref(fs, Entry(i, k)) == 0
  {
  }

  lemma EntryBound(fs: Fs, owner: map<int, Slot>, i: int, k: int, b: int)
    requires Inv(fs, owner) && SlotOk(fs, Entry(i, k)) && fs.inodes[i].addrs[Indir(k)] != 0 && Ref(fs, Entry(i, k)) == 0
    requires b in fs.data && 0 < b < WORD && b !in owner
    ensures fs.inodes[i].addrs[Indir(k)] in fs.data
    ensures var fs' := SetEntry(fs, i, k, b);
      && Inv(fs', owner[b := Entry(i, k)]) && Grown(fs, owner, fs', owner[b := Entry(i, k)], i, k)
      && SlotOk(fs', Entry(i, k)) && Ref(fs', Entry(i, k)) == b && fs'.data[b] == fs.data[b]
  {
    EntryGrows(fs, owner, i, k, b);
    SetEntryRebound(fs, owner, i, k, b);
    TableOwner(fs, owner, i, k);
  }

  /** Block k needs an indirect block first, and there is one free block. */
  ghost predicate Stuck(fs: Fs, i: int, k: int, bmap: seq<seq<bv8>>, size: int) {
    && Shaped(fs) && i in fs.inodes && NDIRECT <= k < MAX_BLKS && fs.inodes[i].addrs[Indir(k)] == 0
    && Shape(bmap) && exists n :: OneLeft(bmap, size, n)
  }

  /** What an allocation that fails leaves: nothing if no block was free, else the first free
      block as an empty indirect block. */
  ghost predicate TableOnly(fs: Fs, owner: map<int, Slot>, fs': Fs, owner': map<int, Slot>, i: int, k: int,
                            bmap: seq<seq<bv8>>, size: int, start: int)
  {
    && Shaped(fs) && Shaped(fs') && i in fs.inodes && i in fs'.inodes && 0 <= k < MAX_BLKS && Shape(bmap)
    && if Full(bmap, size) then fs'.inodes[i].addrs == fs.inodes[i].addrs && owner' == owner
       else
         && k >= NDIRECT && fs.inodes[i].addrs[Indir(k)] == 0
         && var t := fs'.inodes[i].addrs[Indir(k)];
            t != 0 && FirstClear(bmap, size, t - start) && owner' == owner[t := Top(i, Indir(k))]
  }

  // ---------------------------------------------------------------- what a write does to a file

  /** Offset p is in a block that k bytes from `at` on touch. */
  predicate Fresh(p: int, at: int, k: int) { k > 0 && at / BLK <= p / BLK <= (at + k - 1) / BLK }

  /** The byte at p after writing. */
  ghost function Written(fs: Fs, i: int, p: int, at: int, bytes: seq<int>): Option<int>
    requires Shaped(fs) && i in fs.inodes && 0 <= p < MAX_BLKS * BLK
  {
    WrittenByte(FileByte(fs, i, p), p, at, bytes)
  }

  function WrittenByte(before: Option<int>, p: int, at: int, bytes: seq<int>): Option<int> {
    if at <= p < at + |bytes| then Some(bytes[p - at])
    else if before.Some? then before
    else if Fresh(p, at, |bytes|) then Some(0)
    else None
  }

  /** The end of a file of n bytes after k bytes are written at `at`. */
  function End(n: int, at: int, k: int): int { if k == 0 then n else Max(n, at + k) }

  /**
  Bytes are written into file i at `at`, and no other file changed. Sizes are not updated yet.
  No data block was added beyond the new end; nor an indirect block, if `whole`.
   */
  ghost predicate Wrote(fs: Fs, fs': Fs, i: int, n: int, at: int, bytes: seq<int>, whole: bool) {
    && Shaped(fs) && Shaped(fs') && i in fs.inodes && fs'.inodes.Keys == fs.inodes.Keys
    && (forall x :: x in fs.inodes ==> fs'.inodes[x].size == fs.inodes[x].size)
    && OthersKept(fs, fs', i)
    && (forall p :: 0 <= p < MAX_BLKS * BLK ==> FileByte(fs', i, p) == Written(fs, i, p, at, bytes))
    && (Trim(fs, i, n, false) ==> Trim(fs', i, End(n, at, |bytes|), false))
    && (whole && Trim(fs, i, n, true) ==> Trim(fs', i, End(n, at, |bytes|), true))
  }

  lemma WroteKeys(fs: Fs, fs': Fs, i: int, n: int, at: int, bytes: seq<int>, whole: bool)
    requires Wrote(fs, fs', i, n, at, bytes, whole)
    ensures i in fs'.inodes
  {
    assert i in fs'.inodes.Keys;
  }

  lemma WroteNothing(fs: Fs, i: int, n: int, at: int, buf: seq<int>)
    requires Shaped(fs) && i in fs.inodes
    ensures Wrote(fs, fs, i, n, at, buf[..0], true)
  {
    forall p | 0 <= p < MAX_BLKS * BLK ensures FileByte(fs, i, p) == Written(fs, i, p, at, buf[..0]) { }
  }

  /** Writing twice in a row is writing once. */
  lemma WrittenTwice(before: Option<int>, p: int, at: int, a: seq<int>, b: seq<int>)
    requires at >= 0 && p >= 0
    ensures WrittenByte(WrittenByte(before, p, at, a), p, at + |a|, b) == WrittenByte(before, p, at, a + b)
  {
    assert |a| > 0 && |b| > 0 ==> (at + |a|) / BLK <= (at + |a| - 1) / BLK + 1;
  }

  lemma WroteMore(fs: Fs, fs1: Fs, fs2: Fs, i: int, n: int, at: int, a: seq<int>, b: seq<int>, whole: bool)
    requires at >= 0 && Wrote(fs, fs1, i, n, at, a, true) && Wrote(fs1, fs2, i, End(n, at, |a|), at + |a|, b, whole)
    ensures Wrote(fs, fs2, i, n, at, a + b, whole)
  {
    KeptTwice(fs, fs1, fs2, i);
    forall p | 0 <= p < MAX_BLKS * BLK ensures FileByte(fs2, i, p) == Written(fs, i, p, at, a + b) {
      assert FileByte(fs1, i, p) == Written(fs, i, p, at, a);
      WrittenTwice(FileByte(fs, i, p), p, at, a, b);
    }
    assert End(End(n, at, |a|), at + |a|, |b|) == End(n, at, |a + b|);
  }

  /** A file without holes written inside or at its end is spliced. */
  lemma WroteContent(fs: Fs, fs': Fs, i: int, n: int, at: int, bytes: seq<int>)
    requires HoleFree(fs, i, n) && 0 <= at <= n && at + |bytes| <= MAX_BLKS * BLK && Shaped(fs') && i in fs'.inodes
    requires forall p :: 0 <= p < MAX_BLKS * BLK ==> FileByte(fs', i, p) == Written(fs, i, p, at, bytes)
    ensures HoleFree(fs', i, Max(n, at + |bytes|))
    ensures Content(fs', i, Max(n, at + |bytes|)) == Splice(Content(fs, i, n), at, bytes)
  {
    forall p | 0 <= p < Max(n, at + |bytes|)
      ensures FileByte(fs', i, p) == Some(Splice(Content(fs, i, n), at, bytes)[p])
    {
      assert FileByte(fs', i, p) == Written(fs, i, p, at, bytes);
    }
  }

  /** The way to the block of offset `at` is new at most. */
  lemma GrownTrim(fs: Fs, owner: map<int, Slot>, fs': Fs, owner': map<int, Slot>, i: int, n: int, at: int)
    requires Grown(fs, owner, fs', owner', i, at / BLK) && 0 <= at < MAX_BLKS * BLK && i in fs.inodes
    ensures forall m, t :: at < m && n <= m && Trim(fs, i, n, t) ==> Trim(fs', i, m, t)
    ensures Trim(fs, i, n, false) && BlockOf(fs', i, at / BLK) == 0 ==> Trim(fs', i, n, false)
  {
    forall m, t, s | at < m && n <= m && Trim(fs, i, n, t) && SlotOk(fs', s) && s.ino == i && Ref(fs', s) != 0 &&
    (t || !TableSlot(s))
      ensures Needed(s, m)
    {
      assert SlotOk(fs, s);
      if Serves(s, i, at / BLK) { ServesNeeded(s, i, at, m); }
    }
  }

  /** An allocation that fails shows in no file. */
  lemma GrownNothing(fs: Fs, owner: map<int, Slot>, fs': Fs, owner': map<int, Slot>, i: int, n: int, at: int)
    requires Inv(fs, owner) && Grown(fs, owner, fs', owner', i, at / BLK) && 0 <= at < MAX_BLKS * BLK && i in fs.inodes
    requires i in fs'.inodes && BlockOf(fs', i, at / BLK) == 0 && BlockOf(fs, i, at / BLK) == 0
    ensures Wrote(fs, fs', i, n, at, [], false)
  {
    GrownOthers(fs, owner, fs', owner', i, at / BLK);
    GrownTrim(fs, owner, fs', owner', i, n, at);
    forall x | x in fs.inodes ensures fs'.inodes[x].size == fs.inodes[x].size { assert x in fs'.inodes.Keys; }
    forall p | 0 <= p < MAX_BLKS * BLK ensures FileByte(fs', i, p) == Written(fs, i, p, at, []) {
      if p / BLK != at / BLK { GrownBytes(fs, owner, fs', owner', i, at / BLK, i, p); }
    }
  }

  /** The bytes of file i once block at / BLK is there. */
  lemma GrownRead(fs: Fs, owner: map<int, Slot>, fs1: Fs, owner1: map<int, Slot>, i: int, at: int, p: int)
    requires Inv(fs, owner) && Grown(fs, owner, fs1, owner1, i, at / BLK) && i in fs.inodes && i in fs1.inodes
    requires 0 <= at < MAX_BLKS * BLK && 0 <= p < MAX_BLKS * BLK
    requires var b := BlockOf(fs1, i, at / BLK);
      b != 0 && b in fs1.data && (BlockOf(fs, i, at / BLK) == 0 ==> fs1.data[b] == Zeros())
    ensures FileByte(fs1, i, p) ==
      if p / BLK == at / BLK && FileByte(fs, i, p).None? then Some(0) else FileByte(fs, i, p)
  {
    if p / BLK != at / BLK || BlockOf(fs, i, p / BLK) != 0 {
      GrownBytes(fs, owner, fs1, owner1, i, at / BLK, i, p);
      if BlockOf(fs, i, p / BLK) != 0 { BlockOwner(fs, owner, i, p / BLK); }
    }
  }

  /** One byte of file i after a block is allocated if need be and stored into. */
  lemma StoredByte(fs: Fs, owner: map<int, Slot>, fs1: Fs, owner1: map<int, Slot>, i: int, at: int, bytes: seq<int>,
                   p: int)
    requires Inv(fs, owner) && Inv(fs1, owner1) && Grown(fs, owner, fs1, owner1, i, at / BLK) && i in fs.inodes
    requires i in fs1.inodes
    requires 0 <= at && 0 < |bytes| <= BLK - at % BLK && at + |bytes| <= MAX_BLKS * BLK && 0 <= p < MAX_BLKS * BLK
    requires var b := BlockOf(fs1, i, at / BLK);
      b != 0 && b in fs1.data && (BlockOf(fs, i, at / BLK) == 0 ==> fs1.data[b] == Zeros())
    ensures var b := BlockOf(fs1, i, at / BLK); var fs' := WriteBlock(fs1, b, Splice(fs1.data[b], at % BLK, bytes));
      Shaped(fs') && FileByte(fs', i, p) == Written(fs, i, p, at, bytes)
  {
    var b := BlockOf(fs1, i, at / BLK);
    StoreBytes(fs1, owner1, i, at / BLK, Splice(fs1.data[b], at % BLK, bytes), i, p);
    GrownRead(fs, owner, fs1, owner1, i, at, p);
    InBlock(at, p, |bytes|);
    SameBlock(at, |bytes| - 1);
  }

  lemma StoreWrote(fs: Fs, owner: map<int, Slot>, fs1: Fs, owner1: map<int, Slot>, i: int, n: int, at: int,
                   bytes: seq<int>)
    requires Inv(fs, owner) && Inv(fs1, owner1) && Grown(fs, owner, fs1, owner1, i, at / BLK) && i in fs.inodes
    requires i in fs1.inodes
    requires 0 <= at && 0 < |bytes| <= BLK - at % BLK && at + |bytes| <= MAX_BLKS * BLK
    requires var b := BlockOf(fs1, i, at / BLK);
      b != 0 && b in fs1.data && (BlockOf(fs, i, at / BLK) == 0 ==> fs1.data[b] == Zeros())
    ensures var b := BlockOf(fs1, i, at / BLK); var fs' := WriteBlock(fs1, b, Splice(fs1.data[b], at % BLK, bytes));
      Inv(fs', owner1) && Wrote(fs, fs', i, n, at, bytes, true)
  {
    var b := BlockOf(fs1, i, at / BLK);
    var block := Splice(fs1.data[b], at % BLK, bytes);
    var fs' := WriteBlock(fs1, b, block);
    BlockOwner(fs1, owner1, i, at / BLK);
    WriteInv(fs1, owner1, b, block);
    GrownOthers(fs, owner, fs1, owner1, i, at / BLK);
    StoreOthers(fs1, owner1, i, at / BLK, block);
    KeptTwice(fs, fs1, fs', i);
    forall x | x in fs.inodes ensures fs'.inodes[x].size == fs.inodes[x].size { assert x in fs1.inodes.Keys; }
    forall p | 0 <= p < MAX_BLKS * BLK ensures FileByte(fs', i, p) == Written(fs, i, p, at, bytes) {
      StoredByte(fs, owner, fs1, owner1, i, at, bytes, p);
    }
    StoreTrim(fs, owner, fs1, owner1, i, n, at, b, block, at + |bytes|);
  }

  lemma StoreTrim(fs: Fs, owner: map<int, Slot>, fs1: Fs, owner1: map<int, Slot>, i: int, n: int, at: int, b: int,
                  block: seq<int>, end: int)
    requires Inv(fs1, owner1) && Grown(fs, owner, fs1, owner1, i, at / BLK) && 0 <= at < MAX_BLKS * BLK
    requires i in fs.inodes
    requires b in fs1.data && !IsTable(owner1, b) && |block| == BLK && at < end
    ensures forall t :: Trim(fs, i, n, t) ==> Trim(WriteBlock(fs1, b, block), i, Max(n, end), t)
  {
    GrownTrim(fs, owner, fs1, owner1, i, n, at);
    var fs' := WriteBlock(fs1, b, block);
    forall s | SlotOk(fs', s) ensures SlotOk(fs1, s) && Ref(fs', s) == Ref(fs1, s) {
      assert SlotOk(fs1, s);
      WriteRefs(fs1, owner1, b, block, s);
    }
  }

  function SetSize(fs: Fs, i: int, n: int): Fs
    requires i in fs.inodes
  {
    fs.(inodes := fs.inodes[i := fs.inodes[i].(size := n)])
  }

  /** The size of a file matters to no reference. */
  lemma SizeKeeps(fs: Fs, owner: map<int, Slot>, i: int, n: int)
    requires Inv(fs, owner) && i in fs.inodes
    ensures var fs' := SetSize(fs, i, n); Inv(fs', owner) && (forall x :: KeptFile(fs, fs', x))
    ensures forall m, t :: m <= n && Trim(fs, i, m, t) ==> Trim(SetSize(fs, i, n), i, n, t)
  {
    var fs' := SetSize(fs, i, n);
    forall s ensures NamedAt(fs', owner, s) && (SlotOk(fs, s) ==> SlotOk(fs', s) && Ref(fs', s) == Ref(fs, s)) {
      assert NamedAt(fs, owner, s);
    }
    forall b | b in owner ensures OwnedAt(fs', owner, b) { assert OwnedAt(fs, owner, b); }
    forall x ensures KeptFile(fs, fs', x) {
      if x in fs.inodes {
        forall p | 0 <= p < MAX_BLKS * BLK ensures FileByte(fs', x, p) == FileByte(fs, x, p) {
          assert SlotOk(fs, SlotOf(x, p / BLK));
        }
      }
    }
  }

  /** A sequence with part of it replaced, or extended. */
  function Splice(c: seq<int>, at: int, bytes: seq<int>): (r: seq<int>)
    requires 0 <= at <= |c|
    ensures |r| == Max(|c|, at + |bytes|)
    ensures forall p :: 0 <= p < |r| ==> r[p] == if at <= p < at + |bytes| then bytes[p - at] else c[p]
  {
    c[..at] + bytes + if at + |bytes| <= |c| then c[at + |bytes|..] else []
  }

  lemma SameBlock(at: int, q: int)
    requires 0 <= at && 0 <= q && at % BLK + q < BLK
    ensures (at + q) / BLK == at / BLK && (at + q) % BLK == at % BLK + q
  {
  }

  lemma InBlock(at: int, p: int, s: int)
    requires 0 <= at && 0 <= p && 0 < s <= BLK - at % BLK
    ensures at <= p < at + s <==> p / BLK == at / BLK && at % BLK <= p % BLK < at % BLK + s
    ensures at <= p < at + s ==> p % BLK - at % BLK == p - at
  {
  }
}
