/**
Inodes, data blocks and the references between them.

A reference is a nonzero block number in an address slot of an inode, or in an entry of an
indirect block. `owner` records for each referenced block the one place that names it.
 */
module SfsModel {
  import opened Common
  import opened Bitmap = SfsBitmap

  const NDIRECT := 12
  const NADDRS := 14
  const PTRS := 128
  const MAX_BLKS := 268
  const WORD := 0x1_0000_0000

  datatype Inode = Inode(size: int, addrs: seq<int>)

  datatype Fs = Fs(inodes: map<int, Inode>, data: map<int, seq<int>>)

  /** A place that can name a block: an address slot, or the indirect entry for file block k. */
  datatype Slot = Top(ino: int, j: int) | Entry(ino: int, k: int)

  // ---------------------------------------------------------------- words of an indirect block

  /** The little-endian 32-bit word w of a block. */
  function GetWord(b: seq<int>, w: int): int
    requires |b| == BLK && 0 <= w < PTRS
  {
    b[4 * w] + 0x100 * b[4 * w + 1] + 0x1_0000 * b[4 * w + 2] + 0x100_0000 * b[4 * w + 3]
  }

  function PutWord(b: seq<int>, w: int, v: int): seq<int>
    requires |b| == BLK && 0 <= w < PTRS
  {
    b[4 * w := v % 0x100][4 * w + 1 := v / 0x100 % 0x100]
     [4 * w + 2 := v / 0x1_0000 % 0x100][4 * w + 3 := v / 0x100_0000 % 0x100]
  }

  lemma Digits(v: int)
    requires 0 <= v < WORD
    ensures v == v % 0x100 + 0x100 * (v / 0x100 % 0x100) +
      0x1_0000 * (v / 0x1_0000 % 0x100) + 0x100_0000 * (v / 0x100_0000 % 0x100)
  {
    assert v / 0x100 / 0x100 == v / 0x1_0000;
    assert v / 0x1_0000 / 0x100 == v / 0x100_0000;
  }

  lemma GetPut(b: seq<int>, w: int, v: int, x: int)
    requires |b| == BLK && 0 <= w < PTRS && 0 <= x < PTRS && 0 <= v < WORD
    ensures GetWord(PutWord(b, w, v), x) == if x == w then v else GetWord(b, x)
  {
    Digits(v);
  }

  // ---------------------------------------------------------------- references

  function Indir(k: int): int { NDIRECT + (k - NDIRECT) / PTRS }

  function IndirOfs(k: int): int { (k - NDIRECT) % PTRS }

  /** The place that names block k of a file. */
  function SlotOf(i: int, k: int): Slot { if k < NDIRECT then Top(i, k) else Entry(i, k) }

  ghost predicate Shaped(fs: Fs) {
    && (forall i :: i in fs.inodes ==> |fs.inodes[i].addrs| == NADDRS)
    && (forall b :: b in fs.data ==> |fs.data[b]| == BLK)
  }

  ghost predicate SlotOk(fs: Fs, s: Slot) {
    s.ino in fs.inodes && if s.Top? then 0 <= s.j < NADDRS else NDIRECT <= s.k < MAX_BLKS
  }

  /** The block a slot names, or 0. */
  ghost function Ref(fs: Fs, s: Slot): int
    requires Shaped(fs) && SlotOk(fs, s)
  {
    match s
    case Top(i, j) => fs.inodes[i].addrs[j]
    case Entry(i, k) =>
      var t := fs.inodes[i].addrs[Indir(k)];
      if t == 0 || t !in fs.data then 0 else GetWord(fs.data[t], IndirOfs(k))
  }

  ghost predicate NamedAt(fs: Fs, owner: map<int, Slot>, s: Slot)
    requires Shaped(fs)
  {
    SlotOk(fs, s) && Ref(fs, s) != 0 ==> Ref(fs, s) in owner && owner[Ref(fs, s)] == s
  }

  ghost predicate OwnedAt(fs: Fs, owner: map<int, Slot>, b: int)
    requires Shaped(fs) && b in owner
  {
    b in fs.data && b > 0 && SlotOk(fs, owner[b]) && Ref(fs, owner[b]) == b
  }

  /** Each referenced block is named in one place. */
  ghost predicate Inv(fs: Fs, owner: map<int, Slot>) {
    && Shaped(fs)
    && (forall s {:trigger NamedAt(fs, owner, s)} :: NamedAt(fs, owner, s))
    && (forall b {:trigger OwnedAt(fs, owner, b)} :: b in owner ==> OwnedAt(fs, owner, b))
  }

  ghost predicate IsTable(owner: map<int, Slot>, b: int) { b in owner && owner[b].Top? && owner[b].j >= NDIRECT }

  /** An indirect block in use has one address slot. */
  lemma TableOwner(fs: Fs, owner: map<int, Slot>, i: int, k: int)
    requires Inv(fs, owner) && SlotOk(fs, Entry(i, k)) && fs.inodes[i].addrs[Indir(k)] != 0
    ensures var t := fs.inodes[i].addrs[Indir(k)]; t in owner && owner[t] == Top(i, Indir(k)) && t in fs.data
  {
    assert NamedAt(fs, owner, Top(i, Indir(k)));
    assert OwnedAt(fs, owner, fs.inodes[i].addrs[Indir(k)]);
  }

  // ---------------------------------------------------------------- changes

  function WriteBlock(fs: Fs, b: int, bytes: seq<int>): Fs { fs.(data := fs.data[b := bytes]) }

  function SetTop(fs: Fs, i: int, j: int, v: int): Fs
    requires i in fs.inodes && 0 <= j < |fs.inodes[i].addrs|
  {
    var n := fs.inodes[i];
    fs.(inodes := fs.inodes[i := n.(addrs := n.addrs[j := v])])
  }

  function SetEntry(fs: Fs, i: int, k: int, v: int): Fs
    requires Shaped(fs) && SlotOk(fs, Entry(i, k)) && fs.inodes[i].addrs[Indir(k)] in fs.data
  {
    var t := fs.inodes[i].addrs[Indir(k)];
    WriteBlock(fs, t, PutWord(fs.data[t], IndirOfs(k), v))
  }

  /** The slots are the same, and only s0 may name another block. */
  ghost predicate Rebound(fs: Fs, fs': Fs, s0: Slot, v: int) {
    && Shaped(fs) && Shaped(fs') && fs'.data.Keys == fs.data.Keys && fs'.inodes.Keys == fs.inodes.Keys
    && forall s :: SlotOk(fs, s) ==> SlotOk(fs', s) && Ref(fs', s) == if s == s0 then v else Ref(fs, s)
  }

  /** Contents of a block that is no indirect block do not matter to references. */
  lemma WriteRefs(fs: Fs, owner: map<int, Slot>, b: int, bytes: seq<int>, s: Slot)
    requires Inv(fs, owner) && b in fs.data && !IsTable(owner, b) && |bytes| == BLK && SlotOk(fs, s)
    ensures Shaped(WriteBlock(fs, b, bytes)) && SlotOk(WriteBlock(fs, b, bytes), s)
    ensures Ref(WriteBlock(fs, b, bytes), s) == Ref(fs, s)
  {
    if s.Entry? && fs.inodes[s.ino].addrs[Indir(s.k)] != 0 { TableOwner(fs, owner, s.ino, s.k); }
  }

  lemma WriteInv(fs: Fs, owner: map<int, Slot>, b: int, bytes: seq<int>)
    requires Inv(fs, owner) && b in fs.data && !IsTable(owner, b) && |bytes| == BLK
    ensures Inv(WriteBlock(fs, b, bytes), owner)
  {
    var fs' := WriteBlock(fs, b, bytes);
    forall s ensures NamedAt(fs', owner, s) {
      assert NamedAt(fs, owner, s);
      if SlotOk(fs, s) { WriteRefs(fs, owner, b, bytes, s); }
    }
    forall x | x in owner ensures OwnedAt(fs', owner, x) {
      assert OwnedAt(fs, owner, x);
      WriteRefs(fs, owner, b, bytes, owner[x]);
    }
  }

  /** An address slot is set; an indirect block comes and goes empty. */
  lemma SetTopRebound(fs: Fs, owner: map<int, Slot>, i: int, j: int, v: int)
    requires Inv(fs, owner) && SlotOk(fs, Top(i, j))
    requires j >= NDIRECT ==> forall k :: NDIRECT <= k < MAX_BLKS && Indir(k) == j ==> Ref(fs, Entry(i, k)) == 0
    requires j >= NDIRECT && v in fs.data ==> forall w :: 0 <= w < PTRS ==> GetWord(fs.data[v], w) == 0
    ensures Rebound(fs, SetTop(fs, i, j, v), Top(i, j), v)
  {
  }

  lemma SetEntryRebound(fs: Fs, owner: map<int, Slot>, i: int, k: int, v: int)
    requires Inv(fs, owner) && SlotOk(fs, Entry(i, k)) && fs.inodes[i].addrs[Indir(k)] != 0 && 0 <= v < WORD
    ensures fs.inodes[i].addrs[Indir(k)] in fs.data
    ensures Rebound(fs, SetEntry(fs, i, k, v), Entry(i, k), v)
  {
    TableOwner(fs, owner, i, k);
    var fs' := SetEntry(fs, i, k, v);
    var t := fs.inodes[i].addrs[Indir(k)];
    forall s | SlotOk(fs, s) ensures SlotOk(fs', s) && Ref(fs', s) == if s == Entry(i, k) then v else Ref(fs, s) {
      if s.Entry? && fs.inodes[s.ino].addrs[Indir(s.k)] == t {
        TableOwner(fs, owner, s.ino, s.k);
        GetPut(fs.data[t], IndirOfs(k), v, IndirOfs(s.k));
      }
    }
  }

  /** A free block is named for the first time. */
  lemma BindInv(fs: Fs, owner: map<int, Slot>, fs': Fs, s0: Slot, b: int)
    requires Inv(fs, owner) && Rebound(fs, fs', s0, b) && SlotOk(fs, s0) && Ref(fs, s0) == 0
    requires b in fs.data && b > 0 && b !in owner
    ensures Inv(fs', owner[b := s0])
  {
    var owner' := owner[b := s0];
    forall s ensures NamedAt(fs', owner', s) { assert NamedAt(fs, owner, s) && (SlotOk(fs, s) <==> SlotOk(fs', s)); }
    forall x | x in owner' ensures OwnedAt(fs', owner', x) { assert x in owner ==> OwnedAt(fs, owner, x); }
  }

  /** A block is named no more. */
  lemma UnbindInv(fs: Fs, owner: map<int, Slot>, fs': Fs, s0: Slot)
    requires Inv(fs, owner) && Rebound(fs, fs', s0, 0) && SlotOk(fs, s0) && Ref(fs, s0) != 0
    ensures Ref(fs, s0) in owner && Inv(fs', owner - {Ref(fs, s0)})
  {
    assert NamedAt(fs, owner, s0);
    var owner' := owner - {Ref(fs, s0)};
    forall s ensures NamedAt(fs', owner', s) { assert NamedAt(fs, owner, s) && (SlotOk(fs, s) <==> SlotOk(fs', s)); }
    forall x | x in owner' ensures OwnedAt(fs', owner', x) { assert OwnedAt(fs, owner, x); }
  }

  // ---------------------------------------------------------------- file contents

  /** The block that holds block k of a file, or 0. */
  ghost function BlockOf(fs: Fs, i: int, k: int): int
    requires Shaped(fs) && i in fs.inodes && 0 <= k < MAX_BLKS
  {
    Ref(fs, SlotOf(i, k))
  }

  /** The byte at offset p of a file, if the file has a block there. */
  ghost function FileByte(fs: Fs, i: int, p: int): Option<int>
    requires Shaped(fs) && i in fs.inodes && 0 <= p < MAX_BLKS * BLK
  {
    var b := BlockOf(fs, i, p / BLK);
    if b == 0 || b !in fs.data then None else Some(fs.data[b][p % BLK])
  }

  /** File x has the same bytes and the same holes. */
  ghost predicate KeptFile(fs: Fs, fs': Fs, x: int) {
    && Shaped(fs) && Shaped(fs') && (x in fs.inodes ==> x in fs'.inodes)
    && (x in fs.inodes ==> forall p :: 0 <= p < MAX_BLKS * BLK ==> FileByte(fs', x, p) == FileByte(fs, x, p))
  }

  ghost predicate OthersKept(fs: Fs, fs': Fs,
                             i: int) { forall x {:trigger KeptFile(fs, fs', x)} :: x != i ==> KeptFile(fs, fs', x) }

  lemma KeptTwice(fs: Fs, fs1: Fs, fs2: Fs, i: int)
    requires OthersKept(fs, fs1, i) && OthersKept(fs1, fs2, i)
    ensures OthersKept(fs, fs2, i)
  {
    forall x | x != i ensures KeptFile(fs, fs2, x) { assert KeptFile(fs, fs1, x) && KeptFile(fs1, fs2, x); }
  }

  /** Every block of the first n bytes exists. */
  ghost predicate HoleFree(fs: Fs, i: int, n: int) {
    Shaped(fs) && i in fs.inodes && 0 <= n <= MAX_BLKS * BLK && forall p :: 0 <= p < n ==> FileByte(fs, i, p).Some?
  }

  /** The first n bytes of a file. */
  ghost function Content(fs: Fs, i: int, n: int): (c: seq<int>)
    requires HoleFree(fs, i, n)
    ensures |c| == n
  {
    seq(n, p requires 0 <= p < n => FileByte(fs, i, p).value)
  }

  /** A block of a file is no indirect block, and of no other file or place. */
  lemma BlockOwner(fs: Fs, owner: map<int, Slot>, i: int, k: int)
    requires Inv(fs, owner) && i in fs.inodes && 0 <= k < MAX_BLKS && BlockOf(fs, i, k) != 0
    ensures var b := BlockOf(fs, i, k);
      b in owner && owner[b] == SlotOf(i, k) && !IsTable(owner, b) && b in fs.data && b > 0
  {
    assert NamedAt(fs, owner, SlotOf(i, k));
    assert OwnedAt(fs, owner, BlockOf(fs, i, k));
  }

  /** The slots on the way to block k of file i. */
  predicate Serves(s: Slot, i: int, k: int) { s == SlotOf(i, k) || (k >= NDIRECT && s == Top(i, Indir(k))) }

  /** Later versions name what earlier ones named and keep its contents; only the way to block k
      of file i may be new. */
  ghost predicate Grown(fs: Fs, owner: map<int, Slot>, fs': Fs, owner': map<int, Slot>, i: int, k: int) {
    && Shaped(fs) && Shaped(fs') && fs'.inodes.Keys == fs.inodes.Keys && fs'.data.Keys == fs.data.Keys
    && (forall x :: x in fs.inodes ==>
         fs'.inodes[x].size == fs.inodes[x].size && (x != i ==> fs'.inodes[x] == fs.inodes[x]))
    && (forall s :: SlotOk(fs, s) && (Ref(fs, s) != 0 || !Serves(s, i, k)) ==>
         SlotOk(fs', s) && Ref(fs', s) == Ref(fs, s))
    && (forall b :: b in owner ==> b in owner' && owner'[b] == owner[b])
    && (forall b :: b in owner && b in fs.data && !IsTable(owner, b) ==> fs'.data[b] == fs.data[b])
  }

  lemma GrownSame(fs: Fs, owner: map<int, Slot>, i: int, k: int)
    requires Shaped(fs)
    ensures Grown(fs, owner, fs, owner, i, k)
  {
  }

  lemma GrownTwice(fs: Fs, owner: map<int, Slot>, fs1: Fs, owner1: map<int, Slot>, fs2: Fs, owner2: map<int, Slot>,
                   i: int, k: int)
    requires Grown(fs, owner, fs1, owner1, i, k) && Grown(fs1, owner1, fs2, owner2, i, k)
    ensures Grown(fs, owner, fs2, owner2, i, k)
  {
    forall s | SlotOk(fs, s) && (Ref(fs, s) != 0 || !Serves(s, i, k))
      ensures SlotOk(fs2, s) && Ref(fs2, s) == Ref(fs, s)
    {
      assert SlotOk(fs1, s) && Ref(fs1, s) == Ref(fs, s);
    }
  }

  /** A file keeps its bytes when the file system grows, and gains some at block k of file i at most. */
  lemma GrownBytes(fs: Fs, owner: map<int, Slot>, fs': Fs, owner': map<int, Slot>, i: int, k: int, x: int, p: int)
    requires Inv(fs, owner) && Grown(fs, owner, fs', owner', i, k) && x in fs.inodes && 0 <= p < MAX_BLKS * BLK
    requires x != i || p / BLK != k || BlockOf(fs, x, p / BLK) != 0
    ensures x in fs'.inodes && FileByte(fs', x, p) == FileByte(fs, x, p)
  {
    assert x in fs'.inodes.Keys && SlotOk(fs, SlotOf(x, p / BLK));
    if BlockOf(fs, x, p / BLK) != 0 { BlockOwner(fs, owner, x, p / BLK); }
  }

  lemma GrownOthers(fs: Fs, owner: map<int, Slot>, fs': Fs, owner': map<int, Slot>, i: int, k: int)
    requires Inv(fs, owner) && Grown(fs, owner, fs', owner', i, k)
    ensures OthersKept(fs, fs', i)
  {
    forall x | x != i ensures KeptFile(fs, fs', x) {
      if x in fs.inodes {
        forall p | 0 <= p < MAX_BLKS * BLK ensures x in fs'.inodes && FileByte(fs', x, p) == FileByte(fs, x, p) {
          GrownBytes(fs, owner, fs', owner', i, k, x, p);
        }
        assert x in fs'.inodes.Keys;
      }
    }
  }

  /** Storing into block k of file i changes these bytes of that file, and no other. */
  lemma StoreBytes(fs: Fs, owner: map<int, Slot>, i: int, k: int, bytes: seq<int>, x: int, p: int)
    requires Inv(fs, owner) && i in fs.inodes && 0 <= k < MAX_BLKS && BlockOf(fs, i, k) != 0 && |bytes| == BLK
    requires x in fs.inodes && 0 <= p < MAX_BLKS * BLK
    ensures Shaped(WriteBlock(fs, BlockOf(fs, i, k), bytes))
    ensures FileByte(WriteBlock(fs, BlockOf(fs, i, k), bytes), x, p) ==
      if x == i && p / BLK == k then Some(bytes[p % BLK]) else FileByte(fs, x, p)
  {
    var b := BlockOf(fs, i, k);
    BlockOwner(fs, owner, i, k);
    WriteRefs(fs, owner, b, bytes, SlotOf(x, p / BLK));
    if BlockOf(fs, x, p / BLK) != 0 { BlockOwner(fs, owner, x, p / BLK); }
  }

  lemma StoreOthers(fs: Fs, owner: map<int, Slot>, i: int, k: int, bytes: seq<int>)
    requires Inv(fs, owner) && i in fs.inodes && 0 <= k < MAX_BLKS && BlockOf(fs, i, k) != 0 && |bytes| == BLK
    ensures OthersKept(fs, WriteBlock(fs, BlockOf(fs, i, k), bytes), i)
  {
    var fs' := WriteBlock(fs, BlockOf(fs, i, k), bytes);
    forall x | x != i ensures KeptFile(fs, fs', x) {
      if x in fs.inodes {
        forall p | 0 <= p < MAX_BLKS * BLK ensures Shaped(fs') && FileByte(fs', x, p) == FileByte(fs, x, p) {
          StoreBytes(fs, owner, i, k, bytes, x, p);
        }
      }
      BlockOwner(fs, owner, i, k);
    }
  }

  // ---------------------------------------------------------------- growth by one block

  function Zeros(): (z: seq<int>)
    ensures |z| == BLK && forall i :: 0 <= i < BLK ==> z[i] == 0
  {
    seq(BLK, _ => 0)
  }

  /** A block no one names is cleared. */
  lemma ClearGrows(fs: Fs, owner: map<int, Slot>, b: int, i: int, k: int)
    requires Inv(fs, owner) && b in fs.data && b !in owner
    ensures Inv(WriteBlock(fs, b, Zeros()), owner) && Grown(fs, owner, WriteBlock(fs, b, Zeros()), owner, i, k)
    ensures forall s :: SlotOk(fs, s) ==>
      SlotOk(WriteBlock(fs, b, Zeros()), s) && Ref(WriteBlock(fs, b, Zeros()), s) == Ref(fs, s)
  {
    WriteInv(fs, owner, b, Zeros());
    forall s | SlotOk(fs, s) ensures Ref(WriteBlock(fs, b, Zeros()), s) == Ref(fs, s) {
      WriteRefs(fs, owner, b, Zeros(), s);
    }
  }

  lemma BindGrows(fs: Fs, owner: map<int, Slot>, fs': Fs, s0: Slot, b: int, k: int)
    requires Serves(s0, s0.ino, k)
    requires Inv(fs, owner) && Rebound(fs, fs', s0, b) && SlotOk(fs, s0) && Ref(fs, s0) == 0 && b !in owner
    requires forall x :: x in fs.inodes ==>
      fs'.inodes[x].size == fs.inodes[x].size && (x != s0.ino ==> fs'.inodes[x] == fs.inodes[x])
    requires forall x :: x in owner && x in fs.data && !IsTable(owner, x) ==> fs'.data[x] == fs.data[x]
    ensures Grown(fs, owner, fs', owner[b := s0], s0.ino, k)
  {
    forall x | x in fs.inodes ensures x in fs'.inodes { assert x in fs'.inodes.Keys; }
  }

  /** A cleared block goes into an address slot. */
  lemma TopGrows(fs: Fs, owner: map<int, Slot>, i: int, j: int, b: int, k: int)
    requires Serves(Top(i, j), i, k)
    requires Inv(fs, owner) && SlotOk(fs, Top(i, j)) && fs.inodes[i].addrs[j] == 0
    requires b in fs.data && b > 0 && b !in owner && fs.data[b] == Zeros()
    ensures Inv(SetTop(fs, i, j, b), owner[b := Top(i, j)])
    ensures Grown(fs, owner, SetTop(fs, i, j, b), owner[b := Top(i, j)], i, k)
  {
    SetTopRebound(fs, owner, i, j, b);
    BindInv(fs, owner, SetTop(fs, i, j, b), Top(i, j), b);
    BindGrows(fs, owner, SetTop(fs, i, j, b), Top(i, j), b, k);
  }

  /** A block goes into an indirect entry. */
  lemma EntryGrows(fs: Fs, owner: map<int, Slot>, i: int, k: int, b: int)
    requires Inv(fs, owner) && SlotOk(fs, Entry(i, k)) && fs.inodes[i].addrs[Indir(k)] != 0 && Ref(fs, Entry(i, k)) == 0
    requires b in fs.data && 0 < b < WORD && b !in owner
    ensures fs.inodes[i].addrs[Indir(k)] in fs.data
    ensures Inv(SetEntry(fs, i, k, b), owner[b := Entry(i, k)])
    ensures Grown(fs, owner, SetEntry(fs, i, k, b), owner[b := Entry(i, k)], i, k)
  {
    TableOwner(fs, owner, i, k);
    SetEntryRebound(fs, owner, i, k, b);
    BindInv(fs, owner, SetEntry(fs, i, k, b), Entry(i, k), b);
    BindGrows(fs, owner, SetEntry(fs, i, k, b), Entry(i, k), b, k);
  }

  // ---------------------------------------------------------------- what a file needs

  /** A file of n bytes needs this slot. */
  predicate Needed(s: Slot, n: int) {
    match s
    case Top(_, j) => if j < NDIRECT then j * BLK < n else (NDIRECT + PTRS * (j - NDIRECT)) * BLK < n
    case Entry(_, k) => k * BLK < n
  }

  predicate TableSlot(s: Slot) { s.Top? && s.j >= NDIRECT }

  /** File i names no data block beyond its n bytes; if `tables`, no indirect block either. */
  ghost predicate Trim(fs: Fs, i: int, n: int, tables: bool) {
    Shaped(fs) &&
    forall s :: SlotOk(fs, s) && s.ino == i && Ref(fs, s) != 0 && (tables || !TableSlot(s)) ==> Needed(s, n)
  }

  lemma ServesNeeded(s: Slot, i: int, at: int, n: int)
    requires 0 <= at < n && Serves(s, i, at / BLK)
    ensures Needed(s, n)
  {
  }
}
