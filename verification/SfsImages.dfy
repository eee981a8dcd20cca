/**
Two volumes, laid out as the file system builder does (`tools/mkfs.c:18-31`): super block at
block 2, inode bitmap, inode table, one block of data bitmap, 256 blocks of journal, data. With
24 inodes in three blocks the data starts at block 264.
 */
module SfsImages {
  import opened Common
  import opened SfsModel
  import opened Sfs
  import opened SfsBehind
  import opened SfsDelete
  import opened SfsLeak
  import opened Bitmap = SfsBitmap

  const START := 264

  // ---------------------------------------------------------------- bitmaps and blocks

  function LowMask(r: int): bv8 {
    if r == 1 then 0x01 else if r == 2 then 0x03 else if r == 3 then 0x07 else if r == 4 then 0x0F
    else if r == 5 then 0x1F else if r == 6 then 0x3F else if r == 7 then 0x7F else 0x00
  }

  lemma LowBit(r: int, x: int)
    requires 0 <= r < 8 && 0 <= x < 8
    ensures IsSet(LowMask(r), x) <==> x < r
  {
  }

  /** The first n bits are set. */
  function FirstBits(n: int): (s: seq<bv8>)
    ensures |s| == BLK
  {
    seq(BLK, q => if 8 * q + 8 <= n then 0xFF else if n <= 8 * q then 0 else LowMask(n % 8))
  }

  lemma FirstBit(n: int, x: int)
    requires 0 <= n && 0 <= x < BITS
    ensures Bit(FirstBits(n), x) <==> x < n
  {
    if x / 8 == n / 8 { LowBit(n % 8, x % 8); }
  }

  /** Word w of a block holds f(w). */
  function Block(f: int -> int): (b: seq<int>)
    ensures |b| == BLK
  {
    seq(BLK, q => Digit(f(q / 4), q % 4))
  }

  function Digit(v: int, d: int): int {
    if d == 0 then v % 0x100 else if d == 1 then v / 0x100 % 0x100
    else if d == 2 then v / 0x1_0000 % 0x100 else v / 0x100_0000 % 0x100
  }

  lemma BlockWord(f: int -> int, w: int)
    requires 0 <= w < PTRS && 0 <= f(w) < WORD
    ensures GetWord(Block(f), w) == f(w)
  {
    Digits(f(w));
    var b := Block(f);
    assert 4 * w / 4 == w && (4 * w + 1) / 4 == w && (4 * w + 2) / 4 == w && (4 * w + 3) / 4 == w;
    assert b[4 * w] == Digit(f(w), 0) && b[4 * w + 1] == Digit(f(w), 1);
    assert b[4 * w + 2] == Digit(f(w), 2) && b[4 * w + 3] == Digit(f(w), 3);
  }

  // ---------------------------------------------------------------- 24 files, one block left

  const FILES := 24
  const USED := 287   // the last file has eleven blocks, the others twelve

  /** Address j of file f. */
  function Address(f: int, j: int): int { if j < 12 && 12 * (f - 1) + j < USED then START + 12 * (f - 1) + j else 0 }

  function FileOf(f: int): (n: Inode)
    ensures |n.addrs| == NADDRS && forall j :: 0 <= j < NADDRS ==> n.addrs[j] == Address(f, j)
  {
    Inode(if f < FILES then TWELVE else TWELVE - BLK, seq(NADDRS, j => Address(f, j)))
  }

  /** Every byte of block b is the low byte of its number. */
  function Filled(b: int): (s: seq<int>)
    ensures |s| == BLK
  {
    seq(BLK, _ => b % 0x100)
  }

  function FullFs(): Fs {
    Fs(map f | 1 <= f <= FILES :: FileOf(f), map b | START <= b < START + BITS :: Filled(b))
  }

  function OwnerOf(b: int): Slot { Top((b - START) / 12 + 1, (b - START) % 12) }

  function FullOwners(): map<int, Slot> { map b | START <= b < START + USED :: OwnerOf(b) }

  lemma FullRefs(s: Slot)
    requires SlotOk(FullFs(), s)
    ensures Shaped(FullFs()) && Ref(FullFs(), s) == if s.Top? then Address(s.ino, s.j) else 0
  {
    if s.Entry? { assert FullFs().inodes[s.ino].addrs[Indir(s.k)] == Address(s.ino, Indir(s.k)) == 0; }
  }

  lemma FullNames(s: Slot)
    requires SlotOk(FullFs(), s)
    ensures Shaped(FullFs())
    ensures var b := Ref(FullFs(), s); b == 0 || (START <= b < START + USED && OwnerOf(b) == s)
  {
    FullRefs(s);
    if s.Top? && s.j < 12 {
      assert (12 * (s.ino - 1) + s.j) / 12 == s.ino - 1 && (12 * (s.ino - 1) + s.j) % 12 == s.j;
    }
  }

  lemma FullInv()
    ensures Inv(FullFs(), FullOwners())
  {
    var fs, owner := FullFs(), FullOwners();
    assert SlotOk(fs, Top(1, 0));
    FullRefs(Top(1, 0));
    forall s ensures NamedAt(fs, owner, s) { if SlotOk(fs, s) { FullNames(s); } }
    forall b | b in owner ensures OwnedAt(fs, owner, b) {
      assert SlotOk(fs, OwnerOf(b));
      FullRefs(OwnerOf(b));
    }
  }

  lemma FirstFile(p: int)
    requires 0 <= p < TWELVE
    ensures Shaped(FullFs()) && 1 in FullFs().inodes && FileByte(FullFs(), 1, p).Some?
  {
    FullRefs(Top(1, p / BLK));
  }

  lemma FirstTrim()
    ensures Trim(FullFs(), 1, TWELVE, true)
  {
    FullRefs(Top(1, 0));
    forall s | SlotOk(FullFs(), s) && s.ino == 1 && Ref(FullFs(), s) != 0 ensures Needed(s, TWELVE) { FullRefs(s); }
  }

  lemma FullBits()
    ensures Shape([FirstBits(USED)]) && OneLeft([FirstBits(USED)], 288, USED)
    ensures BitsOk([FirstBits(USED)], START, FullOwners().Keys)
  {
    var bmap := [FirstBits(USED)];
    FirstBit(USED, USED);
    assert SearchBytes(288, 0) == 36;
    forall y | 0 <= y < BITS ensures Bit(bmap[0], y) <==> y < USED { FirstBit(USED, y); }
  }

  /** A volume of 288 data blocks on which a write and a deletion lose the last free one. */
  lemma LeakIsReal()
    ensures var fs, owner, bmap := FullFs(), FullOwners(), [FirstBits(USED)];
      && Inv(fs, owner) && DataOk(bmap, START, fs) && BitsOk(bmap, START, owner.Keys) && SizesOk(fs)
      && NearlyFull(fs, 1, bmap, 288, USED)
  {
    FullInv();
    FirstTrim();
    FullBits();
    forall p | 0 <= p < TWELVE ensures FileByte(FullFs(), 1, p).Some? { FirstFile(p); }
  }

  // ---------------------------------------------------------------- two files side by side

  const LONG := 141    // blocks of file 1
  const T1 := START + LONG       // its first indirect block
  const U := T1 + 1              // the indirect block of file 2, which has 13 blocks
  const T2 := T1 + 2             // the second indirect block of file 1
  const B0 := T1 + 3             // block 0 of file 2
  const PAIR := LONG + 16        // blocks in use

  function LongAt(j: int): int {
    if j < 12 then START + j else if j == 12 then T1 else if j == 13 then T2 else 0
  }

  function ShortAt(j: int): int { if j < 12 then B0 + j else if j == 12 then U else 0 }

  /** What word w of block b is. */
  function WordAt(b: int, w: int): int {
    if b == T1 then START + 12 + w
    else if b == T2 && w == 0 then START + 140
    else if b == U && w == 0 then B0 + 12
    else 0
  }

  function PairInode(f: int): (n: Inode)
    ensures |n.addrs| == NADDRS
    ensures forall j :: 0 <= j < NADDRS ==> n.addrs[j] == if f == 1 then LongAt(j) else ShortAt(j)
  {
    Inode(if f == 1 then LONG * BLK else 13 * BLK, seq(NADDRS, j => if f == 1 then LongAt(j) else ShortAt(j)))
  }

  function PairBlock(b: int): (s: seq<int>)
    ensures |s| == BLK
  {
    Block(w => WordAt(b, w))
  }

  function PairFs(): Fs {
    Fs(map f | 1 <= f <= 2 :: PairInode(f), map b | START <= b < START + BITS :: PairBlock(b))
  }

  function PairOwner(b: int): Slot {
    if b < START + 12 then Top(1, b - START)
    else if b < T1 then Entry(1, b - START)
    else if b == T1 then Top(1, 12)
    else if b == U then Top(2, 12)
    else if b == T2 then Top(1, 13)
    else if b < B0 + 12 then Top(2, b - B0)
    else Entry(2, 12)
  }

  function PairOwners(): map<int, Slot> { map b | START <= b < START + PAIR :: PairOwner(b) }

  /** What each slot names. */
  function PairRef(s: Slot): int {
    match s
    case Top(f, j) => if f == 1 then LongAt(j) else ShortAt(j)
    case Entry(f, k) =>
      if f == 1 then if k <= 140 then START + k else 0
      else if k == 12 then B0 + 12 else 0
  }

  lemma PairShaped()
    ensures Shaped(PairFs())
  {
  }

  lemma PairWord(b: int, w: int)
    requires START <= b < START + BITS && 0 <= w < PTRS
    ensures Shaped(PairFs()) && GetWord(PairFs().data[b], w) == WordAt(b, w)
  {
    BlockWord(x => WordAt(b, x), w);
  }

  lemma PairRefs(s: Slot)
    requires SlotOk(PairFs(), s)
    ensures Shaped(PairFs()) && Ref(PairFs(), s) == PairRef(s)
  {
    if s.Entry? {
      var t := PairFs().inodes[s.ino].addrs[Indir(s.k)];
      if t != 0 { PairWord(t, IndirOfs(s.k)); }
    }
  }

  lemma PairInv()
    ensures Inv(PairFs(), PairOwners())
  {
    var fs, owner := PairFs(), PairOwners();
    PairShaped();
    forall s ensures NamedAt(fs, owner, s) { if SlotOk(fs, s) { PairRefs(s); } }
    forall b | b in owner ensures OwnedAt(fs, owner, b) {
      assert SlotOk(fs, PairOwner(b));
      PairRefs(PairOwner(b));
    }
  }

  lemma LongFile(p: int)
    requires 0 <= p < LONG * BLK
    ensures Shaped(PairFs()) && FileByte(PairFs(), 1, p).Some?
  {
    PairRefs(SlotOf(1, p / BLK));
  }

  lemma LongTrim()
    ensures Trim(PairFs(), 1, LONG * BLK, false)
  {
    PairShaped();
    forall s | SlotOk(PairFs(), s) && s.ino == 1 && Ref(PairFs(), s) != 0
      ensures TableSlot(s) || Needed(s, LONG * BLK)
    {
      PairRefs(s);
    }
  }

  lemma PairNext()
    ensures NextTo(PairFs(), 1, 2)
  {
    hide GetWord;
    hide PairBlock;
    PairShaped();
    PairWord(U, 0);
    PairRefs(Entry(2, NDIRECT));
    assert Excess(LONG * BLK) == 1 && Behind(PairFs(), 1) == U;
  }

  lemma PairBits()
    ensures BitsOk([FirstBits(PAIR)], START, PairOwners().Keys)
  {
    forall y | 0 <= y < BITS ensures Bit(FirstBits(PAIR), y) <==> y < PAIR { FirstBit(PAIR, y); }
  }

  /** Two files, of 141 and of 13 blocks, with their indirect blocks side by side: deleting the
      first makes the last block of the second a hole. */
  lemma HarmIsReal()
    ensures var fs, owner, bmap := PairFs(), PairOwners(), [FirstBits(PAIR)];
      && Inv(fs, owner) && DataOk(bmap, START, fs) && BitsOk(bmap, START, owner.Keys) && SizesOk(fs)
      && NextTo(fs, 1, 2) && HoleFree(fs, 1, fs.inodes[1].size) && Trim(fs, 1, fs.inodes[1].size, false)
  {
    PairInv();
    LongTrim();
    PairNext();
    PairBits();
    forall p | 0 <= p < LONG * BLK ensures FileByte(PairFs(), 1, p).Some? { LongFile(p); }
  }
}
