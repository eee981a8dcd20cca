/** Allocation bitmaps of the file system: one bit per element, low bit first. */
module SfsBitmap {
  /** 1 << bit. */
  function Mask(bit: int): bv8
    requires 0 <= bit < 8
  {
    if bit == 0 then 0x01 else if bit == 1 then 0x02 else if bit == 2 then 0x04 else if bit == 3 then 0x08
    else if bit == 4 then 0x10 else if bit == 5 then 0x20 else if bit == 6 then 0x40 else 0x80
  }

  predicate IsSet(x: bv8, bit: int)
    requires 0 <= bit < 8
  {
    x & Mask(bit) != 0
  }

  lemma SetBit(x: bv8, j: int, k: int)
    requires 0 <= j < 8 && 0 <= k < 8
    ensures IsSet(x | Mask(j), k) <==> j == k || IsSet(x, k)
  {
  }

  lemma ClearBit(x: bv8, j: int, k: int)
    requires 0 <= j < 8 && 0 <= k < 8
    ensures IsSet(x & !Mask(j), k) <==> j != k && IsSet(x, k)
  {
  }

  predicate Bit(s: seq<bv8>, n: int)
    requires 0 <= n < 8 * |s|
  {
    IsSet(s[n / 8], n % 8)
  }

  lemma BitAt(s: seq<bv8>, byte: int, bit: int)
    requires 0 <= byte < |s| && 0 <= bit < 8
    ensures Bit(s, 8 * byte + bit) <==> IsSet(s[byte], bit)
  {
    assert (8 * byte + bit) / 8 == byte && (8 * byte + bit) % 8 == bit;
  }

  ghost predicate AllSet(s: seq<bv8>, count: int)
    requires count <= 8 * |s|
  {
    forall n :: 0 <= n < count ==> Bit(s, n)
  }

  lemma SetElement(s: seq<bv8>, byte: int, bit: int, n: int)
    requires 0 <= byte < |s| && 0 <= bit < 8 && 0 <= n < 8 * |s|
    ensures Bit(s[byte := s[byte] | Mask(bit)], n) <==> n == 8 * byte + bit || Bit(s, n)
  {
    if n / 8 == byte { SetBit(s[byte], bit, n % 8); }
  }

  /** bmap_alloc_element: the first clear bit of the first `size` bytes is set, and no other. */
  method AllocElement(bmap: seq<bv8>, size: int) returns (index: int, bmap': seq<bv8>)
    requires 0 <= size <= |bmap|
    ensures -1 <= index < 8 * size && |bmap'| == |bmap|
    ensures index == -1 ==> bmap' == bmap && AllSet(bmap, 8 * size)
    ensures index >= 0 ==> !Bit(bmap, index) && AllSet(bmap, index)
    ensures index >= 0 ==> forall n :: 0 <= n < 8 * |bmap| ==> (Bit(bmap', n) <==> n == index || Bit(bmap, n))
  {
    for byte := 0 to size
      invariant AllSet(bmap, 8 * byte)
    {
      for bit := 0 to 8
        invariant AllSet(bmap, 8 * byte + bit)
      {
        BitAt(bmap, byte, bit);
        if bmap[byte] & Mask(bit) == 0 {
          bmap' := bmap[byte := bmap[byte] | Mask(bit)];
          forall n | 0 <= n < 8 * |bmap| ensures Bit(bmap', n) <==> n == 8 * byte + bit || Bit(bmap, n) {
            SetElement(bmap, byte, bit, n);
          }
          return byte * 8 + bit, bmap';
        }
      }
    }
    return -1, bmap;
  }

  /** bmap_free_element: the bit is cleared, and no other. */
  method FreeElement(bmap: seq<bv8>, index: int) returns (bmap': seq<bv8>)
    requires 0 <= index < 8 * |bmap|
    ensures |bmap'| == |bmap|
    ensures forall n :: 0 <= n < 8 * |bmap| ==> (Bit(bmap', n) <==> n != index && Bit(bmap, n))
  {
    bmap' := bmap[index / 8 := bmap[index / 8] & !Mask(index % 8)];
    forall n | 0 <= n < 8 * |bmap| ensures Bit(bmap', n) <==> n != index && Bit(bmap, n) {
      ClearBit(bmap[index / 8], index % 8, n % 8);
    }
  }

  // ---------------------------------------------------------------- the data bitmap

  const BLK := 512
  const BITS := 4096

  ghost predicate Shape(bmap: seq<seq<bv8>>) { forall q :: 0 <= q < |bmap| ==> |bmap[q]| == BLK }

  /** Bit n of a bitmap of several blocks. */
  ghost predicate Used(bmap: seq<seq<bv8>>, n: int)
    requires Shape(bmap) && 0 <= n < BITS * |bmap|
  {
    Bit(bmap[n / BITS], n % BITS)
  }

  /** How many bytes of bitmap block q are searched; the count of blocks left is a 64-bit word. */
  function SearchBytes(size: int, q: int): (r: int)
    ensures 0 <= r <= BLK
  {
    var bytes := (size - BITS * q) % 0x1_0000_0000_0000_0000 / 8;
    if BLK < bytes then BLK else bytes
  }

  /** Every bit that allocation looks at is set. */
  ghost predicate Full(bmap: seq<seq<bv8>>, size: int)
    requires Shape(bmap)
  {
    forall q :: 0 <= q < |bmap| ==> AllSet(bmap[q], 8 * SearchBytes(size, q))
  }

  lemma Position(q: int, index: int)
    requires 0 <= index < BITS
    ensures (BITS * q + index) / BITS == q && (BITS * q + index) % BITS == index
  {
  }

  /** One block of the bitmap differs in one bit. */
  lemma OneBit(bmap: seq<seq<bv8>>, q: int, index: int, block: seq<bv8>, n: int)
    requires Shape(bmap) && 0 <= q < |bmap| && |block| == BLK && 0 <= index < BITS && 0 <= n < BITS * |bmap|
    requires forall x :: 0 <= x < BITS && x != index ==> (Bit(block, x) <==> Bit(bmap[q], x))
    ensures Shape(bmap[q := block])
    ensures Used(bmap[q := block], n) <==> if n == BITS * q + index then Bit(block, index) else Used(bmap, n)
  {
    Position(q, index);
  }

  /** Bit n is the first clear bit that allocation looks at. */
  ghost predicate FirstClear(bmap: seq<seq<bv8>>, size: int, n: int)
    requires Shape(bmap)
  {
    && 0 <= n < BITS * |bmap| && !Used(bmap, n) && AllSet(bmap[n / BITS], n % BITS)
    && n % BITS < 8 * SearchBytes(size, n / BITS)
    && forall q :: 0 <= q < n / BITS ==> AllSet(bmap[q], 8 * SearchBytes(size, q))
  }

  /** The search of alloc_data_block: the first clear bit is set, and no other; or (-1) all bits searched are set. */
  method MarkFree(bmap: seq<seq<bv8>>, size: int) returns (n: int, bmap': seq<seq<bv8>>)
    requires Shape(bmap)
    ensures Shape(bmap') && |bmap'| == |bmap| && -1 <= n < BITS * |bmap|
    ensures n == -1 ==> bmap' == bmap && Full(bmap, size)
    ensures n >= 0 ==> FirstClear(bmap, size, n) && !Full(bmap, size)
    ensures n >= 0 ==> forall x :: 0 <= x < BITS * |bmap| ==> (Used(bmap', x) <==> x == n || Used(bmap, x))
  {
    for q := 0 to |bmap|
      invariant forall r :: 0 <= r < q ==> AllSet(bmap[r], 8 * SearchBytes(size, r))
    {
      var index, block := AllocElement(bmap[q], SearchBytes(size, q));
      if index >= 0 {
        Position(q, index);
        forall x | 0 <= x < BITS * |bmap|
          ensures Used(bmap[q := block], x) <==> x == BITS * q + index || Used(bmap, x)
        {
          OneBit(bmap, q, index, block, x);
        }
        return BITS * q + index, bmap[q := block];
      }
    }
    return -1, bmap;
  }

  /** Of the bits allocation looks at, only bit n is clear. */
  ghost predicate OneLeft(bmap: seq<seq<bv8>>, size: int, n: int)
    requires Shape(bmap)
  {
    && FirstClear(bmap, size, n)
    && forall q, y :: 0 <= q < |bmap| && 0 <= y < 8 * SearchBytes(size, q) && BITS * q + y != n ==> Bit(bmap[q], y)
  }

  lemma OnlyClear(bmap: seq<seq<bv8>>, size: int, n: int, m: int)
    requires Shape(bmap) && OneLeft(bmap, size, n) && FirstClear(bmap, size, m)
    ensures m == n && !Full(bmap, size)
  {
    assert BITS * (m / BITS) + m % BITS == m;
  }

  /** Once that bit is set, allocation fails. */
  lemma NoneLeft(bmap: seq<seq<bv8>>, bmap': seq<seq<bv8>>, size: int, n: int, m: int)
    requires Shape(bmap) && OneLeft(bmap, size, n) && FirstClear(bmap, size, m)
    requires Shape(bmap') && |bmap'| == |bmap|
    requires forall x :: 0 <= x < BITS * |bmap| ==> (Used(bmap', x) <==> x == m || Used(bmap, x))
    ensures m == n && Full(bmap', size)
  {
    Position(m / BITS, m % BITS);
    assert BITS * (m / BITS) + m % BITS == m;
    forall q, y | 0 <= q < |bmap| && 0 <= y < 8 * SearchBytes(size, q) ensures Bit(bmap'[q], y) {
      Position(q, y);
      assert Used(bmap', BITS * q + y);
    }
  }

  /** free_data_block: the bit of the block is cleared, and no other. */
  method ClearUsed(bmap: seq<seq<bv8>>, n: int) returns (bmap': seq<seq<bv8>>)
    requires Shape(bmap) && 0 <= n < BITS * |bmap|
    ensures Shape(bmap') && |bmap'| == |bmap|
    ensures forall x :: 0 <= x < BITS * |bmap| ==> (Used(bmap', x) <==> x != n && Used(bmap, x))
  {
    var q, index := n / BITS, n % BITS;
    var block := FreeElement(bmap[q], index);
    bmap' := bmap[q := block];
    forall x | 0 <= x < BITS * |bmap| ensures Used(bmap', x) <==> x != n && Used(bmap, x) {
      OneBit(bmap, q, index, block, x);
    }
  }
}
