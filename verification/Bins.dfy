/** Sizes, the table of small-size bins and the size-to-bin map of the memory manager. */
module Bins {

  const CHUNK_SIZE: nat := 2097152
  const PAGE_SIZE: nat := 4096
  const PAGES: nat := 512
  const FIRST_PAGE: nat := 1
  const MAX_SMALL_SIZE: nat := 3072
  const MAX_LARGE_SIZE: nat := 2093056
  const BINS: nat := 30

  function BinSize(b: nat): nat
    requires b < BINS
  {
    [8, 16, 24, 32, 40, 48, 56, 64, 80, 96, 112, 128, 160, 192, 224, 256, 320, 384, 448, 512,
     640, 768, 896, 1024, 1280, 1536, 1792, 2048, 2560, 3072][b]
  }

  function BinElements(b: nat): nat
    requires b < BINS
  {
    [512, 256, 170, 128, 102, 85, 73, 64, 51, 42, 36, 32, 25, 21, 18, 16, 64, 32, 9, 8,
     32, 16, 9, 8, 16, 8, 16, 8, 8, 4][b]
  }

  function BinPages(b: nat): nat
    requires b < BINS
  {
    [1, 1, 1, 1, 1, 1, 1, 1, 1, 1, 1, 1, 1, 1, 1, 1, 5, 3, 1, 1, 5, 3, 2, 2, 5, 3, 7, 4, 5, 3][b]
  }

  lemma BinSizes(b: nat)
    requires b < BINS
    ensures 8 <= BinSize(b) <= MAX_SMALL_SIZE && BinSize(b) % 8 == 0
  {
  }

  lemma BinCounts(b: nat)
    requires b < BINS
    ensures 2 <= BinElements(b) <= 512 && (BinElements(b) == 512 <==> b == 0)
    ensures 1 <= BinPages(b) <= 7
  {
  }

  lemma BinFits(b: nat)
    requires b < BINS
    ensures BinSize(b) * BinElements(b) <= BinPages(b) * PAGE_SIZE
  {
    if b < 15 {
      BinFitsLow(b);
    } else {
      BinFitsHigh(b);
    }
  }

  lemma BinFitsLow(b: nat)
    requires b < 15
    ensures BinSize(b) * BinElements(b) <= BinPages(b) * PAGE_SIZE
  {
  }

  lemma BinFitsHigh(b: nat)
    requires 15 <= b < BINS
    ensures BinSize(b) * BinElements(b) <= BinPages(b) * PAGE_SIZE
  {
  }

  lemma BinFullLow(b: nat)
    requires b < 15
    ensures BinPages(b) * PAGE_SIZE < BinSize(b) * BinElements(b) + BinSize(b)
  {
  }

  lemma BinFullHigh(b: nat)
    requires 15 <= b < BINS
    ensures BinPages(b) * PAGE_SIZE < BinSize(b) * BinElements(b) + BinSize(b)
  {
  }

  /** The elements of a run fit in its pages, and no more would; a run has at least two, and only bin 0
      has 512. */
  lemma BinTable(b: nat)
    requires b < BINS
    ensures 8 <= BinSize(b) <= MAX_SMALL_SIZE && BinSize(b) % 8 == 0
    ensures 2 <= BinElements(b) <= 512 && (BinElements(b) == 512 <==> b == 0)
    ensures 1 <= BinPages(b) <= 7
    ensures BinSize(b) * BinElements(b) <= BinPages(b) * PAGE_SIZE < BinSize(b) * BinElements(b) + BinSize(b)
  {
    hide BinSize, BinElements, BinPages;
    BinSizes(b);
    BinCounts(b);
    BinFits(b);
    if b < 15 {
      BinFullLow(b);
    } else {
      BinFullHigh(b);
    }
  }

  /** zend_mm_small_size_to_bit: position of the highest set bit, counted from one. */
  function SizeToBit(size: nat): int {
    var (n3, s3) := if size <= 0x00ff then (8, size * 256) else (16, size);
    var (n2, s2) := if s3 <= 0x0fff then (n3 - 4, s3 * 16) else (n3, s3);
    var (n1, s1) := if s2 <= 0x3fff then (n2 - 2, s2 * 4) else (n2, s2);
    if s1 <= 0x7fff then n1 - 1 else n1
  }

  function Pow2(n: nat): (p: nat)
    ensures p > 0
  {
    if n == 0 then 1 else 2 * Pow2(n - 1)
  }

  /** zend_mm_small_size_to_bin */
  function SizeToBin(size: nat): int {
    if size <= 64 then
      (size - (if size != 0 then 1 else 0)) / 8
    else
      var t1 := size - 1;
      var t2 := SizeToBit(t1) - 3;
      t1 / (if t2 < 0 then 1 else Pow2(t2)) + (t2 - 3) * 4
  }

  lemma {:induction false} SizeToBitIsHighest(size: nat)
    requires 1 <= size < 65536
    ensures SizeToBit(size) >= 1
    ensures Pow2(SizeToBit(size) - 1) <= size < Pow2(SizeToBit(size))
  {
    Pow2Table();
    if size <= 0x00ff {
    } else {
    }
  }

  lemma Pow2Table()
    ensures Pow2(0) == 1 && Pow2(1) == 2 && Pow2(2) == 4 && Pow2(3) == 8 && Pow2(4) == 16
    ensures Pow2(5) == 32 && Pow2(6) == 64 && Pow2(7) == 128 && Pow2(8) == 256 && Pow2(9) == 512
    ensures Pow2(10) == 1024 && Pow2(11) == 2048 && Pow2(12) == 4096 && Pow2(13) == 8192
    ensures Pow2(14) == 16384 && Pow2(15) == 32768 && Pow2(16) == 65536
  {
  }

  lemma SizeToBin128(size: nat)
    requires 64 < size <= 128
    ensures var b := SizeToBin(size); 8 <= b < 12 && BinSize(b - 1) < size <= BinSize(b)
  {
    Pow2Table();
    assert SizeToBit(size - 1) == 7;
    assert SizeToBin(size) == (size - 1) / 16 + 4;
    if size <= 80 {
      assert SizeToBin(size) == 8;
    } else if size <= 96 {
      assert SizeToBin(size) == 9;
    } else if size <= 112 {
      assert SizeToBin(size) == 10;
    } else {
      assert SizeToBin(size) == 11;
    }
  }

  lemma SizeToBin256(size: nat)
    requires 128 < size <= 256
    ensures var b := SizeToBin(size); 12 <= b < 16 && BinSize(b - 1) < size <= BinSize(b)
  {
    Pow2Table();
    assert SizeToBit(size - 1) == 8;
    assert SizeToBin(size) == (size - 1) / 32 + 8;
    if size <= 160 {
      assert SizeToBin(size) == 12;
    } else if size <= 192 {
      assert SizeToBin(size) == 13;
    } else if size <= 224 {
      assert SizeToBin(size) == 14;
    } else {
      assert SizeToBin(size) == 15;
    }
  }

  lemma SizeToBin512(size: nat)
    requires 256 < size <= 512
    ensures var b := SizeToBin(size); 16 <= b < 20 && BinSize(b - 1) < size <= BinSize(b)
  {
    Pow2Table();
    assert SizeToBit(size - 1) == 9;
    assert SizeToBin(size) == (size - 1) / 64 + 12;
    if size <= 320 {
      assert SizeToBin(size) == 16;
    } else if size <= 384 {
      assert SizeToBin(size) == 17;
    } else if size <= 448 {
      assert SizeToBin(size) == 18;
    } else {
      assert SizeToBin(size) == 19;
    }
  }

  lemma SizeToBin1024(size: nat)
    requires 512 < size <= 1024
    ensures var b := SizeToBin(size); 20 <= b < 24 && BinSize(b - 1) < size <= BinSize(b)
  {
    Pow2Table();
    assert SizeToBit(size - 1) == 10;
    assert SizeToBin(size) == (size - 1) / 128 + 16;
    if size <= 640 {
      assert SizeToBin(size) == 20;
    } else if size <= 768 {
      assert SizeToBin(size) == 21;
    } else if size <= 896 {
      assert SizeToBin(size) == 22;
    } else {
      assert SizeToBin(size) == 23;
    }
  }

  lemma SizeToBin2048(size: nat)
    requires 1024 < size <= 2048
    ensures var b := SizeToBin(size); 24 <= b < 28 && BinSize(b - 1) < size <= BinSize(b)
  {
    Pow2Table();
    assert SizeToBit(size - 1) == 11;
    assert SizeToBin(size) == (size - 1) / 256 + 20;
    if size <= 1280 {
      assert SizeToBin(size) == 24;
    } else if size <= 1536 {
      assert SizeToBin(size) == 25;
    } else if size <= 1792 {
      assert SizeToBin(size) == 26;
    } else {
      assert SizeToBin(size) == 27;
    }
  }

  lemma SizeToBin3072(size: nat)
    requires 2048 < size <= 3072
    ensures var b := SizeToBin(size); 28 <= b < 30 && BinSize(b - 1) < size <= BinSize(b)
  {
    Pow2Table();
    assert SizeToBit(size - 1) == 12;
    assert SizeToBin(size) == (size - 1) / 512 + 24;
    if size <= 2560 {
      assert SizeToBin(size) == 28;
    } else {
      assert SizeToBin(size) == 29;
    }
  }

  lemma SizeToBin64(size: nat)
    requires size <= 64
    ensures var b := SizeToBin(size); 0 <= b < 8 && size <= BinSize(b) && (b > 0 ==> BinSize(b - 1) < size)
  {
    EighthBins(if size == 0 then 0 else (size - 1) / 8);
  }

  lemma EighthBins(b: nat)
    requires b < 8
    ensures BinSize(b) == 8 * b + 8
  {
  }

  lemma BinSizeNext(b: nat)
    requires b + 1 < BINS
    ensures BinSize(b) < BinSize(b + 1)
  {
  }

  /** Bins are ordered by size. */
  lemma {:induction false} BinSizesIncrease(c: nat, b: nat)
    requires c < b < BINS
    ensures BinSize(c) < BinSize(b)
    decreases b
  {
    hide BinSize;
    BinSizeNext(b - 1);
    if c < b - 1 {
      BinSizesIncrease(c, b - 1);
    }
  }

  /** The bin of a small size is the first one whose elements are large enough: those of all bins
      before it are too small. */
  lemma SizeToBinIsSmallest(size: nat)
    requires size <= MAX_SMALL_SIZE
    ensures 0 <= SizeToBin(size) < BINS
    ensures size <= BinSize(SizeToBin(size))
    ensures forall b: nat :: b < SizeToBin(size) ==> BinSize(b) < size
  {
    hide BinSize, SizeToBin;
    if size <= 64 {
      SizeToBin64(size);
    } else if size <= 128 {
      SizeToBin128(size);
    } else if size <= 256 {
      SizeToBin256(size);
    } else if size <= 512 {
      SizeToBin512(size);
    } else if size <= 1024 {
      SizeToBin1024(size);
    } else if size <= 2048 {
      SizeToBin2048(size);
    } else {
      SizeToBin3072(size);
    }
    var bin := SizeToBin(size);
    forall b: nat | b < bin
      ensures BinSize(b) < size
    {
      if b < bin - 1 {
        BinSizesIncrease(b, bin - 1);
      }
    }
  }
}
