/** One 64-bit machine word seen as a set of bit positions, and the trailing-bit
    counters that the allocator and the bitset header compute with shift ladders. */
module Words {

  type Word = bv64

  const WORD_BITS: nat := 64
  const ONES: Word := 0xffff_ffff_ffff_ffff

  /** `w << n`, one place at a time. */
  function ShiftLeft(w: Word, n: nat): Word
    decreases n
  {
    if n == 0 then w else ShiftLeft(w << 1, n - 1)
  }

  /** `w >> n`, one place at a time. */
  function ShiftRight(w: Word, n: nat): Word
    decreases n
  {
    if n == 0 then w else ShiftRight(w >> 1, n - 1)
  }

  /** The word `1 << i`. */
  function Mask(i: nat): Word {
    ShiftLeft(1, i)
  }

  /** `w & m` is not zero. */
  predicate Meets(w: Word, m: Word) {
    w & m != 0
  }

  /** Bit `i` of `w` is set. */
  predicate Bit(w: Word, i: nat)
    requires i < WORD_BITS
  {
    Meets(w, Mask(i))
  }

  // ---------------------------------------------------------------- one-bit masks

  predicate OneHot(m: Word) {
    m != 0 && m & (m - 1) == 0
  }

  lemma {:induction false} ShiftLeftLast(w: Word, n: nat)
    ensures ShiftLeft(w, n + 1) == ShiftLeft(w, n) << 1
    decreases n
  {
    if n != 0 {
      ShiftLeftLast(w << 1, n - 1);
    }
  }

  lemma {:induction false} ShiftLeftAdd(w: Word, a: nat, b: nat)
    ensures ShiftLeft(w, a + b) == ShiftLeft(ShiftLeft(w, a), b)
    decreases a
  {
    if a != 0 {
      ShiftLeftAdd(w << 1, a - 1, b);
      assert a + b - 1 == a - 1 + b;
    }
  }

  lemma {:induction false} ShiftLeftZero(n: nat)
    ensures ShiftLeft(0, n) == 0
  {
    if n != 0 {
      ShiftLeftZero(n - 1);
    }
  }

  lemma ShiftLeft7(w: Word)
    ensures ShiftLeft(w, 7) == w << 7
  {
    assert ShiftLeft(w, 7) == ShiftLeft((w << 1) << 1, 5);
    assert ShiftLeft((w << 1) << 1, 5) == ShiftLeft((((w << 1) << 1) << 1) << 1, 3);
    var v := (((w << 1) << 1) << 1) << 1;
    assert ShiftLeft(v, 3) == ShiftLeft((v << 1) << 1, 1);
    assert ShiftLeft((v << 1) << 1, 1) == ((v << 1) << 1) << 1;
  }

  lemma ShiftLeft21(w: Word)
    ensures ShiftLeft(w, 21) == w << 21
  {
    ShiftLeft7(w);
    ShiftLeft7(w << 7);
    ShiftLeft7(w << 14);
    ShiftLeftAdd(w, 7, 7);
    ShiftLeftAdd(w, 14, 7);
  }

  lemma TopMask()
    ensures Mask(63) == 0x8000_0000_0000_0000
  {
    ShiftLeft21(1);
    ShiftLeft21(1 << 21);
    ShiftLeft21(1 << 42);
    ShiftLeftAdd(1, 21, 21);
    ShiftLeftAdd(1, 42, 21);
  }

  lemma MaskNonZero(i: nat)
    requires i < WORD_BITS
    ensures Mask(i) != 0
  {
    TopMask();
    ShiftLeftAdd(1, i, 63 - i);
    ShiftLeftZero(63 - i);
  }

  lemma OneHotDouble(m: Word)
    requires OneHot(m) && m << 1 != 0
    ensures OneHot(m << 1)
  {
  }

  lemma {:induction false} MaskOneHot(i: nat)
    requires i < WORD_BITS
    ensures OneHot(Mask(i))
    ensures i < 63 ==> Mask(i + 1) == Mask(i) << 1 && Mask(i) << 1 != 0
  {
    ShiftLeftLast(1, i);
    if i != 0 {
      MaskOneHot(i - 1);
      OneHotDouble(Mask(i - 1));
    }
    if i < 63 {
      MaskNonZero(i + 1);
    }
  }

  lemma {:induction false} MaskAbove(i: nat, j: nat)
    requires i < j < WORD_BITS
    ensures Mask(i) < Mask(j)
  {
    MaskOneHot(j - 1);
    if i < j - 1 {
      MaskAbove(i, j - 1);
    }
    DoubleGrows(Mask(j - 1));
  }

  lemma DoubleGrows(m: Word)
    requires OneHot(m) && m << 1 != 0
    ensures m < m << 1
  {
  }

  // ------------------------------------------------- the bits of a computed word

  lemma AndMask(w: Word, v: Word, m: Word)
    requires OneHot(m)
    ensures Meets(w & v, m) <==> Meets(w, m) && Meets(v, m)
  {
  }

  lemma OrMask(w: Word, v: Word, m: Word)
    requires OneHot(m)
    ensures Meets(w | v, m) <==> Meets(w, m) || Meets(v, m)
  {
    assert (w | v) & m == (w & m) | (v & m);
  }

  lemma XorMask(w: Word, v: Word, m: Word)
    requires OneHot(m)
    ensures Meets(w ^ v, m) <==> Meets(w, m) != Meets(v, m)
  {
  }

  lemma NotMask(w: Word, m: Word)
    requires OneHot(m)
    ensures Meets(!w, m) <==> !Meets(w, m)
  {
  }

  lemma LeftMask(w: Word, m: Word, n: Word)
    requires OneHot(m) && n == m << 1 && n != 0
    ensures Meets(w << 1, n) <==> Meets(w, m)
  {
  }

  lemma RightMask(w: Word, m: Word, n: Word)
    requires OneHot(m) && n == m << 1 && n != 0
    ensures Meets(w >> 1, m) <==> Meets(w, n)
  {
  }

  lemma UniformMask(m: Word)
    requires m != 0
    ensures Meets(ONES, m) && !Meets(0, m)
  {
  }

  lemma OneHotMeet(a: Word, b: Word)
    requires OneHot(a) && OneHot(b)
    ensures Meets(a, b) <==> a == b
  {
  }

  lemma EndBits(w: Word)
    ensures !Meets(w << 1, 1) && !Meets(w >> 1, 0x8000_0000_0000_0000)
    ensures Meets(w, 1) <==> w & 1 == 1
  {
  }

  lemma BitAnd(w: Word, v: Word, i: nat)
    requires i < WORD_BITS
    ensures Bit(w & v, i) <==> Bit(w, i) && Bit(v, i)
  {
    hide Meets, OneHot, Mask;
    MaskOneHot(i);
    AndMask(w, v, Mask(i));
  }

  lemma BitOr(w: Word, v: Word, i: nat)
    requires i < WORD_BITS
    ensures Bit(w | v, i) <==> Bit(w, i) || Bit(v, i)
  {
    hide Meets, OneHot, Mask;
    MaskOneHot(i);
    OrMask(w, v, Mask(i));
  }

  lemma BitNot(w: Word, i: nat)
    requires i < WORD_BITS
    ensures Bit(!w, i) <==> !Bit(w, i)
  {
    hide Meets, OneHot, Mask;
    MaskOneHot(i);
    NotMask(w, Mask(i));
  }

  lemma BitUniform(i: nat)
    requires i < WORD_BITS
    ensures Bit(ONES, i) && !Bit(0, i)
  {
    MaskNonZero(i);
    UniformMask(Mask(i));
  }

  lemma BitMask(b: nat, i: nat)
    requires b < WORD_BITS && i < WORD_BITS
    ensures Bit(Mask(b), i) <==> i == b
  {
    hide Meets, OneHot, Mask;
    MaskOneHot(b);
    MaskOneHot(i);
    OneHotMeet(Mask(b), Mask(i));
    if b < i {
      MaskAbove(b, i);
    } else if i < b {
      MaskAbove(i, b);
    }
  }

  lemma BitLeft(w: Word, i: nat)
    requires i < WORD_BITS
    ensures Bit(w << 1, i) <==> i > 0 && Bit(w, i - 1)
  {
    hide Meets, OneHot;
    if i == 0 {
      EndBits(w);
    } else {
      hide Mask;
      MaskOneHot(i - 1);
      LeftMask(w, Mask(i - 1), Mask(i));
    }
  }

  lemma BitRight(w: Word, i: nat)
    requires i < WORD_BITS
    ensures Bit(w >> 1, i) <==> i < 63 && Bit(w, i + 1)
  {
    hide Meets, OneHot, Mask;
    MaskOneHot(i);
    if i < 63 {
      MaskNonZero(i + 1);
      RightMask(w, Mask(i), Mask(i + 1));
    } else {
      TopMask();
      EndBits(w);
    }
  }

  lemma {:induction false} BitShiftLeft(w: Word, n: nat, i: nat)
    requires i < WORD_BITS
    ensures Bit(ShiftLeft(w, n), i) <==> i >= n && Bit(w, i - n)
    decreases n
  {
    if n != 0 {
      BitShiftLeft(w << 1, n - 1, i);
      if i >= n - 1 {
        BitLeft(w, i - (n - 1));
      }
    }
  }

  lemma {:induction false} BitShiftRight(w: Word, n: nat, i: nat)
    requires i < WORD_BITS
    ensures Bit(ShiftRight(w, n), i) <==> i + n < WORD_BITS && Bit(w, i + n)
    decreases n
  {
    if n != 0 {
      BitShiftRight(w >> 1, n - 1, i);
      if i + n - 1 < WORD_BITS {
        BitRight(w, i + n - 1);
      }
    }
  }

  /** Words with the same bits are equal. */
  lemma WordExtensional(w: Word, v: Word)
    requires forall i: nat :: i < WORD_BITS ==> (Bit(w, i) <==> Bit(v, i))
    ensures w == v
  {
    hide Meets, OneHot, Mask;
    if w != v {
      XorDiffers(w, v);
      NtzIsTrailingZeros(w ^ v);
      var i := TrailingZeros(w ^ v);
      assert Bit(w, i) <==> Bit(v, i);
      TrailingZerosBits(w ^ v, i);
      MaskOneHot(i);
      XorMask(w, v, Mask(i));
      assert false;
    }
  }

  lemma XorDiffers(w: Word, v: Word)
    requires w != v
    ensures w ^ v != 0
  {
  }

  // --------------------------------------------------------- trailing-bit counts

  /** Number of set bits below the lowest clear bit. */
  function TrailingOnes(w: Word): nat
    decreases w
  {
    if w & 1 == 0 then 0 else 1 + TrailingOnes(w >> 1)
  }

  /** Number of clear bits below the lowest set bit. */
  function TrailingZeros(w: Word): nat
    requires w != 0
    decreases w
  {
    if w & 1 == 1 then 0 else 1 + TrailingZeros(w >> 1)
  }

  lemma {:induction false} TrailingOnesBits(w: Word, i: nat)
    requires i < WORD_BITS
    ensures i < TrailingOnes(w) ==> Bit(w, i)
    ensures i == TrailingOnes(w) ==> !Bit(w, i)
    decreases i
  {
    if w & 1 != 0 && i > 0 {
      TrailingOnesBits(w >> 1, i - 1);
      BitRight(w, i - 1);
    }
  }

  lemma {:induction false} TrailingZerosBits(w: Word, i: nat)
    requires w != 0 && i < WORD_BITS
    ensures i < TrailingZeros(w) ==> !Bit(w, i)
    ensures i == TrailingZeros(w) ==> Bit(w, i)
    decreases i
  {
    if w & 1 == 0 && i > 0 {
      HalfNonZero(w);
      TrailingZerosBits(w >> 1, i - 1);
      BitRight(w, i - 1);
    }
  }

  lemma HalfNonZero(w: Word)
    requires w & 1 == 0 && w != 0
    ensures w >> 1 != 0 && w >> 1 < w
  {
  }

  /** zend_mm_bitset_nts without compiler builtins: each step drops a block of set bits. */
  function Nts(w: Word): nat {
    if w == ONES then WORD_BITS
    else if w & 0xffff_ffff == 0xffff_ffff then Nts16(32, w >> 32) else Nts16(0, w)
  }

  function Nts16(n: nat, w: Word): nat {
    if w & 0xffff == 0xffff then Nts8(n + 16, w >> 16) else Nts8(n, w)
  }

  function Nts8(n: nat, w: Word): nat {
    if w & 0xff == 0xff then Nts4(n + 8, w >> 8) else Nts4(n, w)
  }

  function Nts4(n: nat, w: Word): nat {
    if w & 0xf == 0xf then Nts2(n + 4, w >> 4) else Nts2(n, w)
  }

  function Nts2(n: nat, w: Word): nat {
    if w & 0x3 == 0x3 then Nts1(n + 2, w >> 2) else Nts1(n, w)
  }

  function Nts1(n: nat, w: Word): nat {
    if w & 1 == 1 then n + 1 else n
  }

  /** zend_ulong_ntz without compiler builtins: starts from 1 and corrects at the end. */
  function Ntz(w: Word): nat {
    if w == 0 then WORD_BITS
    else if w & 0xffff_ffff == 0 then Ntz16(33, w >> 32) else Ntz16(1, w)
  }

  function Ntz16(n: nat, w: Word): nat
    requires n >= 1
  {
    if w & 0xffff == 0 then Ntz8(n + 16, w >> 16) else Ntz8(n, w)
  }

  function Ntz8(n: nat, w: Word): nat
    requires n >= 1
  {
    if w & 0xff == 0 then Ntz4(n + 8, w >> 8) else Ntz4(n, w)
  }

  function Ntz4(n: nat, w: Word): nat
    requires n >= 1
  {
    if w & 0xf == 0 then Ntz2(n + 4, w >> 4) else Ntz2(n, w)
  }

  function Ntz2(n: nat, w: Word): nat
    requires n >= 1
  {
    if w & 0x3 == 0 then Ntz1(n + 2, w >> 2) else Ntz1(n, w)
  }

  function Ntz1(n: nat, w: Word): nat
    requires n >= 1
  {
    if w & 1 == 1 then n - 1 else n
  }

  // Each step of a ladder drops a block of equal low bits whose length is a power of two.

  lemma Ones2(w: Word)
    requires w & 0x3 == 0x3
    ensures TrailingOnes(w) == 2 + TrailingOnes(w >> 2)
  {
    assert (w >> 1) & 1 == 1 && (w >> 1) >> 1 == w >> 2;
  }

  lemma Ones4(w: Word)
    requires w & 0xf == 0xf
    ensures TrailingOnes(w) == 4 + TrailingOnes(w >> 4)
  {
    assert w & 0x3 == 0x3 && (w >> 2) & 0x3 == 0x3 && (w >> 2) >> 2 == w >> 4;
    Ones2(w);
    Ones2(w >> 2);
  }

  lemma Ones8(w: Word)
    requires w & 0xff == 0xff
    ensures TrailingOnes(w) == 8 + TrailingOnes(w >> 8)
  {
    assert w & 0xf == 0xf && (w >> 4) & 0xf == 0xf && (w >> 4) >> 4 == w >> 8;
    Ones4(w);
    Ones4(w >> 4);
  }

  lemma Ones16(w: Word)
    requires w & 0xffff == 0xffff
    ensures TrailingOnes(w) == 16 + TrailingOnes(w >> 16)
  {
    assert w & 0xff == 0xff && (w >> 8) & 0xff == 0xff && (w >> 8) >> 8 == w >> 16;
    Ones8(w);
    Ones8(w >> 8);
  }

  lemma Ones32(w: Word)
    requires w & 0xffff_ffff == 0xffff_ffff
    ensures TrailingOnes(w) == 32 + TrailingOnes(w >> 32)
  {
    assert w & 0xffff == 0xffff && (w >> 16) & 0xffff == 0xffff && (w >> 16) >> 16 == w >> 32;
    Ones16(w);
    Ones16(w >> 16);
  }

  lemma Zeros2(w: Word)
    requires w != 0 && w & 0x3 == 0
    ensures w >> 2 != 0 && TrailingZeros(w) == 2 + TrailingZeros(w >> 2)
  {
    assert w & 1 == 0 && (w >> 1) & 1 == 0 && (w >> 1) >> 1 == w >> 2;
  }

  lemma Zeros4(w: Word)
    requires w != 0 && w & 0xf == 0
    ensures w >> 4 != 0 && TrailingZeros(w) == 4 + TrailingZeros(w >> 4)
  {
    assert w & 0x3 == 0 && (w >> 2) & 0x3 == 0 && (w >> 2) >> 2 == w >> 4;
    Zeros2(w);
    Zeros2(w >> 2);
  }

  lemma Zeros8(w: Word)
    requires w != 0 && w & 0xff == 0
    ensures w >> 8 != 0 && TrailingZeros(w) == 8 + TrailingZeros(w >> 8)
  {
    assert w & 0xf == 0 && (w >> 4) & 0xf == 0 && (w >> 4) >> 4 == w >> 8;
    Zeros4(w);
    Zeros4(w >> 4);
  }

  lemma Zeros16(w: Word)
    requires w != 0 && w & 0xffff == 0
    ensures w >> 16 != 0 && TrailingZeros(w) == 16 + TrailingZeros(w >> 16)
  {
    assert w & 0xff == 0 && (w >> 8) & 0xff == 0 && (w >> 8) >> 8 == w >> 16;
    Zeros8(w);
    Zeros8(w >> 8);
  }

  lemma Zeros32(w: Word)
    requires w != 0 && w & 0xffff_ffff == 0
    ensures w >> 32 != 0 && TrailingZeros(w) == 32 + TrailingZeros(w >> 32)
  {
    assert w & 0xffff == 0 && (w >> 16) & 0xffff == 0 && (w >> 16) >> 16 == w >> 32;
    Zeros16(w);
    Zeros16(w >> 16);
  }

  // After a step the remaining low block is not uniform, so the next half decides.

  lemma Nts2Counts(n: nat, w: Word)
    requires w & 0xf != 0xf
    ensures Nts2(n, w) == n + TrailingOnes(w) < n + 4
  {
    if w & 0x3 == 0x3 {
      Ones2(w);
      assert (w >> 2) & 0x3 != 0x3;
      LowPair(w >> 2);
    } else {
      LowPair(w);
    }
  }

  lemma LowPair(w: Word)
    requires w & 0x3 != 0x3
    ensures TrailingOnes(w) == if w & 1 == 1 then 1 else 0
  {
    assert w & 1 == 1 ==> (w >> 1) & 1 == 0;
  }

  lemma Nts4Counts(n: nat, w: Word)
    requires w & 0xff != 0xff
    ensures Nts4(n, w) == n + TrailingOnes(w) < n + 8
  {
    hide TrailingOnes, Nts2;
    if w & 0xf == 0xf {
      Ones4(w);
      assert (w >> 4) & 0xf != 0xf;
      Nts2Counts(n + 4, w >> 4);
    } else {
      Nts2Counts(n, w);
    }
  }

  lemma Nts8Counts(n: nat, w: Word)
    requires w & 0xffff != 0xffff
    ensures Nts8(n, w) == n + TrailingOnes(w) < n + 16
  {
    hide TrailingOnes, Nts4;
    if w & 0xff == 0xff {
      Ones8(w);
      assert (w >> 8) & 0xff != 0xff;
      Nts4Counts(n + 8, w >> 8);
    } else {
      Nts4Counts(n, w);
    }
  }

  lemma Nts16Counts(n: nat, w: Word)
    requires w & 0xffff_ffff != 0xffff_ffff
    ensures Nts16(n, w) == n + TrailingOnes(w) < n + 32
  {
    hide TrailingOnes, Nts8;
    if w & 0xffff == 0xffff {
      Ones16(w);
      assert (w >> 16) & 0xffff != 0xffff;
      Nts8Counts(n + 16, w >> 16);
    } else {
      Nts8Counts(n, w);
    }
  }

  lemma Ntz2Counts(n: nat, w: Word)
    requires n >= 1 && w & 0xf != 0
    ensures w != 0 && Ntz2(n, w) == n - 1 + TrailingZeros(w) < n + 3
  {
    if w & 0x3 == 0 {
      Zeros2(w);
      assert (w >> 2) & 0x3 != 0;
      LowPairZero(w >> 2);
    } else {
      LowPairZero(w);
    }
  }

  lemma LowPairZero(w: Word)
    requires w & 0x3 != 0
    ensures w != 0 && TrailingZeros(w) == if w & 1 == 1 then 0 else 1
  {
    assert w & 1 == 0 ==> (w >> 1) & 1 == 1;
  }

  lemma Ntz4Counts(n: nat, w: Word)
    requires n >= 1 && w & 0xff != 0
    ensures w != 0 && Ntz4(n, w) == n - 1 + TrailingZeros(w) < n + 7
  {
    hide TrailingZeros, Ntz2;
    if w & 0xf == 0 {
      Zeros4(w);
      assert (w >> 4) & 0xf != 0;
      Ntz2Counts(n + 4, w >> 4);
    } else {
      Ntz2Counts(n, w);
    }
  }

  lemma Ntz8Counts(n: nat, w: Word)
    requires n >= 1 && w & 0xffff != 0
    ensures w != 0 && Ntz8(n, w) == n - 1 + TrailingZeros(w) < n + 15
  {
    hide TrailingZeros, Ntz4;
    if w & 0xff == 0 {
      Zeros8(w);
      assert (w >> 8) & 0xff != 0;
      Ntz4Counts(n + 8, w >> 8);
    } else {
      Ntz4Counts(n, w);
    }
  }

  lemma Ntz16Counts(n: nat, w: Word)
    requires n >= 1 && w & 0xffff_ffff != 0
    ensures w != 0 && Ntz16(n, w) == n - 1 + TrailingZeros(w) < n + 31
  {
    hide TrailingZeros, Ntz8;
    if w & 0xffff == 0 {
      Zeros16(w);
      assert (w >> 16) & 0xffff != 0;
      Ntz8Counts(n + 16, w >> 16);
    } else {
      Ntz8Counts(n, w);
    }
  }

  /** The ladder counts the trailing set bits of every word. */
  lemma NtsIsTrailingOnes(w: Word)
    ensures Nts(w) == TrailingOnes(w)
    ensures w != ONES ==> Nts(w) < WORD_BITS
  {
    if w == ONES {
      Ones32(w);
      assert w >> 32 == 0xffff_ffff;
      Ones32(0xffff_ffff);
      assert TrailingOnes(0) == 0;
    } else if w & 0xffff_ffff == 0xffff_ffff {
      Ones32(w);
      Nts16Counts(32, w >> 32);
    } else {
      Nts16Counts(0, w);
    }
  }

  /** The ladder counts the trailing clear bits of every non-zero word. */
  lemma NtzIsTrailingZeros(w: Word)
    requires w != 0
    ensures Ntz(w) == TrailingZeros(w) < WORD_BITS
  {
    if w & 0xffff_ffff == 0 {
      Zeros32(w);
      Ntz16Counts(33, w >> 32);
    } else {
      Ntz16Counts(1, w);
    }
  }

  // ------------------------------------- dropping and filling the trailing block

  /** `tmp &= tmp + 1` */
  function ClearLow(w: Word): Word {
    w & (w + 1)
  }

  /** `tmp |= tmp - 1` */
  function FillLow(w: Word): Word {
    w | (w - 1)
  }

  lemma ClearLowEven(w: Word)
    requires w & 1 == 0
    ensures ClearLow(w) == w
  {
  }

  lemma ClearLowOdd(w: Word)
    requires w & 1 == 1
    ensures ClearLow(w) == ClearLow(w >> 1) << 1
  {
  }

  lemma FillLowOdd(w: Word)
    requires w & 1 == 1
    ensures FillLow(w) == w
  {
  }

  lemma FillLowEven(w: Word)
    requires w & 1 == 0 && w != 0
    ensures FillLow(w) == (FillLow(w >> 1) << 1) | 1
  {
  }

  lemma LowestBit(w: Word, i: nat)
    requires i < WORD_BITS
    ensures Bit(w, 0) <==> w & 1 == 1
    ensures Bit(1, i) <==> i == 0
  {
    EndBits(w);
    BitMask(0, i);
  }

  /** ClearLow clears exactly the trailing set bits. */
  lemma {:induction false} ClearLowBits(w: Word, i: nat)
    requires i < WORD_BITS
    ensures Bit(ClearLow(w), i) <==> i >= TrailingOnes(w) && Bit(w, i)
    decreases w
  {
    hide Bit, ClearLow;
    if w & 1 == 0 {
      ClearLowEven(w);
    } else {
      ClearLowOdd(w);
      BitLeft(ClearLow(w >> 1), i);
      if i > 0 {
        ClearLowBits(w >> 1, i - 1);
        BitRight(w, i - 1);
      }
    }
  }

  /** FillLow sets exactly the bits below the lowest set bit. */
  lemma {:induction false} FillLowBits(w: Word, i: nat)
    requires i < WORD_BITS && w != 0
    ensures Bit(FillLow(w), i) <==> i < TrailingZeros(w) || Bit(w, i)
    decreases w
  {
    hide Bit, FillLow;
    if w & 1 == 1 {
      FillLowOdd(w);
    } else {
      LowestBit(w, i);
      HalfNonZero(w);
      FillLowEven(w);
      FillLowHalf(FillLow(w >> 1), i);
      if i > 0 {
        FillLowBits(w >> 1, i - 1);
        BitRight(w, i - 1);
      }
    }
  }

  lemma FillLowHalf(half: Word, i: nat)
    requires i < WORD_BITS
    ensures Bit((half << 1) | 1, i) <==> i == 0 || Bit(half, i - 1)
  {
    hide Bit;
    BitOr(half << 1, 1, i);
    LowestBit(half, i);
    BitLeft(half, i);
  }
}
