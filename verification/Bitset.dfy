/** Bit ranges over an array of words: what the page bitset of a chunk is built on. */
module Bitset {
  import opened Words

  /** Page (bit) `p` of the bitset is set. */
  predicate Used(bits: seq<Word>, p: nat)
    requires p < WORD_BITS * |bits|
  {
    Bit(bits[p / WORD_BITS], p % WORD_BITS)
  }

  function Clamp(x: int): nat {
    if x < 0 then 0 else if x > WORD_BITS then WORD_BITS else x
  }

  /** The word whose set bits are `lo <= k < hi`. */
  function RangeWord(lo: nat, hi: nat): Word
    requires lo <= WORD_BITS && hi <= WORD_BITS
  {
    if lo >= hi then 0 else ShiftLeft(ONES, lo) & ShiftRight(ONES, WORD_BITS - hi)
  }

  lemma HighBits(lo: nat, k: nat)
    requires k < WORD_BITS
    ensures Bit(ShiftLeft(ONES, lo), k) <==> lo <= k
  {
    hide Bit, ShiftLeft;
    BitShiftLeft(ONES, lo, k);
    if k >= lo {
      BitUniform(k - lo);
    }
  }

  lemma LowBits(n: nat, k: nat)
    requires k < WORD_BITS
    ensures Bit(ShiftRight(ONES, n), k) <==> k + n < WORD_BITS
  {
    hide Bit, ShiftRight;
    BitShiftRight(ONES, n, k);
    if k + n < WORD_BITS {
      BitUniform(k + n);
    }
  }

  lemma RangeWordBits(lo: nat, hi: nat, k: nat)
    requires lo <= WORD_BITS && hi <= WORD_BITS && k < WORD_BITS
    ensures Bit(RangeWord(lo, hi), k) <==> lo <= k < hi
  {
    hide Bit;
    if lo >= hi {
      BitUniform(k);
    } else {
      hide RangeWord;
      HighBits(lo, k);
      LowBits(WORD_BITS - hi, k);
      RangeWordAnd(lo, hi, k);
    }
  }

  lemma RangeWordAnd(lo: nat, hi: nat, k: nat)
    requires lo < hi <= WORD_BITS && k < WORD_BITS
    ensures Bit(RangeWord(lo, hi), k)
       <==> Bit(ShiftLeft(ONES, lo), k) && Bit(ShiftRight(ONES, WORD_BITS - hi), k)
  {
    hide Bit, ShiftLeft, ShiftRight;
    BitAnd(ShiftLeft(ONES, lo), ShiftRight(ONES, WORD_BITS - hi), k);
  }

  /** The part of the range `start <= p < start + len` that lies in word `i`. */
  function RangeIn(i: nat, start: nat, len: nat): Word {
    RangeWord(Clamp(start - WORD_BITS * i), Clamp(start + len - WORD_BITS * i))
  }

  lemma RangeInBits(start: nat, len: nat, p: nat)
    ensures Bit(RangeIn(p / WORD_BITS, start, len), p % WORD_BITS) <==> start <= p < start + len
  {
    hide Bit, RangeWord;
    var i := p / WORD_BITS;
    RangeWordBits(Clamp(start - WORD_BITS * i), Clamp(start + len - WORD_BITS * i), p % WORD_BITS);
  }

  function Join(w: Word, m: Word): Word {
    w | m
  }

  function Drop(w: Word, m: Word): Word {
    w & !m
  }

  lemma DropBit(w: Word, m: Word, k: nat)
    requires k < WORD_BITS
    ensures Bit(Drop(w, m), k) <==> Bit(w, k) && !Bit(m, k)
  {
    hide Meets, OneHot, Mask, Drop;
    MaskOneHot(k);
    DropMask(w, m, Drop(w, m), !m, Mask(k));
  }

  lemma DropMask(w: Word, v: Word, d: Word, x: Word, m: Word)
    requires OneHot(m)
    ensures x == !v && d == Drop(w, v) ==> (Meets(d, m) <==> Meets(w, m) && !Meets(v, m))
  {
    hide Meets, OneHot;
    if x == !v && d == w & x {
      NotMask(v, m);
      AndMask(w, x, m);
    }
  }

  /** The bitset with a range of bits set. */
  function WithRange(bits: seq<Word>, start: nat, len: nat): (r: seq<Word>)
    requires start + len <= WORD_BITS * |bits|
    ensures |r| == |bits|
  {
    seq(|bits|, i requires 0 <= i < |bits| => Join(bits[i], RangeIn(i, start, len)))
  }

  /** The bitset with a range of bits cleared. */
  function WithoutRange(bits: seq<Word>, start: nat, len: nat): (r: seq<Word>)
    requires start + len <= WORD_BITS * |bits|
    ensures |r| == |bits|
  {
    seq(|bits|, i requires 0 <= i < |bits| => Drop(bits[i], RangeIn(i, start, len)))
  }

  /** Setting a range is union with the interval, across word boundaries. */
  lemma WithRangeIsUnion(bits: seq<Word>, start: nat, len: nat)
    requires start + len <= WORD_BITS * |bits|
    ensures forall p: nat :: p < WORD_BITS * |bits| ==>
      (Used(WithRange(bits, start, len), p) <==> Used(bits, p) || start <= p < start + len)
  {
    hide Bit, RangeIn, Join;
    forall p: nat | p < WORD_BITS * |bits|
      ensures Used(WithRange(bits, start, len), p) <==> Used(bits, p) || start <= p < start + len
    {
      RangeInBits(start, len, p);
      JoinBit(bits[p / WORD_BITS], RangeIn(p / WORD_BITS, start, len), p % WORD_BITS);
    }
  }

  lemma JoinBit(w: Word, m: Word, k: nat)
    requires k < WORD_BITS
    ensures Bit(Join(w, m), k) <==> Bit(w, k) || Bit(m, k)
  {
    hide Bit;
    BitOr(w, m, k);
  }

  /** Clearing a range is difference with the interval, across word boundaries. */
  lemma WithoutRangeIsDifference(bits: seq<Word>, start: nat, len: nat)
    requires start + len <= WORD_BITS * |bits|
    ensures forall p: nat :: p < WORD_BITS * |bits| ==>
      (Used(WithoutRange(bits, start, len), p) <==> Used(bits, p) && !(start <= p < start + len))
  {
    hide Bit, RangeIn, Drop;
    forall p: nat | p < WORD_BITS * |bits|
      ensures Used(WithoutRange(bits, start, len), p) <==> Used(bits, p) && !(start <= p < start + len)
    {
      RangeInBits(start, len, p);
      DropBit(bits[p / WORD_BITS], RangeIn(p / WORD_BITS, start, len), p % WORD_BITS);
    }
  }

  // --------------------------------------------------------- the in-place loops

  // What RangeIn is in the first, an inner, the last and the only word of a range.

  lemma RangeInOnly(i: nat, start: nat, len: nat)
    requires len >= 1 && i == start / WORD_BITS == (start + len - 1) / WORD_BITS
    ensures RangeIn(i, start, len)
      == ShiftLeft(ONES, start % WORD_BITS)
         & ShiftRight(ONES, (WORD_BITS - 1) - (start + len - 1) % WORD_BITS)
  {
    hide ShiftLeft, ShiftRight;
  }

  lemma RangeInFirst(i: nat, start: nat, len: nat)
    requires len >= 1 && i == start / WORD_BITS < (start + len - 1) / WORD_BITS
    ensures RangeIn(i, start, len) == ShiftLeft(ONES, start % WORD_BITS)
  {
    hide ShiftLeft;
    AndOnes(ShiftLeft(ONES, start % WORD_BITS));
  }

  lemma RangeInInner(i: nat, start: nat, len: nat)
    requires len >= 1 && start / WORD_BITS < i < (start + len - 1) / WORD_BITS
    ensures RangeIn(i, start, len) == ONES
  {
    AndOnes(ONES);
  }

  lemma RangeInLast(i: nat, start: nat, len: nat)
    requires len >= 1 && start / WORD_BITS < i == (start + len - 1) / WORD_BITS
    ensures RangeIn(i, start, len)
      == ShiftRight(ONES, (WORD_BITS - 1) - (start + len - 1) % WORD_BITS)
  {
    hide ShiftRight;
    assert ShiftLeft(ONES, 0) == ONES;
    AndOnes(ShiftRight(ONES, (WORD_BITS - 1) - (start + len - 1) % WORD_BITS));
  }

  lemma RangeInOutside(i: nat, start: nat, len: nat)
    requires len >= 1 && (i < start / WORD_BITS || (start + len - 1) / WORD_BITS < i)
    ensures RangeIn(i, start, len) == 0
  {
  }

  lemma AndOnes(w: Word)
    ensures w & ONES == w && ONES & w == w
  {
  }

  function Negate(w: Word): Word {
    0 - w
  }

  lemma {:induction false} NegativeShift(w: Word, n: nat)
    ensures ShiftLeft(Negate(w), n) == Negate(ShiftLeft(w, n))
    decreases n
  {
    hide Negate;
    if n != 0 {
      DoubleNegative(w);
      NegativeShift(w << 1, n - 1);
    }
  }

  lemma DoubleNegative(w: Word)
    ensures Negate(w) << 1 == Negate(w << 1)
  {
  }

  lemma NegativeComplement(w: Word)
    ensures !(w - 1) == Negate(w)
  {
  }

  /** `~((1 << bit) - 1)`, the first mask of the reset loop. */
  function ResetFirst(start: nat): Word {
    !(Mask(start % WORD_BITS) - 1)
  }

  /** It is the `-1 << bit` that the other two loops use. */
  lemma ResetFirstIsFirst(start: nat)
    ensures ResetFirst(start) == FirstWord(start)
  {
    assert Negate(1) == ONES;
    hide Negate;
    NegativeShift(1, start % WORD_BITS);
    NegativeComplement(Mask(start % WORD_BITS));
  }

  lemma SingleRange(i: nat, p: nat)
    ensures RangeIn(i, p, 1) == if i == p / WORD_BITS then Mask(p % WORD_BITS) else 0
  {
    hide Bit, RangeIn;
    if i == p / WORD_BITS {
      forall k: nat | k < WORD_BITS
        ensures Bit(RangeIn(i, p, 1), k) <==> Bit(Mask(p % WORD_BITS), k)
      {
        var q := WORD_BITS * i + k;
        assert q / WORD_BITS == i && q % WORD_BITS == k;
        RangeInBits(p, 1, q);
        BitMask(p % WORD_BITS, k);
      }
      WordExtensional(RangeIn(i, p, 1), Mask(p % WORD_BITS));
    } else {
      RangeInOutside(i, p, 1);
    }
  }

  method IsSet(a: array<Word>, p: nat) returns (r: bool)
    requires p < WORD_BITS * a.Length
    ensures r <==> Used(a[..], p)
  {
    hide Meets, Mask;
    r := Meets(a[p / WORD_BITS], Mask(p % WORD_BITS));
  }

  method SetBit(a: array<Word>, p: nat)
    requires p < WORD_BITS * a.Length
    modifies a
    ensures a[..] == WithRange(old(a[..]), p, 1)
  {
    hide Join, Mask, RangeIn;
    var i := p / WORD_BITS;
    a[i] := Join(a[i], Mask(p % WORD_BITS));
    forall j | 0 <= j < a.Length
      ensures a[j] == Join(old(a[j]), RangeIn(j, p, 1))
    {
      SingleRange(j, p);
      JoinZero(old(a[j]));
    }
  }

  lemma JoinZero(w: Word)
    ensures Join(w, 0) == w && Drop(w, 0) == w && Join(w, ONES) == ONES && Drop(w, ONES) == 0
  {
  }

  method ResetBit(a: array<Word>, p: nat)
    requires p < WORD_BITS * a.Length
    modifies a
    ensures a[..] == WithoutRange(old(a[..]), p, 1)
  {
    hide Drop, Mask, RangeIn;
    var i := p / WORD_BITS;
    a[i] := Drop(a[i], Mask(p % WORD_BITS));
    forall j | 0 <= j < a.Length
      ensures a[j] == Drop(old(a[j]), RangeIn(j, p, 1))
    {
      SingleRange(j, p);
      JoinZero(old(a[j]));
    }
  }

  // The masks of the word loops, as one expression per word.

  function FirstWord(start: nat): Word {
    ShiftLeft(ONES, start % WORD_BITS)
  }

  function LastWord(start: nat, len: nat): Word
    requires len >= 1
  {
    ShiftRight(ONES, (WORD_BITS - 1) - (start + len - 1) % WORD_BITS)
  }

  function OnlyWord(start: nat, len: nat): Word
    requires len >= 1
  {
    FirstWord(start) & LastWord(start, len)
  }

  lemma RangeInWords(i: nat, start: nat, len: nat)
    requires len >= 1
    ensures var pos, end := start / WORD_BITS, (start + len - 1) / WORD_BITS;
      RangeIn(i, start, len) ==
        if i < pos || i > end then 0
        else if pos == end then OnlyWord(start, len)
        else if i == pos then FirstWord(start)
        else if i == end then LastWord(start, len)
        else ONES
  {
    hide RangeIn, ShiftLeft, ShiftRight;
    var pos, end := start / WORD_BITS, (start + len - 1) / WORD_BITS;
    if i < pos || i > end {
      RangeInOutside(i, start, len);
    } else if pos == end {
      RangeInOnly(i, start, len);
    } else if i == pos {
      RangeInFirst(i, start, len);
    } else if i == end {
      RangeInLast(i, start, len);
    } else {
      RangeInInner(i, start, len);
    }
  }

  method SetRange(a: array<Word>, start: nat, len: nat)
    requires len >= 1 && start + len <= WORD_BITS * a.Length
    modifies a
    ensures a[..] == WithRange(old(a[..]), start, len)
  {
    hide Join, RangeIn, FirstWord, LastWord, OnlyWord;
    ghost var before := a[..];
    if len == 1 {
      SetBit(a, start);
    } else {
      var pos := start / WORD_BITS;
      var end := (start + len - 1) / WORD_BITS;
      if pos != end {
        a[pos] := Join(a[pos], FirstWord(start));
        pos := pos + 1;
        while pos != end
          invariant start / WORD_BITS < pos <= end
          invariant forall j :: 0 <= j < start / WORD_BITS || pos <= j < a.Length ==> a[j] == before[j]
          invariant a[start / WORD_BITS] == Join(before[start / WORD_BITS], FirstWord(start))
          invariant forall j :: start / WORD_BITS < j < pos ==> a[j] == ONES
        {
          a[pos] := ONES;
          pos := pos + 1;
        }
        a[pos] := Join(a[pos], LastWord(start, len));
      } else {
        a[pos] := Join(a[pos], OnlyWord(start, len));
      }
      forall j | 0 <= j < a.Length
        ensures a[j] == Join(before[j], RangeIn(j, start, len))
      {
        RangeInWords(j, start, len);
        JoinZero(before[j]);
      }
    }
  }

  method ResetRange(a: array<Word>, start: nat, len: nat)
    requires len >= 1 && start + len <= WORD_BITS * a.Length
    modifies a
    ensures a[..] == WithoutRange(old(a[..]), start, len)
  {
    hide Drop, RangeIn, FirstWord, ResetFirst, LastWord, OnlyWord;
    ghost var before := a[..];
    if len == 1 {
      ResetBit(a, start);
    } else {
      var pos := start / WORD_BITS;
      var end := (start + len - 1) / WORD_BITS;
      if pos != end {
        ResetFirstIsFirst(start);
        a[pos] := Drop(a[pos], ResetFirst(start));
        pos := pos + 1;
        while pos != end
          invariant start / WORD_BITS < pos <= end
          invariant forall j :: 0 <= j < start / WORD_BITS || pos <= j < a.Length ==> a[j] == before[j]
          invariant a[start / WORD_BITS] == Drop(before[start / WORD_BITS], FirstWord(start))
          invariant forall j :: start / WORD_BITS < j < pos ==> a[j] == 0
        {
          a[pos] := 0;
          pos := pos + 1;
        }
        a[pos] := Drop(a[pos], LastWord(start, len));
      } else {
        a[pos] := Drop(a[pos], OnlyWord(start, len));
      }
      forall j | 0 <= j < a.Length
        ensures a[j] == Drop(before[j], RangeIn(j, start, len))
      {
        RangeInWords(j, start, len);
        JoinZero(before[j]);
      }
    }
  }

  /** No bit of the range is set. */
  ghost predicate FreeRange(bits: seq<Word>, start: nat, len: nat)
    requires start + len <= WORD_BITS * |bits|
  {
    forall p: nat :: start <= p < start + len ==> !Used(bits, p)
  }

  lemma FreeRangeByWords(bits: seq<Word>, start: nat, len: nat)
    requires start + len <= WORD_BITS * |bits|
    ensures FreeRange(bits, start, len)
       <==> forall i: nat :: i < |bits| ==> !Meets(bits[i], RangeIn(i, start, len))
  {
    hide Bit, Meets, RangeIn;
    if FreeRange(bits, start, len) {
      forall i: nat | i < |bits|
        ensures !Meets(bits[i], RangeIn(i, start, len))
      {
        if Meets(bits[i], RangeIn(i, start, len)) {
          var k := CommonBit(bits[i], RangeIn(i, start, len));
          var p := WORD_BITS * i + k;
          assert p / WORD_BITS == i && p % WORD_BITS == k;
          assert !(start <= p < start + len) || !Used(bits, p);
          RangeInBits(start, len, p);
          assert false;
        }
      }
    } else {
      var p: nat :| start <= p < start + len && Used(bits, p);
      RangeInBits(start, len, p);
      SharedBit(bits[p / WORD_BITS], RangeIn(p / WORD_BITS, start, len), p % WORD_BITS);
    }
  }

  lemma CommonBit(w: Word, v: Word) returns (k: nat)
    requires Meets(w, v)
    ensures k < WORD_BITS && Bit(w, k) && Bit(v, k)
  {
    NtzIsTrailingZeros(w & v);
    k := TrailingZeros(w & v);
    TrailingZerosBits(w & v, k);
    BitAnd(w, v, k);
  }

  lemma SharedBit(w: Word, v: Word, k: nat)
    requires k < WORD_BITS && Bit(w, k) && Bit(v, k)
    ensures Meets(w, v)
  {
    hide Mask;
    SharedMask(w, v, Mask(k));
    MaskOneHot(k);
  }

  lemma SharedMask(w: Word, v: Word, m: Word)
    requires Meets(w, m) && Meets(v, m)
    ensures OneHot(m) ==> Meets(w, v)
  {
  }

  method IsFreeRange(a: array<Word>, start: nat, len: nat) returns (r: bool)
    requires len >= 1 && start + len <= WORD_BITS * a.Length
    ensures r <==> FreeRange(a[..], start, len)
  {
    hide Meets, RangeIn, FirstWord, LastWord, OnlyWord, Bit;
    if len == 1 {
      var isSet := IsSet(a, start);
      return !isSet;
    }
    FreeRangeByWords(a[..], start, len);
    forall i: nat | i < a.Length
      ensures RangeIn(i, start, len) == 0 ==> !Meets(a[i], RangeIn(i, start, len))
      ensures Meets(a[i], ONES) <==> a[i] != 0
    {
      MeetsUniform(a[i]);
    }
    var pos := start / WORD_BITS;
    var end := (start + len - 1) / WORD_BITS;
    if pos != end {
      if Meets(a[pos], FirstWord(start)) {
        RangeInWords(pos, start, len);
        return false;
      }
      pos := pos + 1;
      while pos != end
        invariant start / WORD_BITS < pos <= end
        invariant forall j :: start / WORD_BITS < j < pos ==> a[j] == 0
      {
        if a[pos] != 0 {
          RangeInWords(pos, start, len);
          return false;
        }
        pos := pos + 1;
      }
      r := !Meets(a[pos], LastWord(start, len));
    } else {
      r := !Meets(a[pos], OnlyWord(start, len));
    }
    forall i: nat | i < a.Length
      ensures Meets(a[i], RangeIn(i, start, len)) ==> !r && i == end
    {
      RangeInWords(i, start, len);
    }
    RangeInWords(end, start, len);
  }

  lemma MeetsUniform(w: Word)
    ensures !Meets(w, 0)
    ensures Meets(w, ONES) <==> w != 0
  {
  }
}
