/** Sets of small numbers as arrays of words. */
module WordSets {
  import opened Words
  import opened Bitset

  datatype SetOp = Union | Intersection | Difference

  function Apply(op: SetOp, w: Word, v: Word): Word {
    match op
    case Union => Join(w, v)
    case Intersection => Both(w, v)
    case Difference => Drop(w, v)
  }

  function Both(w: Word, v: Word): Word {
    w & v
  }

  lemma BothBit(w: Word, v: Word, k: nat)
    requires k < WORD_BITS
    ensures Bit(Both(w, v), k) <==> Bit(w, k) && Bit(v, k)
  {
    hide Bit;
    BitAnd(w, v, k);
  }

  predicate Says(op: SetOp, x: bool, y: bool) {
    match op
    case Union => x || y
    case Intersection => x && y
    case Difference => x && !y
  }

  lemma ApplyBit(op: SetOp, w: Word, v: Word, k: nat)
    requires k < WORD_BITS
    ensures Bit(Apply(op, w, v), k) <==> Says(op, Bit(w, k), Bit(v, k))
  {
    hide Bit, Join, Both, Drop;
    match op {
      case Union => JoinBit(w, v, k);
      case Intersection => BothBit(w, v, k);
      case Difference => DropBit(w, v, k);
    }
  }

  function Combined(op: SetOp, s: seq<Word>, t: seq<Word>): (r: seq<Word>)
    requires |s| == |t|
    ensures |r| == |s| && forall i :: 0 <= i < |s| ==> r[i] == Apply(op, s[i], t[i])
  {
    seq(|s|, i requires 0 <= i < |s| => Apply(op, s[i], t[i]))
  }

  /** Word by word, the operation is the one on sets. */
  lemma CombinedMembers(op: SetOp, s: seq<Word>, t: seq<Word>, p: nat)
    requires |s| == |t| && p < WORD_BITS * |s|
    ensures Used(Combined(op, s, t), p) <==> Says(op, Used(s, p), Used(t, p))
  {
    hide Bit, Apply, Says;
    ApplyBit(op, s[p / WORD_BITS], t[p / WORD_BITS], p % WORD_BITS);
  }

  /** zend_bitset_union, zend_bitset_intersection and zend_bitset_difference. */
  method Combine(op: SetOp, a: array<Word>, b: array<Word>)
    requires a.Length == b.Length && a != b
    modifies a
    ensures a[..] == Combined(op, old(a[..]), b[..])
  {
    hide Apply;
    for i := 0 to a.Length
      invariant forall j :: 0 <= j < i ==> a[j] == Apply(op, old(a[j]), b[j])
      invariant forall j :: i <= j < a.Length ==> a[j] == old(a[j])
    {
      a[i] := Apply(op, a[i], b[i]);
    }
  }

  /** A word is zero exactly when it has no bit. */
  lemma ZeroWord(w: Word)
    ensures w == 0 <==> forall k: nat :: k < WORD_BITS ==> !Bit(w, k)
  {
    hide Bit;
    if w != 0 {
      NtzIsTrailingZeros(w);
      TrailingZerosBits(w, TrailingZeros(w));
    } else {
      forall k: nat | k < WORD_BITS
        ensures !Bit(w, k)
      {
        BitUniform(k);
      }
    }
  }

  /** zend_bitset_empty */
  method Empty(a: array<Word>) returns (r: bool)
    ensures r <==> forall p: nat :: p < WORD_BITS * a.Length ==> !Used(a[..], p)
  {
    hide Bit;
    for i := 0 to a.Length
      invariant forall p: nat :: p < WORD_BITS * i ==> !Used(a[..], p)
    {
      ZeroWord(a[i]);
      if a[i] != 0 {
        var k: nat :| k < WORD_BITS && Bit(a[i], k);
        assert Used(a[..], WORD_BITS * i + k);
        return false;
      }
    }
    r := true;
  }

  /** zend_bitset_subset */
  method Subset(a: array<Word>, b: array<Word>) returns (r: bool)
    requires a.Length == b.Length
    ensures r <==> forall p: nat :: p < WORD_BITS * a.Length && Used(a[..], p) ==> Used(b[..], p)
  {
    hide Bit, Apply;
    for i := 0 to a.Length
      invariant forall p: nat :: p < WORD_BITS * i && Used(a[..], p) ==> Used(b[..], p)
    {
      DifferenceWord(a[i], b[i]);
      if Apply(Difference, a[i], b[i]) != 0 {
        var k: nat :| k < WORD_BITS && Bit(a[i], k) && !Bit(b[i], k);
        assert Used(a[..], WORD_BITS * i + k) && !Used(b[..], WORD_BITS * i + k);
        return false;
      }
    }
    r := true;
  }

  lemma DifferenceWord(w: Word, v: Word)
    ensures Apply(Difference, w, v) == 0 <==> forall k: nat :: k < WORD_BITS && Bit(w, k) ==> Bit(v, k)
  {
    hide Bit, Apply;
    ZeroWord(Apply(Difference, w, v));
    forall k: nat | k < WORD_BITS
      ensures Bit(Apply(Difference, w, v), k) <==> Bit(w, k) && !Bit(v, k)
    {
      ApplyBit(Difference, w, v, k);
    }
  }

  /** zend_bitset_first: the least member, or -1. */
  method First(a: array<Word>) returns (r: int)
    ensures r == -1 ==> forall p: nat :: p < WORD_BITS * a.Length ==> !Used(a[..], p)
    ensures r != -1 ==> 0 <= r < WORD_BITS * a.Length && Used(a[..], r)
    ensures r != -1 ==> forall p: nat :: p < r ==> !Used(a[..], p)
  {
    hide Bit, Ntz;
    for i := 0 to a.Length
      invariant forall p: nat :: p < WORD_BITS * i ==> !Used(a[..], p)
    {
      if a[i] != 0 {
        r := WORD_BITS * i + Ntz(a[i]);
        FirstBit(a[i]);
        return;
      }
      ZeroWord(a[i]);
    }
    r := -1;
  }

  lemma FirstBit(w: Word)
    requires w != 0
    ensures Ntz(w) < WORD_BITS && Bit(w, Ntz(w)) && forall k: nat :: k < Ntz(w) ==> !Bit(w, k)
  {
    hide Bit, Ntz;
    NtzIsTrailingZeros(w);
    TrailingZerosBits(w, TrailingZeros(w));
    forall k: nat | k < Ntz(w)
      ensures !Bit(w, k)
    {
      TrailingZerosBits(w, k);
    }
  }

  lemma {:induction false} ShiftRightLast(w: Word, n: nat)
    ensures ShiftRight(w, n + 1) == ShiftRight(w, n) >> 1
    decreases n
  {
    if n != 0 {
      ShiftRightLast(w >> 1, n - 1);
    }
  }

  /** Bits of a shifted word are those further up. */
  lemma ShiftedAway(w: Word, n: nat)
    ensures ShiftRight(w, n) == 0 <==> forall k: nat :: n <= k < WORD_BITS ==> !Bit(w, k)
  {
    hide Bit, ShiftRight;
    var v := ShiftRight(w, n);
    ZeroWord(v);
    forall i: nat | i < WORD_BITS
      ensures Bit(v, i) <==> i + n < WORD_BITS && Bit(w, i + n)
    {
      BitShiftRight(w, n, i);
    }
    if v == 0 {
      forall k: nat | n <= k < WORD_BITS
        ensures !Bit(w, k)
      {
        assert !Bit(v, k - n);
      }
    }
  }

  /** The inner loop of zend_bitset_last: one more than the number of the highest bit. */
  method BitLength(w: Word) returns (n: nat)
    ensures n <= WORD_BITS && forall k: nat :: n <= k < WORD_BITS ==> !Bit(w, k)
    ensures w != 0 ==> n > 0 && Bit(w, n - 1)
  {
    hide Bit, ShiftRight;
    var x := w;
    n := 0;
    ShiftNone(w);
    while x != 0
      invariant x == ShiftRight(w, n) && n <= WORD_BITS
      invariant n > 0 ==> ShiftRight(w, n - 1) != 0
      invariant n == 0 ==> x == w
      decreases WORD_BITS - n
    {
      ShiftedAway(w, n);
      ShiftRightLast(w, n);
      x := x >> 1;
      n := n + 1;
    }
    ShiftedAway(w, n);
    if n > 0 {
      ShiftedAway(w, n - 1);
    }
  }

  lemma ShiftNone(w: Word)
    ensures ShiftRight(w, 0) == w
  {
  }

  /** zend_bitset_last: the greatest member, or -1. */
  method Last(a: array<Word>) returns (r: int)
    ensures r == -1 ==> forall p: nat :: p < WORD_BITS * a.Length ==> !Used(a[..], p)
    ensures r != -1 ==> 0 <= r < WORD_BITS * a.Length && Used(a[..], r)
    ensures r != -1 ==> forall p: nat :: r < p < WORD_BITS * a.Length ==> !Used(a[..], p)
  {
    hide Bit;
    var i := a.Length;
    while i > 0
      invariant i <= a.Length && forall p: nat :: WORD_BITS * i <= p < WORD_BITS * a.Length ==> !Used(a[..], p)
    {
      i := i - 1;
      if a[i] != 0 {
        var n := BitLength(a[i]);
        return WORD_BITS * i - 1 + n;
      }
      ZeroWord(a[i]);
    }
    r := -1;
  }

  /** zend_bitset_pop_first: the least member leaves the set. */
  method PopFirst(a: array<Word>) returns (r: int)
    modifies a
    ensures r == -1 ==> a[..] == old(a[..]) && forall p: nat :: p < WORD_BITS * a.Length ==> !Used(old(a[..]), p)
    ensures r != -1 ==> 0 <= r < WORD_BITS * a.Length && Used(old(a[..]), r)
    ensures r != -1 ==> forall p: nat :: p < r ==> !Used(old(a[..]), p)
    ensures r != -1 ==> forall p: nat :: p < WORD_BITS * a.Length ==> (Used(a[..], p) <==> p != r && Used(old(a[..]), p))
  {
    hide Bit, WithoutRange;
    r := First(a);
    if r >= 0 {
      WithoutRangeIsDifference(a[..], r, 1);
      ResetBit(a, r);
    }
  }
}
