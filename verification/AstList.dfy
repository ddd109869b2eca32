/** The child list of an AST node. It grows by doubling, and its capacity is stored nowhere. */
module AstList {

  datatype Child = Null | Node(id: nat)

  /** n & (~n + 1), the lowest bit that is set, on numbers. */
  function LowestBit(n: nat): nat {
    if n == 0 then 0 else if n % 2 == 1 then 1 else 2 * LowestBit(n / 2)
  }

  /** is_power_of_two */
  predicate IsPowerOfTwo(n: nat) {
    n != 0 && n == LowestBit(n)
  }

  /** The number that a 32-bit word stands for. */
  function Value(w: bv32): nat
    decreases w
  {
    if w == 0 then 0 else 2 * Value(w >> 1) + Bit(w)
  }

  /** The last bit of a word. */
  function Bit(w: bv32): nat {
    if w & 1 == 1 then 1 else 0
  }

  lemma SameParts(a: bv32, b: bv32)
    requires a >> 1 == b >> 1 && Bit(a) == Bit(b)
    ensures a == b
  {
  }

  lemma Halves(w: bv32)
    ensures Value(w) == 2 * Value(w >> 1) + Bit(w) && Bit(w) <= 1
  {
  }

  /** The 32-bit expression for the lowest bit that is set. */
  function Low(w: bv32): bv32 {
    w & (!w + 1)
  }

  /** One step of the expression, read from the last bit. */
  lemma LowParts(w: bv32)
    ensures w == 0 ==> Low(w) == 0
    ensures Bit(w) == 1 ==> Low(w) >> 1 == 0 && Bit(Low(w)) == 1
    ensures Bit(w) == 0 ==> Low(w) >> 1 == Low(w >> 1) && Bit(Low(w)) == 0
  {
  }

  lemma {:induction false} ValueZero(w: bv32)
    ensures Value(w) == 0 <==> w == 0
    decreases w
  {
    if w != 0 {
      ValueZero(w >> 1);
    }
  }

  lemma {:induction false} ValueInjective(a: bv32, b: bv32)
    requires Value(a) == Value(b)
    ensures a == b
    decreases Value(a)
  {
    hide Value, Bit;
    ValueZero(a);
    ValueZero(b);
    if a != 0 {
      Halves(a);
      Halves(b);
      ValueInjective(a >> 1, b >> 1);
      SameParts(a, b);
    }
  }

  /** The expression computes the lowest bit of the number. */
  lemma {:induction false} LowestBitValue(w: bv32)
    ensures Value(Low(w)) == LowestBit(Value(w))
    decreases Value(w)
  {
    hide Value, Bit, Low;
    Halves(w);
    Halves(Low(w));
    LowParts(w);
    ValueZero(w);
    if Bit(w) == 1 {
      ValueZero(Low(w) >> 1);
    } else if w == 0 {
      ValueZero(0);
    } else {
      LowestBitValue(w >> 1);
    }
  }

  /** is_power_of_two on words is the test on numbers. */
  lemma WordTest(w: bv32)
    ensures w != 0 && w == w & (!w + 1) <==> IsPowerOfTwo(Value(w))
  {
    hide Value;
    ValueZero(w);
    LowestBitValue(w);
    if Value(w) == Value(Low(w)) {
      ValueInjective(w, Low(w));
    }
  }

  function Pow2(k: nat): (p: nat)
    ensures p > 0
  {
    if k == 0 then 1 else 2 * Pow2(k - 1)
  }

  lemma {:induction false} PowersPass(k: nat)
    ensures IsPowerOfTwo(Pow2(k))
  {
    if k > 0 {
      PowersPass(k - 1);
      assert Pow2(k) / 2 == Pow2(k - 1);
    }
  }

  lemma {:induction false} OnlyPowersPass(n: nat) returns (k: nat)
    requires IsPowerOfTwo(n)
    ensures n == Pow2(k)
  {
    k := 0;
    if n % 2 == 0 {
      k := OnlyPowersPass(n / 2);
      k := k + 1;
    }
  }

  /** The test finds exactly the powers of two. */
  lemma PowerOfTwo(n: nat)
    ensures IsPowerOfTwo(n) <==> exists k: nat :: n == Pow2(k)
  {
    if IsPowerOfTwo(n) {
      var k := OnlyPowersPass(n);
    }
    if k: nat :| n == Pow2(k) {
      PowersPass(k);
    }
  }

  /** Room for `n` children: the least power of two that is at least `n` and at least 4. */
  ghost function Room(n: nat): (r: nat)
    ensures r >= 4 && r >= n
    decreases n
  {
    if n <= 4 then 4 else 2 * Room((n + 1) / 2)
  }

  lemma {:induction false} RoomIsPower(n: nat)
    ensures IsPowerOfTwo(Room(n)) && (n > 4 ==> Room(n) < 2 * n)
  {
    if n <= 4 {
      assert LowestBit(4) == 2 * LowestBit(2) && LowestBit(2) == 2 * LowestBit(1);
    } else {
      RoomIsPower((n + 1) / 2);
      assert 2 * Room((n + 1) / 2) / 2 == Room((n + 1) / 2);
      assert (n + 1) / 2 > 4 || Room((n + 1) / 2) == 4;
    }
  }

  lemma {:induction false} RoomOfPower(n: nat)
    requires n >= 4 && IsPowerOfTwo(n)
    ensures Room(n) == n && Room(n + 1) == 2 * n
  {
    if n <= 7 {
      assert n == 4 by {
        assert LowestBit(6) == 2 * LowestBit(3);
      }
      assert Room(5) == 2 * Room(3);
    } else {
      assert n % 2 == 0;
      RoomOfPower(n / 2);
      assert (n + 1) / 2 == n / 2 && (n + 2) / 2 == n / 2 + 1;
    }
  }

  /** Between two powers of two the room does not change. */
  lemma {:induction false} RoomStays(n: nat)
    requires n < 4 || !IsPowerOfTwo(n)
    ensures n < Room(n) && Room(n + 1) == Room(n)
    decreases n, 1
  {
    if n < 4 {
    } else {
      RoomIsPower(n);
      if n % 2 == 0 {
        RoomHalfEven(n);
      } else {
        assert (n + 2) / 2 == (n + 1) / 2;
      }
    }
  }

  lemma {:induction false} RoomHalfEven(n: nat)
    requires n > 4 && n % 2 == 0 && !IsPowerOfTwo(n)
    ensures Room(n + 1) == Room(n)
    decreases n, 0
  {
    assert !IsPowerOfTwo(n / 2);
    RoomStays(n / 2);
    assert (n + 1) / 2 == n / 2 && (n + 2) / 2 == n / 2 + 1;
  }

  lemma {:induction false} RoomMonotone(n: nat)
    ensures Room(n) <= Room(n + 1)
  {
    if n >= 4 && IsPowerOfTwo(n) {
      RoomOfPower(n);
    } else {
      RoomStays(n);
    }
  }

  class List {
    var children: nat
    /** The memory behind the header; its length is known to the allocator only. */
    var child: array<Child>

    ghost predicate Valid()
      reads this
    {
      children <= child.Length && child.Length >= Room(children)
    }

    ghost function Contents(): seq<Child>
      reads this, child
      requires Valid()
    {
      child[..children]
    }

    /** zend_ast_create_list without initial children. */
    constructor ()
      ensures Valid() && Contents() == [] && fresh(child)
    {
      children := 0;
      child := new Child[4](_ => Null);
    }

    /** zend_ast_realloc: a larger block with the first children copied. */
    method Grow()
      requires Valid() && children >= 4 && IsPowerOfTwo(children)
      modifies this`child
      ensures children < child.Length && child.Length == Room(children + 1)
      ensures Valid() && Contents() == old(Contents()) && fresh(child)
    {
      RoomOfPower(children);
      var from, n := child, children;
      child := new Child[2 * n](i requires 0 <= i < 2 * n reads from => if i < n && i < from.Length then from[i] else Null);
    }

    /** zend_ast_list_add. The write is inside the block. */
    method Append(op: Child)
      requires Valid()
      modifies this, child
      ensures Valid() && Contents() == old(Contents()) + [op]
      ensures child == old(child) || fresh(child)
    {
      if children >= 4 && IsPowerOfTwo(children) {
        Grow();
      } else {
        RoomStays(children);
      }
      child[children] := op;
      children := children + 1;
    }

    /** zend_ast_list_rtrim */
    method Rtrim()
      requires Valid()
      modifies this`children
      ensures Valid() && Contents() == Trimmed(old(Contents()))
    {
      if children != 0 && child[children - 1] == Null {
        RoomMonotone(children - 1);
        children := children - 1;
      }
    }
  }

  /** At most one trailing null goes. */
  function Trimmed(s: seq<Child>): seq<Child> {
    if s != [] && s[|s| - 1] == Null then s[..|s| - 1] else s
  }

  /** A trailing null goes, and nothing else does. */
  lemma TrimmedExactly(s: seq<Child>, c: Child)
    ensures Trimmed([]) == [] && Trimmed(s + [Null]) == s && (c != Null ==> Trimmed(s + [c]) == s + [c])
  {
    assert (s + [Null])[..|s|] == s;
  }

  datatype Op = Add(child: Child) | Trim

  /** What a sequence of operations means. */
  function Meaning(s: seq<Child>, ops: seq<Op>): seq<Child>
    decreases |ops|
  {
    if ops == [] then s
    else Meaning(match ops[0] case Add(c) => s + [c] case Trim => Trimmed(s), ops[1..])
  }

  /** Any sequence of additions and trims acts as on a plain sequence. */
  method Perform(l: List, ops: seq<Op>)
    requires l.Valid()
    modifies l, l.child
    ensures l.Valid() && l.Contents() == Meaning(old(l.Contents()), ops)
  {
    ghost var s := l.Contents();
    ghost var block := l.child;
    for i := 0 to |ops|
      invariant l.Valid() && (l.child == block || fresh(l.child))
      invariant Meaning(l.Contents(), ops[i..]) == Meaning(s, ops)
    {
      assert ops[i..][1..] == ops[i + 1..];
      match ops[i]
      case Add(c) => l.Append(c);
      case Trim => l.Rtrim();
    }
    assert ops[|ops|..] == [];
  }
}
