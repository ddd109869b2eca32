/** The line diff of the test runner, between the wanted and the actual lines. */
module LineDiff {

  /** Whether wanted line `i` accepts actual line `j`. */
  type Same = (nat, nat) -> bool

  /** A line of the diff: a wanted line that is missing, or an actual line that was not wanted. */
  datatype Item = Minus(line: nat) | Plus(line: nat)

  // ------------------------------------------------------------------ common lines

  /** From lines `i` and `j` on, there are `n` pairs of equal lines in order. */
  ghost predicate Common(same: Same, i: nat, j: nat, n1: nat, n2: nat, n: nat)
    decreases n
  {
    n == 0 || exists p: nat, q: nat :: i <= p < n1 && j <= q < n2 && same(p, q) && Common(same, p + 1, q + 1, n1, n2, n - 1)
  }

  lemma {:induction false} CommonEarlier(same: Same, i: nat, j: nat, i': nat, j': nat, n1: nat, n2: nat, n: nat)
    requires Common(same, i', j', n1, n2, n) && i <= i' && j <= j'
    ensures Common(same, i, j, n1, n2, n)
  {
    if n > 0 {
      var p: nat, q: nat :| i' <= p < n1 && j' <= q < n2 && same(p, q) && Common(same, p + 1, q + 1, n1, n2, n - 1);
    }
  }

  /** Lines `i`, `i + 1`, ... accept lines `j`, `j + 1`, ..., `e` of them. */
  ghost predicate EqualRun(same: Same, i: nat, j: nat, e: nat) {
    e == 0 || (same(i + e - 1, j + e - 1) && EqualRun(same, i, j, e - 1))
  }

  /** There are no more than `n` equal lines right in front. */
  ghost predicate AllInFront(same: Same, i: nat, j: nat, n1: nat, n2: nat, n: nat) {
    forall e: nat :: EqualRun(same, i, j, e) && i + e <= n1 && j + e <= n2 ==> e <= n
  }

  /** After the equal lines in front, of which there are `e`, the estimate looks behind one line of
      either side, if its steps last that long. */
  ghost predicate LooksFurther(same: Same, i: nat, j: nat, n1: nat, n2: nat, steps: real, n: nat) {
    forall e: nat :: EqualRun(same, i, j, e) && i + e <= n1 && j + e <= n2 && Differ(same, i + e, j + e, n1, n2)
                     && e as real + 1.0 < steps ==>
      e <= n && AllInFront(same, i + e + 1, j + e, n1, n2, n - e) && AllInFront(same, i + e, j + e + 1, n1, n2, n - e)
  }

  predicate Differ(same: Same, i: nat, j: nat, n1: nat, n2: nat) {
    !(i < n1 && j < n2 && same(i, j))
  }

  lemma CommonCons(same: Same, p: nat, q: nat, n1: nat, n2: nat, n: nat)
    requires p < n1 && q < n2 && same(p, q) && Common(same, p + 1, q + 1, n1, n2, n)
    ensures Common(same, p, q, n1, n2, n + 1)
  {
  }

  /** Equal lines in front of further pairs. */
  lemma {:induction false} CommonInFront(same: Same, i: nat, j: nat, e: nat, n1: nat, n2: nat, n: nat)
    requires (e > 0 ==> i + e <= n1 && j + e <= n2) && EqualRun(same, i, j, e) && Common(same, i + e, j + e, n1, n2, n)
    ensures Common(same, i, j, n1, n2, e + n)
    decreases e
  {
    hide Common;
    if e > 0 {
      CommonCons(same, i + e - 1, j + e - 1, n1, n2, n);
      CommonInFront(same, i, j, e - 1, n1, n2, n + 1);
    }
  }

  /** Depth of the recursion that `steps` allows. */
  function Depth(steps: real): nat {
    if steps < 0.0 then 0 else steps.Floor + 1
  }

  /** count_array_diff: an estimate of how many lines can still be matched. It never promises more
      than there are, and never less than the equal lines right in front. `steps` may become a fraction. */
  method CountDiff(same: Same, i: nat, j: nat, n1: nat, n2: nat, steps: real) returns (equal: nat)
    ensures Common(same, i, j, n1, n2, equal)
    ensures AllInFront(same, i, j, n1, n2, equal) && LooksFurther(same, i, j, n1, n2, steps, equal)
    decreases Depth(steps)
  {
    hide Common, AllInFront, LooksFurther;
    equal := 0;
    var left := steps;
    while i + equal < n1 && j + equal < n2 && same(i + equal, j + equal)
      invariant equal > 0 ==> i + equal <= n1 && j + equal <= n2
      invariant left == steps - equal as real
      invariant EqualRun(same, i, j, equal)
    {
      equal := equal + 1;
      left := left - 1.0;
    }
    RunEnds(same, i, j, n1, n2, equal);
    left := left - 1.0;
    CommonNone(same, i + equal, j + equal, n1, n2);
    var more := 0;
    if left > 0.0 {
      more := CountBranches(same, i + equal, j + equal, n1, n2, left, steps);
    }
    CommonInFront(same, i, j, equal, n1, n2, more);
    FurtherThan(same, i, j, n1, n2, steps, equal, more);
    equal := equal + more;
  }

  lemma {:induction false} RunMember(same: Same, i: nat, j: nat, e: nat, q: nat)
    requires EqualRun(same, i, j, e) && q < e
    ensures same(i + q, j + q)
  {
    if q < e - 1 {
      RunMember(same, i, j, e - 1, q);
    }
  }

  /** No longer run of equal lines starts here. */
  lemma RunEnds(same: Same, i: nat, j: nat, n1: nat, n2: nat, q: nat)
    requires !(i + q < n1 && j + q < n2 && same(i + q, j + q))
    ensures AllInFront(same, i, j, n1, n2, q)
  {
    forall e: nat | EqualRun(same, i, j, e) && i + e <= n1 && j + e <= n2
      ensures e <= q
    {
      if e > q {
        RunMember(same, i, j, e, q);
      }
    }
  }

  lemma CommonNone(same: Same, i: nat, j: nat, n1: nat, n2: nat)
    ensures Common(same, i, j, n1, n2, 0)
  {
  }

  /** The two loops of count_array_diff over the lines that could be skipped. */
  method CountBranches(same: Same, i: nat, j: nat, n1: nat, n2: nat, left: real, ghost steps: real) returns (best: nat)
    requires 0.0 < left <= steps - 1.0
    ensures Common(same, i, j, n1, n2, best)
    ensures AllInFront(same, i + 1, j, n1, n2, best) && AllInFront(same, i, j + 1, n1, n2, best)
    decreases Depth(steps), 0
  {
    hide Common, AllInFront, LooksFurther;
    NoneInFront(same, i + 1, j, n1, n2);
    NoneInFront(same, i, j + 1, n1, n2);
    CommonNone(same, i, j, n1, n2);
    var eq1, eq2 := 0, 0;
    var st := left / 2.0;
    var ofs := i + 1;
    while ofs < n1 && st > 0.0
      invariant i < ofs && st <= left / 2.0 && Common(same, i, j, n1, n2, eq1)
      invariant if ofs == i + 1 then st == left / 2.0 else AllInFront(same, i + 1, j, n1, n2, eq1)
      decreases if ofs < n1 then n1 - ofs else 0
    {
      st := st - 1.0;
      DepthFalls(st, steps);
      var eq := CountDiff(same, ofs, j, n1, n2, st);
      CommonEarlier(same, i, j, ofs, j, n1, n2, eq);
      MoreInFront(same, i + 1, j, n1, n2, eq1, eq);
      MoreInFront(same, ofs, j, n1, n2, eq, eq1);
      if eq > eq1 {
        eq1 := eq;
      }
      ofs := ofs + 1;
    }
    st := left;
    ofs := j + 1;
    while ofs < n2 && st > 0.0
      invariant j < ofs && st <= left && Common(same, i, j, n1, n2, eq2)
      invariant if ofs == j + 1 then st == left else AllInFront(same, i, j + 1, n1, n2, eq2)
      decreases if ofs < n2 then n2 - ofs else 0
    {
      st := st - 1.0;
      DepthFalls(st, steps);
      var eq := CountDiff(same, i, ofs, n1, n2, st);
      CommonEarlier(same, i, j, i, ofs, n1, n2, eq);
      MoreInFront(same, i, j + 1, n1, n2, eq2, eq);
      MoreInFront(same, i, ofs, n1, n2, eq, eq2);
      if eq > eq2 {
        eq2 := eq;
      }
      ofs := ofs + 1;
    }
    best := if eq1 > eq2 then eq1 else if eq2 > 0 then eq2 else 0;
    MoreInFront(same, i + 1, j, n1, n2, 0, best);
    MoreInFront(same, i, j + 1, n1, n2, 0, best);
    MoreInFront(same, i + 1, j, n1, n2, eq1, best);
    MoreInFront(same, i, j + 1, n1, n2, eq2, best);
  }

  /** No line is in front where one side is used up. */
  lemma NoneInFront(same: Same, i: nat, j: nat, n1: nat, n2: nat)
    ensures i >= n1 || j >= n2 ==> AllInFront(same, i, j, n1, n2, 0)
  {
  }

  lemma MoreInFront(same: Same, i: nat, j: nat, n1: nat, n2: nat, n: nat, n': nat)
    ensures n <= n' && AllInFront(same, i, j, n1, n2, n) ==> AllInFront(same, i, j, n1, n2, n')
  {
  }

  /** The estimate of the lines behind `q` equal ones. */
  lemma FurtherThan(same: Same, i: nat, j: nat, n1: nat, n2: nat, steps: real, q: nat, more: nat)
    requires EqualRun(same, i, j, q) && (q > 0 ==> i + q <= n1 && j + q <= n2) && Differ(same, i + q, j + q, n1, n2)
    requires q as real + 1.0 < steps ==>
      AllInFront(same, i + q + 1, j + q, n1, n2, more) && AllInFront(same, i + q, j + q + 1, n1, n2, more)
    ensures AllInFront(same, i, j, n1, n2, q + more) && LooksFurther(same, i, j, n1, n2, steps, q + more)
  {
    hide EqualRun;
    RunEnds(same, i, j, n1, n2, q);
    forall e: nat | EqualRun(same, i, j, e) && i + e <= n1 && j + e <= n2 && Differ(same, i + e, j + e, n1, n2)
      ensures e == q
    {
      if e < q {
        RunMember(same, i, j, q, e);
      }
    }
  }

  lemma DepthFalls(st: real, steps: real)
    requires st <= steps - 2.0 && steps > 1.0
    ensures Depth(st) < Depth(steps)
  {
  }

  // ---------------------------------------------------------- splitting the lines

  ghost predicate Increasing(s: seq<nat>) {
    forall i, j :: 0 <= i < j < |s| ==> s[i] < s[j]
  }

  /** The lines below `n` are in exactly one of two increasing lists. */
  ghost predicate Split(a: seq<nat>, b: seq<nat>, n: nat) {
    && Increasing(a) && Increasing(b)
    && (forall k :: 0 <= k < |a| ==> a[k] < n) && (forall k :: 0 <= k < |b| ==> b[k] < n)
    && (forall i: nat :: i < n ==> (i in a <==> i !in b))
  }

  lemma SplitLeft(a: seq<nat>, b: seq<nat>, n: nat)
    requires Split(a, b, n)
    ensures Split(a + [n], b, n + 1)
  {
  }

  lemma SplitRight(a: seq<nat>, b: seq<nat>, n: nat)
    requires Split(a, b, n)
    ensures Split(a, b + [n], n + 1)
  {
  }

  function MinusOf(d: seq<Item>): seq<nat> {
    if d == [] then [] else MinusOf(d[..|d| - 1]) + if d[|d| - 1].Minus? then [d[|d| - 1].line] else []
  }

  function PlusOf(d: seq<Item>): seq<nat> {
    if d == [] then [] else PlusOf(d[..|d| - 1]) + if d[|d| - 1].Plus? then [d[|d| - 1].line] else []
  }

  lemma Append(d: seq<Item>, x: Item)
    ensures MinusOf(d + [x]) == if x.Minus? then MinusOf(d) + [x.line] else MinusOf(d)
    ensures PlusOf(d + [x]) == if x.Plus? then PlusOf(d) + [x.line] else PlusOf(d)
  {
    assert (d + [x])[..|d|] == d;
  }

  // ------------------------------------------------------------------- the merge

  /** Item `k` goes on where the last item of its kind ended. */
  ghost predicate Continues(d: seq<Item>, k: nat)
    requires k < |d|
  {
    d[k].line > 0 && (if d[k].Plus? then Plus(d[k].line - 1) else Minus(d[k].line - 1)) in d[..k]
  }

  /** An item stands before one of the other kind with a smaller line only if it goes on with its
      own kind; of equal lines the one that was not wanted comes first. */
  ghost predicate InOrder(d: seq<Item>) {
    forall k, l :: 0 <= k < l < |d| ==> Precedes(d[k], d[l]) || Continues(d, k)
  }

  predicate Precedes(x: Item, y: Item) {
    (x.Plus? && y.Minus? ==> x.line <= y.line) && (x.Minus? && y.Plus? ==> x.line < y.line)
  }

  /** Item `k` may stand before the rest of both lists. */
  ghost predicate BeforeRest(d: seq<Item>, k: nat, rest1: seq<nat>, rest2: seq<nat>)
    requires k < |d|
  {
    || Continues(d, k)
    || ((forall x :: x in rest1 ==> Precedes(d[k], Minus(x))) && (forall x :: x in rest2 ==> Precedes(d[k], Plus(x))))
  }

  /** A merge up to here, with the rest of both lists to come. */
  ghost predicate Merging(d: seq<Item>, rest1: seq<nat>, rest2: seq<nat>) {
    InOrder(d) && forall k :: 0 <= k < |d| ==> BeforeRest(d, k, rest1, rest2)
  }

  lemma AppendInOrder(d: seq<Item>, x: Item, rest1: seq<nat>, rest2: seq<nat>, rest1': seq<nat>, rest2': seq<nat>)
    requires Merging(d, rest1, rest2)
    requires if x.Minus? then x.line in rest1 else x.line in rest2
    requires (forall y :: y in rest1' ==> y in rest1) && (forall y :: y in rest2' ==> y in rest2)
    requires BeforeRest(d + [x], |d|, rest1', rest2')
    ensures Merging(d + [x], rest1', rest2')
  {
    forall k | 0 <= k < |d|
      ensures Continues(d + [x], k) <==> Continues(d, k)
    {
      assert (d + [x])[..k] == d[..k];
    }
    forall k | 0 <= k < |d|
      ensures BeforeRest(d + [x], k, rest1', rest2') && (Precedes(d[k], x) || Continues(d, k))
    {
      assert BeforeRest(d, k, rest1, rest2);
    }
  }

  /** The loop of generate_array_diff that merges the two lists. */
  method Merge(old1: seq<nat>, old2: seq<nat>) returns (diff: seq<Item>)
    requires Increasing(old1) && Increasing(old2)
    ensures MinusOf(diff) == old1 && PlusOf(diff) == old2 && InOrder(diff)
  {
    hide MinusOf, PlusOf, InOrder, BeforeRest;
    NoItems();
    NoItemsInOrder();
    diff := [];
    var a, b := 0, 0;
    var l1: int, l2: int := -2, -2;
    while a < |old1| || b < |old2|
      invariant a <= |old1| && b <= |old2|
      invariant MinusOf(diff) == old1[..a] && PlusOf(diff) == old2[..b]
      invariant Merging(diff, old1[a..], old2[b..])
      invariant (l1 >= 0 ==> Minus(l1) in diff) && (l2 >= 0 ==> Plus(l2) in diff) && l1 != -1 && l2 != -1
      decreases |old1| - a + |old2| - b
    {
      var first := if a < |old1| && (old1[a] == l1 + 1 || b == |old2|) then true
                   else if b < |old2| && (old2[b] == l2 + 1 || a == |old1|) then false
                   else old1[a] < old2[b];
      if first {
        Append(diff, Minus(old1[a]));
        FirstBefore(diff, Minus(old1[a]), old1, old2, a, b, l1);
        l1 := old1[a];
        diff := diff + [Minus(old1[a])];
        a := a + 1;
      } else {
        Append(diff, Plus(old2[b]));
        SecondBefore(diff, Plus(old2[b]), old1, old2, a, b, l2);
        l2 := old2[b];
        diff := diff + [Plus(old2[b])];
        b := b + 1;
      }
    }
  }

  lemma FirstBefore(d: seq<Item>, x: Item, old1: seq<nat>, old2: seq<nat>, a: nat, b: nat, l1: int)
    requires Increasing(old1) && Increasing(old2) && a < |old1| && b <= |old2| && x == Minus(old1[a])
    requires Merging(d, old1[a..], old2[b..])
    requires (l1 >= 0 ==> Minus(l1) in d) && l1 != -1
    requires old1[a] == l1 + 1 || b == |old2| || old1[a] < old2[b]
    ensures Merging(d + [x], old1[a + 1..], old2[b..])
  {
    hide InOrder, Merging;
    assert (d + [x])[..|d|] == d;
    assert old1[a..][0] == old1[a] && old1[a + 1..] == old1[a..][1..];
    AppendInOrder(d, x, old1[a..], old2[b..], old1[a + 1..], old2[b..]);
  }

  lemma SecondBefore(d: seq<Item>, x: Item, old1: seq<nat>, old2: seq<nat>, a: nat, b: nat, l2: int)
    requires Increasing(old1) && Increasing(old2) && a <= |old1| && b < |old2| && x == Plus(old2[b])
    requires Merging(d, old1[a..], old2[b..])
    requires (l2 >= 0 ==> Plus(l2) in d) && l2 != -1
    requires old2[b] == l2 + 1 || a == |old1| || old2[b] <= old1[a]
    ensures Merging(d + [x], old1[a..], old2[b + 1..])
  {
    hide InOrder, Merging;
    assert (d + [x])[..|d|] == d;
    assert old2[b..][0] == old2[b] && old2[b + 1..] == old2[b..][1..];
    AppendInOrder(d, x, old1[a..], old2[b..], old1[a..], old2[b + 1..]);
  }

  lemma NoItemsInOrder()
    ensures InOrder([])
  {
  }

  lemma SplitIncreasing(a: seq<nat>, b: seq<nat>, n: nat)
    requires Split(a, b, n)
    ensures Increasing(a) && Increasing(b)
  {
  }

  // ---------------------------------------------------------------- the whole diff

  /** The lines that both sides have in common, in order: `m1[k]` accepts `m2[k]`. */
  ghost predicate Matched(same: Same, m1: seq<nat>, m2: seq<nat>) {
    |m1| == |m2| && forall k :: 0 <= k < |m1| ==> same(m1[k], m2[k])
  }

  ghost predicate AllSame(same: Same, n1: nat, n2: nat) {
    n1 == n2 && forall i: nat :: i < n1 ==> same(i, i)
  }

  /** The actual text is the wanted one with one more line, at `p`. */
  ghost predicate InsertedAt(same: Same, n1: nat, n2: nat, p: nat) {
    && n2 == n1 + 1 && p <= n1
    && (forall k: nat :: k < p ==> same(k, k)) && (p < n1 ==> !same(p, p))
    && (forall k: nat, l: nat :: p <= k < n1 && l == k + 1 ==> same(k, l))
  }

  /** The actual text is the wanted one without line `p`. */
  ghost predicate DeletedAt(same: Same, n1: nat, n2: nat, p: nat) {
    && n1 == n2 + 1 && p <= n2
    && (forall k: nat :: k < p ==> same(k, k)) && (p < n2 ==> !same(p, p))
    && (forall k: nat, l: nat :: p <= k < n2 && l == k + 1 ==> same(l, k))
  }

  /** The texts differ in line `p`, and no actual line is like the wanted line `p`. */
  ghost predicate ChangedAt(same: Same, n1: nat, n2: nat, p: nat) {
    && n1 == n2 && p < n1
    && (forall k: nat :: k < n1 && k != p ==> same(k, k))
    && (forall l: nat :: l < n2 ==> !same(p, l))
  }

  /** There are no more pairs than lines on either side. */
  lemma {:induction false} CommonBound(same: Same, i: nat, j: nat, n1: nat, n2: nat, n: nat)
    requires Common(same, i, j, n1, n2, n)
    ensures n > 0 ==> i + n <= n1 && j + n <= n2
    decreases n
  {
    if n > 0 {
      var p: nat, q: nat :| i <= p < n1 && j <= q < n2 && same(p, q) && Common(same, p + 1, q + 1, n1, n2, n - 1);
      CommonBound(same, p + 1, q + 1, n1, n2, n - 1);
    }
  }

  lemma {:induction false} RunOf(same: Same, i: nat, j: nat, e: nat)
    requires forall k: nat, l: nat :: i <= k < i + e && l == j + (k - i) ==> same(k, l)
    ensures EqualRun(same, i, j, e)
  {
    if e > 0 {
      RunOf(same, i, j, e - 1);
    }
  }

  /** Where the main loop is, and what it has reported, when line `p` has been inserted or deleted. */
  ghost predicate InsertedSoFar(i: nat, j: nat, old1: seq<nat>, old2: seq<nat>, p: nat) {
    old1 == [] && if j <= p then i == j && old2 == [] else i + 1 == j && old2 == [p]
  }

  ghost predicate DeletedSoFar(i: nat, j: nat, old1: seq<nat>, old2: seq<nat>, p: nat) {
    old2 == [] && if i <= p then i == j && old1 == [] else i == j + 1 && old1 == [p]
  }

  ghost predicate ChangedSoFar(i: nat, j: nat, old1: seq<nat>, old2: seq<nat>, p: nat, n: nat) {
    || (i == j <= p && old1 == [] == old2)
    || (i == p && j == p + 1 < n && old1 == [] && old2 == [p])
    || (i == j > p && old1 == [p] == old2)
  }

  /** Equal lines keep the two sides as they are. */
  lemma Matching(same: Same, n1: nat, n2: nat, i: nat, j: nat, old1: seq<nat>, old2: seq<nat>, p: nat)
    requires i < n1 && j < n2 && same(i, j)
    ensures InsertedAt(same, n1, n2, p) && InsertedSoFar(i, j, old1, old2, p) ==> InsertedSoFar(i + 1, j + 1, old1, old2, p)
    ensures DeletedAt(same, n1, n2, p) && DeletedSoFar(i, j, old1, old2, p) ==> DeletedSoFar(i + 1, j + 1, old1, old2, p)
    ensures ChangedAt(same, n1, n2, p) && ChangedSoFar(i, j, old1, old2, p, n1) ==>
      ChangedSoFar(i + 1, j + 1, old1, old2, p, n1)
  {
  }

  /** At a difference the inserted line has been reached, and skipping it matches more. */
  lemma InsertedHere(same: Same, n1: nat, n2: nat, i: nat, j: nat, old1: seq<nat>, old2: seq<nat>, p: nat, c1: nat, c2: nat)
    requires InsertedAt(same, n1, n2, p) && InsertedSoFar(i, j, old1, old2, p) && i < n1 && j < n2 && !same(i, j)
    requires Common(same, i + 1, j, n1, n2, c1)
    requires AllInFront(same, i, j + 1, n1, n2, c2)
    ensures c1 < c2 && InsertedSoFar(i, j + 1, old1, old2 + [j], p)
  {
    hide Common, EqualRun;
    assert i == j == p;
    CommonBound(same, p + 1, p, n1, n2, c1);
    RunOf(same, p, p + 1, n1 - p);
  }

  lemma DeletedHere(same: Same, n1: nat, n2: nat, i: nat, j: nat, old1: seq<nat>, old2: seq<nat>, p: nat, c1: nat, c2: nat)
    requires DeletedAt(same, n1, n2, p) && DeletedSoFar(i, j, old1, old2, p) && i < n1 && j < n2 && !same(i, j)
    requires Common(same, i, j + 1, n1, n2, c2)
    requires AllInFront(same, i + 1, j, n1, n2, c1)
    ensures c2 < c1 && DeletedSoFar(i + 1, j, old1 + [i], old2, p)
  {
    hide Common, EqualRun;
    assert i == j == p;
    CommonBound(same, p, p + 1, n1, n2, c2);
    RunOf(same, p + 1, p, n2 - p);
  }

  /** At the changed line first the actual one is reported and then the wanted one, or both at once if
      they are the last. */
  lemma ChangedHere(same: Same, n1: nat, n2: nat, i: nat, j: nat, old1: seq<nat>, old2: seq<nat>, p: nat, c1: nat, c2: nat)
    requires ChangedAt(same, n1, n2, p) && ChangedSoFar(i, j, old1, old2, p, n1) && i < n1 && j < n2 && !same(i, j)
    requires Common(same, i + 1, j, n1, n2, c1) && Common(same, i, j + 1, n1, n2, c2)
    requires AllInFront(same, i + 1, j, n1, n2, c1) && LooksFurther(same, i, j + 1, n1, n2, 10.0, c2)
    ensures if c1 > c2 then ChangedSoFar(i + 1, j, old1 + [i], old2, p, n1)
            else if c2 > 0 then ChangedSoFar(i, j + 1, old1, old2 + [j], p, n1)
            else ChangedSoFar(i + 1, j + 1, old1 + [i], old2 + [j], p, n1)
  {
    hide Common, AllInFront, LooksFurther;
    CommonBound(same, i + 1, j, n1, n2, c1);
    CommonBound(same, i, j + 1, n1, n2, c2);
    RunOf(same, p + 1, p + 1, n1 - p - 1);
    if i == j {
      SkipsOne(same, p, n1, c2);
    } else {
      InFront(same, p + 1, p + 1, n1, n2, c1, n1 - p - 1);
    }
  }

  lemma InFront(same: Same, i: nat, j: nat, n1: nat, n2: nat, n: nat, e: nat)
    requires AllInFront(same, i, j, n1, n2, n) && EqualRun(same, i, j, e) && i + e <= n1 && j + e <= n2
    ensures e <= n
  {
    hide EqualRun;
  }

  lemma SkipsOne(same: Same, p: nat, n: nat, c: nat)
    requires p < n && Differ(same, p, p + 1, n, n) && LooksFurther(same, p, p + 1, n, n, 10.0, c) && EqualRun(same, p + 1, p + 1, n - p - 1)
    ensures n - p - 1 <= c
  {
    hide AllInFront;
    assert EqualRun(same, p, p + 1, 0);
    assert AllInFront(same, p + 0 + 1, p + 1 + 0, n, n, c - 0);
    InFront(same, p + 1, p + 1, n, n, c, n - p - 1);
  }

  /** The main loop of generate_array_diff. */
  method Walk(same: Same, n1: nat, n2: nat)
    returns (i: nat, j: nat, old1: seq<nat>, old2: seq<nat>, ghost m1: seq<nat>, ghost m2: seq<nat>)
    ensures (i == n1 && j <= n2) || (i <= n1 && j == n2)
    ensures Split(old1, m1, i) && Split(old2, m2, j) && Matched(same, m1, m2)
    ensures AllSame(same, n1, n2) ==> old1 == old2 == [] && i == n1 && j == n2
    ensures forall p: nat :: InsertedAt(same, n1, n2, p) ==> InsertedSoFar(i, j, old1, old2, p)
    ensures forall p: nat :: DeletedAt(same, n1, n2, p) ==> DeletedSoFar(i, j, old1, old2, p)
    ensures forall p: nat :: ChangedAt(same, n1, n2, p) ==> ChangedSoFar(i, j, old1, old2, p, n1)
  {
    hide ChangedAt, ChangedSoFar, LooksFurther, Split, Common, AllInFront, InsertedAt, DeletedAt, InsertedSoFar, DeletedSoFar;
    i, j := 0, 0;
    old1, old2, m1, m2 := [], [], [], [];
    SplitNothing();
    NothingSoFar();
    while i < n1 && j < n2
      invariant i <= n1 && j <= n2
      invariant Split(old1, m1, i) && Split(old2, m2, j) && Matched(same, m1, m2)
      invariant AllSame(same, n1, n2) ==> old1 == old2 == [] && i == j
      invariant forall p: nat :: InsertedAt(same, n1, n2, p) ==> InsertedSoFar(i, j, old1, old2, p)
      invariant forall p: nat :: DeletedAt(same, n1, n2, p) ==> DeletedSoFar(i, j, old1, old2, p)
      invariant forall p: nat :: ChangedAt(same, n1, n2, p) ==> ChangedSoFar(i, j, old1, old2, p, n1)
      decreases n1 - i + n2 - j
    {
      if same(i, j) {
        forall p: nat {
          Matching(same, n1, n2, i, j, old1, old2, p);
        }
        SplitRight(old1, m1, i);
        SplitRight(old2, m2, j);
        m1, m2 := m1 + [i], m2 + [j];
        i, j := i + 1, j + 1;
      } else {
        var c1 := CountDiff(same, i + 1, j, n1, n2, 10.0);
        var c2 := CountDiff(same, i, j + 1, n1, n2, 10.0);
        SplitLeft(old1, m1, i);
        SplitLeft(old2, m2, j);
        forall p: nat | InsertedAt(same, n1, n2, p) {
          InsertedHere(same, n1, n2, i, j, old1, old2, p, c1, c2);
        }
        forall p: nat | DeletedAt(same, n1, n2, p) {
          DeletedHere(same, n1, n2, i, j, old1, old2, p, c1, c2);
        }
        forall p: nat | ChangedAt(same, n1, n2, p) {
          ChangedHere(same, n1, n2, i, j, old1, old2, p, c1, c2);
        }
        if c1 > c2 {
          old1 := old1 + [i];
          i := i + 1;
        } else if c2 > 0 {
          old2 := old2 + [j];
          j := j + 1;
        } else {
          old1, old2 := old1 + [i], old2 + [j];
          i, j := i + 1, j + 1;
        }
      }
    }
  }

  lemma NothingSoFar()
    ensures forall p: nat :: InsertedSoFar(0, 0, [], [], p) && DeletedSoFar(0, 0, [], [], p)
    ensures forall p: nat, n: nat :: ChangedSoFar(0, 0, [], [], p, n)
  {
  }

  lemma SplitNothing()
    ensures Split([], [], 0)
  {
  }

  /** generate_array_diff: every line is reported at most once and in order, and the lines that are not
      reported are equal in number and match pairwise. The diff is empty exactly for equal texts, and a
      line that has been inserted, deleted or changed is the whole diff. */
  method GenerateDiff(same: Same, n1: nat, n2: nat) returns (diff: seq<Item>, ghost m1: seq<nat>, ghost m2: seq<nat>)
    ensures Split(MinusOf(diff), m1, n1) && Split(PlusOf(diff), m2, n2) && Matched(same, m1, m2)
    ensures diff == [] <==> AllSame(same, n1, n2)
    ensures forall p: nat :: InsertedAt(same, n1, n2, p) ==> diff == [Plus(p)]
    ensures forall p: nat :: DeletedAt(same, n1, n2, p) ==> diff == [Minus(p)]
    ensures forall p: nat :: ChangedAt(same, n1, n2, p) ==> diff == [Plus(p), Minus(p)]
  {
    hide ChangedAt, ChangedSoFar, Split, MinusOf, PlusOf, AllSame, InOrder, Increasing, InsertedAt, DeletedAt, InsertedSoFar, DeletedSoFar;
    var i, j, old1, old2;
    i, j, old1, old2, m1, m2 := Walk(same, n1, n2);
    SplitIncreasing(old1, m1, i);
    SplitIncreasing(old2, m2, j);
    diff := Merge(old1, old2);
    MergedNothing(diff);
    ghost var merged := diff;
    diff := RestMinus(diff, i, n1, m1);
    diff := RestPlus(diff, j, n2, m2);
    forall p: nat {
      OneLine(same, n1, n2, i, j, old1, old2, merged, p);
    }
    if diff == [] {
      NoItems();
      NothingReported(same, m1, m2, n1, n2);
    }
  }

  /** The loop over the wanted lines that are left. */
  method RestMinus(before: seq<Item>, start: nat, n: nat, ghost m: seq<nat>) returns (diff: seq<Item>)
    requires start <= n && Split(MinusOf(before), m, start)
    ensures Split(MinusOf(diff), m, n) && PlusOf(diff) == PlusOf(before)
    ensures diff == before + seq(n - start, (k: nat) => Minus(start + k))
  {
    hide Split, MinusOf, PlusOf;
    diff := before;
    var i := start;
    while i < n
      invariant start <= i <= n && PlusOf(diff) == PlusOf(before) && Split(MinusOf(diff), m, i)
      invariant diff == before + seq(i - start, (k: nat) => Minus(start + k))
    {
      Append(diff, Minus(i));
      SplitLeft(MinusOf(diff), m, i);
      diff := diff + [Minus(i)];
      i := i + 1;
    }
  }

  /** The loop over the actual lines that are left. */
  method RestPlus(before: seq<Item>, start: nat, n: nat, ghost m: seq<nat>) returns (diff: seq<Item>)
    requires start <= n && Split(PlusOf(before), m, start)
    ensures Split(PlusOf(diff), m, n) && MinusOf(diff) == MinusOf(before)
    ensures diff == before + seq(n - start, (k: nat) => Plus(start + k))
  {
    hide Split, MinusOf, PlusOf;
    diff := before;
    var i := start;
    while i < n
      invariant start <= i <= n && MinusOf(diff) == MinusOf(before) && Split(PlusOf(diff), m, i)
      invariant diff == before + seq(i - start, (k: nat) => Plus(start + k))
    {
      Append(diff, Plus(i));
      SplitLeft(PlusOf(diff), m, i);
      diff := diff + [Plus(i)];
      i := i + 1;
    }
  }

  lemma NoItems()
    ensures MinusOf([]) == [] && PlusOf([]) == []
  {
  }

  lemma MergedNothing(d: seq<Item>)
    ensures MinusOf(d) == [] && PlusOf(d) == [] ==> d == []
  {
  }

  lemma {:induction false} Lengths(d: seq<Item>)
    ensures |MinusOf(d)| + |PlusOf(d)| == |d|
  {
    if d != [] {
      Lengths(d[..|d| - 1]);
    }
  }

  lemma MergedOne(d: seq<Item>)
    requires |MinusOf(d)| + |PlusOf(d)| == 1
    ensures d == if PlusOf(d) != [] then [Plus(PlusOf(d)[0])] else [Minus(MinusOf(d)[0])]
  {
    hide MinusOf, PlusOf;
    Lengths(d);
    NoItems();
    Append([], d[0]);
    assert d == [] + [d[0]];
  }

  /** Of equal lines the one that was not wanted comes first. */
  lemma MergedTwo(d: seq<Item>, p: nat)
    requires MinusOf(d) == [p] == PlusOf(d) && InOrder(d)
    ensures d == [Plus(p), Minus(p)]
  {
    hide MinusOf, PlusOf, InOrder;
    Lengths(d);
    NoItems();
    var x, y := d[0], d[1];
    assert [] + [x] == [x] && d == [x] + [y];
    Append([], x);
    Append([x], y);
    assert MinusOf(d)[0] == p && PlusOf(d)[0] == p;
    assert x.Minus? ==> MinusOf([x]) == [x.line];
    assert x.Plus? ==> PlusOf([x]) == [x.line];
    FirstTwo(d);
  }

  lemma FirstTwo(d: seq<Item>)
    requires InOrder(d) && |d| == 2
    ensures Precedes(d[0], d[1])
  {
    assert Precedes(d[0], d[1]) || Continues(d, 0);
  }

  /** The merged lists and what is left, when one line has been inserted, deleted or changed. */
  lemma OneLine(same: Same, n1: nat, n2: nat, i: nat, j: nat, old1: seq<nat>, old2: seq<nat>, merged: seq<Item>, p: nat)
    requires i <= n1 && j <= n2 && (i == n1 || j == n2)
    requires MinusOf(merged) == old1 && PlusOf(merged) == old2 && InOrder(merged)
    ensures var diff := merged + seq(n1 - i, (k: nat) => Minus(i + k)) + seq(n2 - j, (k: nat) => Plus(j + k));
      && (InsertedAt(same, n1, n2, p) && InsertedSoFar(i, j, old1, old2, p) ==> diff == [Plus(p)])
      && (DeletedAt(same, n1, n2, p) && DeletedSoFar(i, j, old1, old2, p) ==> diff == [Minus(p)])
      && (ChangedAt(same, n1, n2, p) && ChangedSoFar(i, j, old1, old2, p, n1) ==> diff == [Plus(p), Minus(p)])
  {
    hide MinusOf, PlusOf, InOrder;
    MergedNothing(merged);
    if old1 == [p] == old2 {
      MergedTwo(merged, p);
    }
    if |old1| + |old2| == 1 {
      MergedOne(merged);
    }
  }

  /** If no line is reported, all lines match. */
  lemma NothingReported(same: Same, m1: seq<nat>, m2: seq<nat>, n1: nat, n2: nat)
    requires Split([], m1, n1) && Split([], m2, n2) && Matched(same, m1, m2)
    ensures AllSame(same, n1, n2)
  {
    AllListed(m1, n1);
    AllListed(m2, n2);
    forall i: nat | i < n1
      ensures same(i, i)
    {
      assert same(m1[i], m2[i]);
    }
  }

  lemma {:induction false} AllListed(m: seq<nat>, n: nat)
    requires Split([], m, n)
    ensures |m| == n && forall i: nat :: i < n ==> m[i] == i
  {
    if m == [] {
      assert n > 0 ==> 0 in m;
    } else {
      var last := m[|m| - 1];
      assert last < n && n - 1 in m;
      var rest := m[..|m| - 1];
      assert last == n - 1;
      forall i: nat | i < n - 1
        ensures i in rest
      {
        assert i in m;
      }
      AllListed(rest, n - 1);
    }
  }
}
