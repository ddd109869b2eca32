/** Binding the arguments of a call to a parameter specification: by specification string and by the
    fast parameter macros. */
module ParseArgs {

  /** One specifier of a specification string; a type comes with its `/` and `!` modifiers. */
  datatype Item = Type(c: char) | Bar | Star | Plus | Bad

  type Spec = seq<Item>

  predicate IsMarker(it: Item) {
    it == Star || it == Plus
  }

  function TypeCount(s: Spec): nat {
    if s == [] then 0 else TypeCount(s[..|s| - 1]) + if s[|s| - 1].Type? then 1 else 0
  }

  function MarkerCount(s: Spec): nat {
    if s == [] then 0 else MarkerCount(s[..|s| - 1]) + if IsMarker(s[|s| - 1]) then 1 else 0
  }

  /** Number of arguments that a specification asks for: `+` asks for one. */
  function Slots(s: Spec): nat {
    if s == [] then 0
    else Slots(s[..|s| - 1]) + if s[|s| - 1].Type? || s[|s| - 1] == Plus then 1 else 0
  }

  /** Number of types before the varargs marker, or before the end. */
  function Before(s: Spec): nat {
    if s == [] then 0
    else Before(s[..|s| - 1]) + if s[|s| - 1].Type? && MarkerCount(s) == 0 then 1 else 0
  }

  /** Number of slots before the last `|`, or -1. */
  function BeforeBar(s: Spec): int {
    if s == [] then -1
    else if s[|s| - 1] == Bar then Slots(s[..|s| - 1])
    else BeforeBar(s[..|s| - 1])
  }

  function MinArgs(s: Spec): int {
    if BeforeBar(s) < 0 then Slots(s) else BeforeBar(s)
  }

  /** No `|` stands directly behind another one or behind the varargs marker. */
  predicate BarsRight(s: Spec) {
    forall i :: 0 < i < |s| && s[i] == Bar ==> s[i - 1] != Bar && !IsMarker(s[i - 1])
  }

  predicate WellFormed(s: Spec) {
    MarkerCount(s) <= 1 && BarsRight(s) && forall i :: 0 <= i < |s| ==> s[i] != Bad
  }

  lemma Next(s: Spec, w: nat)
    requires w < |s|
    ensures TypeCount(s[..w + 1]) == TypeCount(s[..w]) + if s[w].Type? then 1 else 0
    ensures MarkerCount(s[..w + 1]) == MarkerCount(s[..w]) + if IsMarker(s[w]) then 1 else 0
    ensures Slots(s[..w + 1]) == Slots(s[..w]) + if s[w].Type? || s[w] == Plus then 1 else 0
    ensures Before(s[..w + 1]) == Before(s[..w]) + if s[w].Type? && MarkerCount(s[..w + 1]) == 0 then 1 else 0
    ensures BeforeBar(s[..w + 1]) == if s[w] == Bar then Slots(s[..w]) else BeforeBar(s[..w])
  {
    assert s[..w + 1][..w] == s[..w];
  }

  // ---------------------------------------------------------------- the counting loop

  /** The first loop of zend_parse_va_args. */
  method Measure(spec: Spec) returns (ok: bool, minArgs: int, maxArgs: int, post: int)
    ensures ok <==> MarkerCount(spec) <= 1 && forall i :: 0 <= i < |spec| ==> spec[i] != Bad
    ensures ok ==> minArgs == MinArgs(spec) && maxArgs == if MarkerCount(spec) == 1 then -1 else Slots(spec)
    ensures ok ==> post == if MarkerCount(spec) == 1 then TypeCount(spec) - Before(spec) else 0
  {
    minArgs, maxArgs, post := -1, 0, 0;
    var have := false;
    for w := 0 to |spec|
      invariant forall i :: 0 <= i < w ==> spec[i] != Bad
      invariant have <==> MarkerCount(spec[..w]) == 1
      invariant MarkerCount(spec[..w]) <= 1 && maxArgs == Slots(spec[..w])
      invariant minArgs == BeforeBar(spec[..w])
      invariant have ==> maxArgs - post == TypeCount(spec[..w]) - Before(spec[..w])
      invariant !have ==> post == 0 && Before(spec[..w]) == TypeCount(spec[..w])
    {
      Next(spec, w);
      match spec[w]
      case Type(_) => maxArgs := maxArgs + 1;
      case Bar => minArgs := maxArgs;
      case Bad =>
        return false, 0, 0, 0;
      case _ =>
        if have {
          MoreMarkers(spec, w + 1);
          return false, 0, 0, 0;
        }
        have := true;
        if spec[w] == Plus {
          maxArgs := maxArgs + 1;
        }
        post := maxArgs;
    }
    assert spec[..|spec|] == spec;
    if minArgs < 0 {
      minArgs := maxArgs;
    }
    if have {
      post := maxArgs - post;
      maxArgs := -1;
    }
    ok := true;
  }

  lemma {:induction false} MoreMarkers(s: Spec, w: nat)
    requires w <= |s|
    ensures MarkerCount(s[..w]) <= MarkerCount(s)
    ensures TypeCount(s[..w]) <= TypeCount(s) && Before(s[..w]) <= Before(s) && Slots(s[..w]) <= Slots(s)
    decreases |s| - w
  {
    if w == |s| {
      assert s[..w] == s;
    } else {
      Next(s, w);
      MoreMarkers(s, w + 1);
    }
  }

  // ----------------------------------------------------------------- what is bound

  /** What an argument is bound to: the type with that number, or the slice of varargs. */
  datatype Target = ToType(t: nat) | InSlice

  /** Number of arguments in the slice when `n` are passed. */
  function SliceSize(s: Spec, n: nat): nat {
    if MarkerCount(s) == 1 && n > TypeCount(s) then n - TypeCount(s) else 0
  }

  function TargetOf(s: Spec, n: nat, k: nat): Target {
    if k < Before(s) then ToType(k)
    else if k < Before(s) + SliceSize(s, n) then InSlice
    else ToType(k - SliceSize(s, n))
  }

  /** The targets of `n` arguments, in order: the types before the marker, the slice, the types after. */
  function Binding(s: Spec, n: nat): (b: seq<Target>)
    ensures |b| == n && forall k :: 0 <= k < n ==> b[k] == TargetOf(s, n, k)
  {
    seq(n, (k: nat) => TargetOf(s, n, k))
  }

  /** Types are bound in order, each at most once, and the slice is one stretch of arguments. */
  lemma BindingInOrder(s: Spec, n: nat, j: nat, k: nat)
    requires j < k < n
    ensures Binding(s, n)[j].ToType? && Binding(s, n)[k].ToType? ==> Binding(s, n)[j].t < Binding(s, n)[k].t
    ensures Binding(s, n)[j].InSlice? && Binding(s, n)[k].InSlice? ==>
      forall i :: j <= i <= k ==> Binding(s, n)[i].InSlice?
  {
    hide Before, SliceSize;
  }

  /** The bound types are the first ones, without a gap. */
  lemma BindingCovers(s: Spec, n: nat, t: nat)
    ensures t + SliceSize(s, n) < n <==> exists k :: 0 <= k < n && Binding(s, n)[k] == ToType(t)
  {
    TypesBefore(s);
    var k := if t < Before(s) then t else t + SliceSize(s, n);
    if t + SliceSize(s, n) < n {
      assert Binding(s, n)[k] == ToType(t);
    }
    if i :| 0 <= i < n && Binding(s, n)[i] == ToType(t) {
      assert SliceSize(s, n) > 0 ==> Before(s) + SliceSize(s, n) <= n;
    }
  }

  lemma {:induction false} TypesBefore(s: Spec)
    ensures Before(s) <= TypeCount(s) <= Slots(s)
  {
    if s != [] {
      TypesBefore(s[..|s| - 1]);
    }
  }

  /** The variables of the caller for the slice: untouched, set to a null pointer and no arguments,
      set to a stretch of arguments, or set to one with the pointer taken back. */
  datatype SliceVar = Unset | Nothing | Slice(start: nat, count: nat) | Cleared(count: nat)

  /** The outcome of zend_parse_va_args: the arguments bound, in order, and the variables of the slice. */
  datatype Outcome =
    | WrongSpec | WrongCount | NotPassed | WrongType(arg: nat, slice: SliceVar)
    | Bound(targets: seq<Target>, slice: SliceVar)

  /** What is written at the marker. */
  function MarkerWrites(s: Spec, n: nat): SliceVar {
    if SliceSize(s, n) > 0 then Slice(Before(s), SliceSize(s, n)) else Nothing
  }

  /** The specification string writes the slice only if there is an argument behind the types before
      the marker; when a later argument is rejected it takes the pointer back. */
  ghost predicate StringSlice(s: Spec, n: nat, r: Outcome) {
    && (r.Bound? ==> r.slice == if MarkerCount(s) == 1 && n > Before(s) then MarkerWrites(s, n) else Unset)
    && (r.WrongType? && (MarkerCount(s) != 1 || r.arg < Before(s)) ==> r.slice == Unset)
    && (r.WrongType? && MarkerCount(s) == 1 && r.arg >= Before(s) ==>
          r.slice == if SliceSize(s, n) > 0 then Cleared(SliceSize(s, n)) else Nothing)
  }

  /** The macros write the slice whenever the types before the marker have their arguments. */
  ghost predicate MacroSlice(s: Spec, n: nat, r: Outcome) {
    && (r.Bound? ==> r.slice == if MarkerCount(s) == 1 && n >= Before(s) then MarkerWrites(s, n) else Unset)
    && (r.WrongType? ==> r.slice == if MarkerCount(s) == 1 && r.arg >= Before(s) then MarkerWrites(s, n) else Unset)
  }

  /** What has been written when `w` specifiers are read. */
  function SliceRead(s: Spec, n: nat, w: nat): SliceVar
    requires w <= |s|
  {
    if MarkerCount(s[..w]) == 1 then MarkerWrites(s, n) else Unset
  }

  /** The binding of `n` arguments when argument `k` is acceptable for type `t` if `accepts(t, k)`. */
  ghost predicate BoundRight(s: Spec, n: nat, accepts: (nat, nat) -> bool, r: Outcome) {
    match r
    case WrongSpec => !WellFormed(s)
    case WrongCount => WellFormed(s) && !CountRight(s, n)
    case NotPassed => WellFormed(s) && CountRight(s, n)
    case WrongType(k, _) =>
      && WellFormed(s) && CountRight(s, n) && k < n && Rejected(Binding(s, n)[k], k, accepts)
      && (forall j :: 0 <= j < k ==> !Rejected(Binding(s, n)[j], j, accepts))
    case Bound(targets, _) =>
      && WellFormed(s) && CountRight(s, n) && targets == Binding(s, n)
      && (forall j :: 0 <= j < n ==> !Rejected(Binding(s, n)[j], j, accepts))
  }

  predicate CountRight(s: Spec, n: nat) {
    MinArgs(s) <= n && (MarkerCount(s) == 0 ==> n <= Slots(s))
  }

  predicate Rejected(target: Target, arg: nat, accepts: (nat, nat) -> bool) {
    target.ToType? && !accepts(target.t, arg)
  }

  // ---------------------------------------------------------------- the binding loop

  /** The state of the second loop: `w` specifiers are read and `i` arguments are bound. */
  ghost predicate Reading(s: Spec, n: nat, w: nat, i: nat, count: nat)
    requires w <= |s|
  {
    && i <= n
    && (count == 0 ==> i == TypeCount(s[..w]))
    && (count == 0 && MarkerCount(s[..w]) == 1 ==> n <= TypeCount(s))
    && (count > 0 ==> MarkerCount(s[..w]) == 1 && count == n - TypeCount(s) && i == TypeCount(s[..w]) + count)
  }

  /** The arguments suffice for what is read, and the specification for what is passed. */
  lemma MoreToRead(s: Spec, n: nat, w: nat, i: nat, count: nat)
    requires WellFormed(s) && w <= |s| && Reading(s, n, w, i, count) && i < n
    requires MarkerCount(s) == 0 ==> n <= Slots(s)
    ensures w < |s| && (s[w] == Bar ==> w + 1 < |s| && s[w + 1] != Bar)
    ensures s[w] == Bar ==> Reading(s, n, w + 1, i, count)
  {
    if w == |s| {
      assert s[..w] == s;
      NoMarkerSlots(s);
    } else if s[w] == Bar {
      Next(s, w);
      if w + 1 == |s| {
        assert s[..w + 1] == s;
        NoMarkerSlots(s);
      }
    }
  }

  lemma {:induction false} NoMarkerSlots(s: Spec)
    ensures MarkerCount(s) == 0 ==> Slots(s) == TypeCount(s) == Before(s)
  {
    if s != [] {
      NoMarkerSlots(s[..|s| - 1]);
    }
  }

  /** What stands at the marker. */
  lemma AtMarker(s: Spec, w: nat)
    requires w < |s| && IsMarker(s[w]) && MarkerCount(s) == 1
    ensures MarkerCount(s[..w]) == 0 && MarkerCount(s[..w + 1]) == 1 && TypeCount(s[..w]) == Before(s)
    ensures TypeCount(s[..w + 1]) == TypeCount(s[..w])
  {
    Next(s, w);
    MoreMarkers(s, w + 1);
    NoMarkerSlots(s[..w]);
    BeforeAfterMarker(s, w + 1);
  }

  lemma {:induction false} BeforeAfterMarker(s: Spec, w: nat)
    requires w <= |s| && MarkerCount(s[..w]) >= 1
    ensures Before(s) == Before(s[..w]) && MarkerCount(s) >= 1
    decreases |s| - w
  {
    if w == |s| {
      assert s[..w] == s;
    } else {
      Next(s, w);
      BeforeAfterMarker(s, w + 1);
    }
  }

  /** The next type is the target of the next argument. */
  lemma AtType(s: Spec, n: nat, w: nat, i: nat, count: nat)
    requires WellFormed(s) && w < |s| && s[w].Type? && i < n && Reading(s, n, w, i, count)
    ensures TargetOf(s, n, i) == ToType(TypeCount(s[..w])) && Reading(s, n, w + 1, i + 1, count)
    ensures TypeCount(s[..w + 1]) == TypeCount(s[..w]) + 1
  {
    Next(s, w);
    MoreMarkers(s, w + 1);
    if MarkerCount(s[..w]) == 0 {
      NoMarkerSlots(s[..w + 1]);
    } else {
      BeforeAfterMarker(s, w);
      TypesBefore(s[..w]);
    }
  }

  /** The slice is taken at the marker. */
  lemma AtSlice(s: Spec, n: nat, w: nat, i: nat)
    requires WellFormed(s) && w < |s| && IsMarker(s[w]) && i <= n && Reading(s, n, w, i, 0)
    ensures MarkerCount(s) == 1 && i == Before(s) <= TypeCount(s)
    ensures n > TypeCount(s) ==> SliceSize(s, n) == n - TypeCount(s) && Reading(s, n, w + 1, i + SliceSize(s, n), SliceSize(s, n))
    ensures n <= TypeCount(s) ==> Reading(s, n, w + 1, i, 0)
    ensures TypeCount(s[..w + 1]) == TypeCount(s[..w])
    ensures SliceRead(s, n, w + 1) == if n > TypeCount(s) then Slice(i, n - TypeCount(s)) else Nothing
  {
    Next(s, w);
    MoreMarkers(s, w + 1);
    AtMarker(s, w);
    TypesBefore(s);
  }

  /** zend_parse_va_args for `n` of the `argCount` arguments of the call. */
  method ParseVaArgs(spec: Spec, n: nat, argCount: nat, accepts: (nat, nat) -> bool) returns (r: Outcome)
    requires BarsRight(spec)
    ensures BoundRight(spec, n, accepts, r)
    ensures StringSlice(spec, n, r)
    ensures r == NotPassed ==> n > argCount
    ensures r.Bound? || r.WrongType? ==> n <= argCount
  {
    hide WellFormed, Slots, TypeCount, MarkerCount, Before, SliceSize, TargetOf, Reading, BeforeBar, MinArgs,
         SliceRead, MarkerWrites;
    var ok, minArgs, maxArgs, post := Measure(spec);
    WellFormedIs(spec);
    if !ok {
      return WrongSpec;
    }
    if n < minArgs || (n > maxArgs && maxArgs >= 0) {
      return WrongCount;
    }
    assert CountRight(spec, n);
    if n > argCount {
      return NotPassed;
    }
    var i, w, left, t := 0, 0, n, 0;
    var targets, slice, count := [], Unset, 0;
    ReadingStart(spec, n);
    while left > 0
      invariant w <= |spec| && count <= i <= n && Reading(spec, n, w, i, count) && left == n - i
      invariant t == TypeCount(spec[..w]) && targets == Binding(spec, n)[..i]
      invariant count > 0 ==> count == SliceSize(spec, n)
      invariant slice == SliceRead(spec, n, w) && (slice.Unset? || n > Before(spec))
      invariant forall j :: 0 <= j < i ==> !Rejected(Binding(spec, n)[j], j, accepts)
      decreases left, |spec| - w
    {
      MoreToRead(spec, n, w, i, count);
      left := left - 1;
      if spec[w] == Bar {
        PastBar(spec, n, w, i, count);
        w := w + 1;
      }
      var taken := false;
      if IsMarker(spec[w]) {
        MarkerHere(spec, n, w, i, count);
        AtSlice(spec, n, w, i);
        var numVarargs := left + 1 - post;
        w := w + 1;
        if numVarargs > 0 {
          SliceTargets(spec, n, i);
          slice, count := Slice(i, numVarargs), numVarargs;
          left := left + 1 - numVarargs;
          targets := targets + seq(numVarargs, _ => InSlice);
          i := i + numVarargs;
          taken := true;
        } else {
          slice := Nothing;
          TypeBehind(spec, n, w - 1, i);
        }
      }
      if !taken {
        TypeHere(spec, w);
        AtType(spec, n, w, i, count);
        SliceAtType(spec, n, w, i, count);
        if !accepts(t, i) {
          return WrongType(i, if slice.Slice? then Cleared(slice.count) else slice);
        }
        targets := targets + [ToType(t)];
        t := t + 1;
        w := w + 1;
        i := i + 1;
      }
    }
    AllRead(spec, n, w, count);
    SliceAtEnd(spec, n, w, count);
    r := Bound(targets, slice);
  }

  lemma PastBar(s: Spec, n: nat, w: nat, i: nat, count: nat)
    requires w < |s| && s[w] == Bar && Reading(s, n, w, i, count)
    ensures Reading(s, n, w + 1, i, count) && TypeCount(s[..w + 1]) == TypeCount(s[..w])
    ensures SliceRead(s, n, w + 1) == SliceRead(s, n, w)
  {
    Next(s, w);
  }

  /** An argument stands behind the marker exactly if the marker has been read. */
  lemma SliceAtType(s: Spec, n: nat, w: nat, i: nat, count: nat)
    requires WellFormed(s) && w < |s| && s[w].Type? && i < n && Reading(s, n, w, i, count)
    ensures SliceRead(s, n, w + 1) == SliceRead(s, n, w)
    ensures SliceRead(s, n, w) == if MarkerCount(s) == 1 && i >= Before(s) then MarkerWrites(s, n) else Unset
    ensures MarkerWrites(s, n) == if SliceSize(s, n) > 0 then Slice(Before(s), SliceSize(s, n)) else Nothing
  {
    hide SliceSize;
    Next(s, w);
    MoreMarkers(s, w + 1);
    if MarkerCount(s[..w]) == 0 {
      NoMarkerSlots(s[..w + 1]);
    } else {
      BeforeAfterMarker(s, w);
      TypesBefore(s[..w]);
    }
  }

  /** When the arguments run out, the marker has not been read unless an argument stands behind it. */
  lemma SliceAtEnd(s: Spec, n: nat, w: nat, count: nat)
    requires WellFormed(s) && w <= |s| && Reading(s, n, w, n, count)
    requires SliceRead(s, n, w).Unset? || n > Before(s)
    ensures SliceRead(s, n, w) == if MarkerCount(s) == 1 && n > Before(s) then MarkerWrites(s, n) else Unset
  {
    hide SliceSize;
    MoreMarkers(s, w);
    NoMarkerSlots(s[..w]);
  }

  /** When the macros stop at a type, the marker has been read if the arguments reach it. */
  lemma SliceAtStop(s: Spec, n: nat, w: nat, count: nat)
    requires WellFormed(s) && w < |s| && s[w].Type? && Reading(s, n, w, n, count)
    ensures SliceRead(s, n, w) == if MarkerCount(s) == 1 && n >= Before(s) then MarkerWrites(s, n) else Unset
  {
    hide SliceSize;
    Next(s, w);
    MoreMarkers(s, w + 1);
    if MarkerCount(s[..w]) == 0 {
      NoMarkerSlots(s[..w + 1]);
    } else {
      BeforeAfterMarker(s, w);
      TypesBefore(s[..w]);
    }
  }

  lemma SliceAtLast(s: Spec, n: nat, count: nat)
    requires WellFormed(s) && Reading(s, n, |s|, n, count)
    ensures SliceRead(s, n, |s|) == if MarkerCount(s) == 1 && n >= Before(s) then MarkerWrites(s, n) else Unset
  {
    assert s[..|s|] == s;
    TypesBefore(s);
  }

  lemma TypeHere(s: Spec, w: nat)
    requires WellFormed(s) && w < |s| && s[w] != Bar && !IsMarker(s[w])
    ensures s[w].Type?
  {
  }

  /** No slice has been taken before the marker. */
  lemma MarkerHere(s: Spec, n: nat, w: nat, i: nat, count: nat)
    requires WellFormed(s) && w < |s| && IsMarker(s[w]) && Reading(s, n, w, i, count)
    ensures count == 0 && MarkerCount(s) == 1
  {
    Next(s, w);
    MoreMarkers(s, w + 1);
  }

  /** A marker without a slice is followed by a type. */
  lemma TypeBehind(s: Spec, n: nat, w: nat, i: nat)
    requires WellFormed(s) && w < |s| && IsMarker(s[w]) && i < n && Reading(s, n, w + 1, i, 0)
    ensures w + 1 < |s| && s[w + 1] != Bar && !IsMarker(s[w + 1])
  {
    Next(s, w);
    MoreMarkers(s, w + 1);
    MoreToRead(s, n, w + 1, i, 0);
    Next(s, w + 1);
    MoreMarkers(s, w + 2);
  }

  lemma SliceTargets(s: Spec, n: nat, i: nat)
    requires i == Before(s) && n > TypeCount(s) && MarkerCount(s) == 1 && Before(s) <= TypeCount(s)
    ensures i + SliceSize(s, n) <= n && SliceSize(s, n) == n - TypeCount(s)
    ensures Binding(s, n)[..i] + seq(SliceSize(s, n), _ => InSlice) == Binding(s, n)[..i + SliceSize(s, n)]
    ensures forall j :: i <= j < i + SliceSize(s, n) ==> Binding(s, n)[j] == InSlice
  {
  }

  /** When all arguments are bound, an untouched slice is an empty one. */
  lemma AllRead(s: Spec, n: nat, w: nat, count: nat)
    requires WellFormed(s) && w <= |s| && Reading(s, n, w, n, count)
    ensures count == SliceSize(s, n) && Binding(s, n)[..n] == Binding(s, n)
  {
    MoreMarkers(s, w);
  }

  lemma WellFormedIs(s: Spec)
    requires BarsRight(s)
    ensures WellFormed(s) <==> MarkerCount(s) <= 1 && forall i :: 0 <= i < |s| ==> s[i] != Bad
  {
  }

  lemma ReadingStart(s: Spec, n: nat)
    ensures Reading(s, n, 0, 0, 0) && TypeCount(s[..0]) == 0 && SliceRead(s, n, 0) == Unset
  {
  }

  // ------------------------------------------------------------------ the fast macros

  /** Slots before the first `|` are required. */
  lemma {:induction false} RequiredSlots(s: Spec, w: nat)
    requires w <= |s| && forall k :: 0 <= k < w ==> s[k] != Bar
    ensures Slots(s[..w]) <= MinArgs(s)
  {
    NoBarBefore(s, w);
    MoreMarkers(s, w);
  }

  lemma {:induction false} NoBarBefore(s: Spec, w: nat)
    requires w <= |s| && forall k :: 0 <= k < w ==> s[k] != Bar
    ensures BeforeBar(s) < 0 || Slots(s[..w]) <= BeforeBar(s)
    decreases |s|
  {
    if w < |s| {
      var t := s[..|s| - 1];
      assert t[..w] == s[..w];
      if s[|s| - 1] == Bar {
        MoreMarkers(t, w);
      } else {
        NoBarBefore(t, w);
      }
    } else {
      NoBars(s);
    }
  }

  lemma {:induction false} NoBars(s: Spec)
    requires forall k :: 0 <= k < |s| ==> s[k] != Bar
    ensures BeforeBar(s) < 0
  {
    if s != [] {
      NoBars(s[..|s| - 1]);
    }
  }

  /** A required type finds an argument. */
  lemma ArgThere(s: Spec, n: nat, w: nat, i: nat, count: nat)
    requires WellFormed(s) && CountRight(s, n) && w < |s| && s[w].Type? && Reading(s, n, w, i, count)
    requires forall k :: 0 <= k <= w ==> s[k] != Bar
    ensures i < n
  {
    Next(s, w);
    MoreMarkers(s, w + 1);
    RequiredSlots(s, w + 1);
    TypesBefore(s[..w + 1]);
  }

  /** At the end of the specification all arguments are bound. */
  lemma AllBound(s: Spec, n: nat, i: nat, count: nat)
    requires WellFormed(s) && CountRight(s, n) && Reading(s, n, |s|, i, count)
    ensures i == n
  {
    assert s[..|s|] == s;
    NoMarkerSlots(s);
  }

  /** The same specification written with the macros: ZEND_PARSE_PARAMETERS_START_EX with the counts of
      the specification, Z_PARAM_PROLOGUE for every type, Z_PARAM_OPTIONAL for the bar and
      Z_PARAM_VARIADIC_EX for the marker. */
  method ParseFast(spec: Spec, n: nat, accepts: (nat, nat) -> bool) returns (r: Outcome)
    requires WellFormed(spec)
    ensures BoundRight(spec, n, accepts, r) && r != NotPassed && MacroSlice(spec, n, r)
  {
    hide WellFormed, Slots, TypeCount, MarkerCount, Before, SliceSize, TargetOf, Reading, BeforeBar, MinArgs,
         SliceRead, MarkerWrites;
    WellFormedBars(spec);
    var _, minArgs, maxArgs, post := Measure(spec);
    if n < minArgs || (n > maxArgs && maxArgs >= 0) {
      return WrongCount;
    }
    assert CountRight(spec, n);
    var i, realArg, t, optional := 0, 0, 0, false;
    var targets, slice, count := [], Unset, 0;
    ReadingStart(spec, n);
    for w := 0 to |spec|
      invariant count <= i <= n && Reading(spec, n, w, i, count) && realArg == i
      invariant t == TypeCount(spec[..w]) && targets == Binding(spec, n)[..i]
      invariant count > 0 ==> count == SliceSize(spec, n)
      invariant slice == SliceRead(spec, n, w)
      invariant forall j :: 0 <= j < i ==> !Rejected(Binding(spec, n)[j], j, accepts)
      invariant !optional ==> forall k :: 0 <= k < w ==> spec[k] != Bar
    {
      if spec[w].Type? {
        if !optional {
          ArgThere(spec, n, w, i, count);
        } else if i + 1 > n {
          AllRead(spec, n, w, count);
          SliceAtStop(spec, n, w, count);
          return Bound(targets, slice);
        }
        AtType(spec, n, w, i, count);
        SliceAtType(spec, n, w, i, count);
        i := i + 1;
        realArg := realArg + 1;
        if !accepts(t, realArg - 1) {
          return WrongType(realArg - 1, slice);
        }
        targets := targets + [ToType(t)];
        t := t + 1;
      } else if spec[w] == Bar {
        PastBar(spec, n, w, i, count);
        optional := true;
      } else {
        MarkerOnly(spec, w);
        MarkerHere(spec, n, w, i, count);
        AtSlice(spec, n, w, i);
        var numVarargs := n - i - post;
        if numVarargs > 0 {
          SliceTargets(spec, n, i);
          slice, count := Slice(realArg, numVarargs), numVarargs;
          targets := targets + seq(numVarargs, _ => InSlice);
          i := i + numVarargs;
          realArg := realArg + numVarargs;
        } else {
          slice := Nothing;
        }
      }
    }
    AllBound(spec, n, i, count);
    AllRead(spec, n, |spec|, count);
    SliceAtLast(spec, n, count);
    r := Bound(targets, slice);
  }

  lemma WellFormedBars(s: Spec)
    requires WellFormed(s)
    ensures BarsRight(s) && MarkerCount(s) <= 1 && forall i :: 0 <= i < |s| ==> s[i] != Bad
  {
  }

  lemma MarkerOnly(s: Spec, w: nat)
    requires WellFormed(s) && w < |s| && !s[w].Type? && s[w] != Bar
    ensures IsMarker(s[w])
  {
  }

  // --------------------------------------------------- counts and places, item by item

  predicate IsType(it: Item) {
    it.Type?
  }

  /** The items that take an argument of their own. */
  predicate AsksForOne(it: Item) {
    it.Type? || it == Plus
  }

  function Places(s: Spec, f: Item -> bool): (r: set<nat>)
    ensures forall k: nat :: k in r <==> k < |s| && f(s[k])
  {
    set k: nat | k < |s| && f(s[k])
  }

  lemma PlacesLast(s: Spec, f: Item -> bool)
    requires s != []
    ensures |Places(s, f)| == |Places(s[..|s| - 1], f)| + if f(s[|s| - 1]) then 1 else 0
  {
    var init := Places(s[..|s| - 1], f);
    assert Places(s, f) == init + if f(s[|s| - 1]) then {|s| - 1} else {};
  }

  /** The counts of the model are numbers of items. */
  lemma {:induction false} CountsAreNumbers(s: Spec)
    ensures Slots(s) == |Places(s, AsksForOne)| && TypeCount(s) == |Places(s, IsType)|
    ensures MarkerCount(s) == |Places(s, IsMarker)|
  {
    if s != [] {
      CountsAreNumbers(s[..|s| - 1]);
      PlacesLast(s, AsksForOne);
      PlacesLast(s, IsType);
      PlacesLast(s, IsMarker);
    }
  }

  /** The least number of arguments is the number of places before the last bar. */
  lemma {:induction false} MinAtBar(a: Spec, b: Spec)
    requires forall k :: 0 <= k < |b| ==> b[k] != Bar
    ensures MinArgs(a + [Bar] + b) == Slots(a)
    decreases |b|
  {
    var s := a + [Bar] + b;
    if b == [] {
      assert s[..|s| - 1] == a;
    } else {
      MinAtBar(a, b[..|b| - 1]);
      assert s[..|s| - 1] == a + [Bar] + b[..|b| - 1];
      BarSeen(a, b[..|b| - 1]);
    }
  }

  lemma {:induction false} BarSeen(a: Spec, b: Spec)
    ensures BeforeBar(a + [Bar] + b) >= 0
    decreases |b|
  {
    var s := a + [Bar] + b;
    if b == [] {
      assert s[..|s| - 1] == a;
    } else {
      assert s[..|s| - 1] == a + [Bar] + b[..|b| - 1];
      BarSeen(a, b[..|b| - 1]);
    }
  }

  /** What both ways of binding require of the number of arguments: at least one for every place before
      the last bar, and without a varargs marker at most one for every place. */
  lemma CountExactly(a: Spec, b: Spec, n: nat, accepts: (nat, nat) -> bool, r: Outcome)
    requires WellFormed(a + [Bar] + b) && forall k :: 0 <= k < |b| ==> b[k] != Bar
    requires BoundRight(a + [Bar] + b, n, accepts, r)
    ensures var s := a + [Bar] + b;
      r.WrongCount? <==>
        || n < |Places(a, AsksForOne)|
        || ((forall k :: 0 <= k < |s| ==> !IsMarker(s[k])) && n > |Places(s, AsksForOne)|)
  {
    hide WellFormed, Slots, TypeCount, MarkerCount, BeforeBar, MinArgs, Binding;
    var s := a + [Bar] + b;
    MinAtBar(a, b);
    CountsAreNumbers(a);
    CountsAreNumbers(s);
    NoMarker(s);
  }

  /** The same without a bar: every place requires an argument. */
  lemma CountWithoutBar(s: Spec, n: nat, accepts: (nat, nat) -> bool, r: Outcome)
    requires WellFormed(s) && forall k :: 0 <= k < |s| ==> s[k] != Bar
    requires BoundRight(s, n, accepts, r)
    ensures r.WrongCount? <==>
      || n < |Places(s, AsksForOne)|
      || ((forall k :: 0 <= k < |s| ==> !IsMarker(s[k])) && n > |Places(s, AsksForOne)|)
  {
    hide WellFormed, Slots, TypeCount, MarkerCount, BeforeBar, Binding;
    NoBars(s);
    CountsAreNumbers(s);
    NoMarker(s);
  }

  lemma NoMarker(s: Spec)
    ensures MarkerCount(s) == 0 <==> forall k :: 0 <= k < |s| ==> !IsMarker(s[k])
  {
    hide MarkerCount;
    CountsAreNumbers(s);
    var marked := Places(s, IsMarker);
    if k :| 0 <= k < |s| && IsMarker(s[k]) {
      assert k in marked;
    }
    if marked != {} {
      var k :| k in marked;
    }
  }

  /** One argument for "l|l" is enough. */
  lemma OptionalLeftOut(s: Spec, accepts: (nat, nat) -> bool, r: Outcome)
    requires s == [Type('l'), Bar, Type('l')] && accepts(0, 0) && r != NotPassed
    requires BoundRight(s, 1, accepts, r)
    ensures r.Bound? && r.targets == [ToType(0)]
  {
    hide MarkerCount, Slots, TypeCount, Before, BeforeBar, MinArgs;
    NoMarker(s);
    assert s == [Type('l')] + [Bar] + [Type('l')];
    assert WellFormed(s);
    CountExactly([Type('l')], [Type('l')], 1, accepts, r);
    assert Places([Type('l')], AsksForOne) == {0};
    assert {0, 2} == Places(s, AsksForOne);
    BindingWithoutMarker(s, 1, 0);
    assert Binding(s, 1) == [ToType(0)];
  }

  lemma BeforeMarker(a: Spec, m: Item, b: Spec)
    requires IsMarker(m) && WellFormed(a + [m] + b)
    ensures var s := a + [m] + b;
      MarkerCount(s) == 1 && Before(s) == |Places(a, IsType)| && TypeCount(s) == |Places(s, IsType)|
  {
    hide WellFormed, TypeCount, MarkerCount, Before, Places;
    var s := a + [m] + b;
    CountsAreNumbers(a);
    CountsAreNumbers(s);
    WellFormedBars(s);
    assert s[..|a|] == a && s[|a|] == m;
    NoMarker(s);
    AtMarker(s, |a|);
  }

  /** With a marker, the arguments are bound around it: those for the types before it in front, the slice,
      and those for the types behind it. */
  lemma BindingAtMarker(a: Spec, m: Item, b: Spec, n: nat, k: nat)
    requires IsMarker(m) && WellFormed(a + [m] + b) && k < n
    ensures var s, before, types := a + [m] + b, |Places(a, IsType)|, |Places(a + [m] + b, IsType)|;
      Binding(s, n)[k] ==
        if k < before then ToType(k)
        else if n > types && k < before + (n - types) then InSlice
        else if n > types then ToType(k - (n - types)) else ToType(k)
  {
    hide WellFormed, TypeCount, MarkerCount, Before, Places;
    BeforeMarker(a, m, b);
    TypesBefore(a + [m] + b);
  }

  /** Without one, argument `k` is for type `k`. */
  lemma BindingWithoutMarker(s: Spec, n: nat, k: nat)
    requires (forall i :: 0 <= i < |s| ==> !IsMarker(s[i])) && k < n
    ensures Binding(s, n)[k] == ToType(k)
  {
    NoMarker(s);
  }

  /** Both ways of binding reject the same calls at the same argument and bind the same arguments. The
      variables of the slice differ in two cases: all arguments stand before the marker, so that the
      string does not reach it, or an argument behind a slice is rejected, so that the string takes
      the slice back. */
  lemma OutcomesCompared(s: Spec, n: nat, accepts: (nat, nat) -> bool, a: Outcome, b: Outcome)
    requires WellFormed(s) && BoundRight(s, n, accepts, a) && BoundRight(s, n, accepts, b)
    requires a != NotPassed && b != NotPassed && StringSlice(s, n, a) && MacroSlice(s, n, b)
    ensures a.Bound? <==> b.Bound?
    ensures a.Bound? ==> a.targets == b.targets && (a == b <==> !(MarkerCount(s) == 1 && n == Before(s)))
    ensures a.Bound? && a != b ==> a.slice == Unset && b.slice == Nothing
    ensures a.WrongType? ==> b.WrongType? && a.arg == b.arg && (a == b <==> SliceSize(s, n) == 0 || a.arg < Before(s))
    ensures !a.Bound? && !a.WrongType? ==> a == b
  {
    hide WellFormed, CountRight, Binding, Before;
    TypesBefore(s);
  }

  /** One argument for "l*": the string leaves the variables of the slice as they were. */
  lemma UnreachedMarker(s: Spec, accepts: (nat, nat) -> bool, a: Outcome, b: Outcome)
    requires s == [Type('l'), Star] && accepts(0, 0) && a != NotPassed && b != NotPassed
    requires BoundRight(s, 1, accepts, a) && StringSlice(s, 1, a)
    requires BoundRight(s, 1, accepts, b) && MacroSlice(s, 1, b)
    ensures a == Bound([ToType(0)], Unset) && b == Bound([ToType(0)], Nothing)
  {
    assert s[..2] == s;
    Next(s, 0);
    Next(s, 1);
    assert Binding(s, 1) == [ToType(0)];
  }
}
