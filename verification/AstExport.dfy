/** Export of operator expressions with as few parentheses as the priorities allow, and the parser
    that the documented precedence table describes. */
module AstExport {

  datatype Option<T> = None | Some(value: T)

  datatype BinOp =
    | Assign | AssignRef | AssignAdd | AssignSub | AssignMul | AssignDiv | AssignMod | AssignShl | AssignShr
    | AssignConcat | AssignOr | AssignAnd | AssignXor | AssignPow
    | Add | Sub | Mul | Div | Mod | Shl | Shr | Concat | BitOr | BitAnd | BitXor
    | Identical | NotIdentical | Equal | NotEqual | Smaller | SmallerOrEqual | Pow | BoolXor | Spaceship
    | Greater | GreaterEqual | And | Or | Coalesce

  datatype PreOp =
    | UnaryPlus | UnaryMinus | BitNot | BoolNot | Silence | PreInc | PreDec
    | CastUnset | CastBool | CastInt | CastDouble | CastString | CastArray | CastObject
    | Print | YieldFrom | Clone

  datatype Expr =
    | Leaf(name: nat)
    | Bin(op: BinOp, left: Expr, right: Expr)
    | Pre(pre: PreOp, operand: Expr)
    | Cond(test: Expr, yes: Expr, no: Expr)
    | Elvis(test: Expr, no: Expr)

  /** `+` and `-` are one token each, whether they stand before an operand or between two. */
  datatype Token =
    | Name(name: nat) | Open | Close | Question | Colon | PlusSign | MinusSign
    | Infix(op: BinOp) | Prefix(pre: PreOp)

  // -------------------------------------------------------------------- the printer

  /** The (p, pl, pr) triple of a BINARY_OP. */
  function Triple(op: BinOp): (int, int, int) {
    match op
    case Assign => (90, 91, 90)
    case AssignRef => (90, 91, 90)
    case AssignAdd => (90, 91, 90)
    case AssignSub => (90, 91, 90)
    case AssignMul => (90, 91, 90)
    case AssignDiv => (90, 91, 90)
    case AssignMod => (90, 91, 90)
    case AssignShl => (90, 91, 90)
    case AssignShr => (90, 91, 90)
    case AssignConcat => (90, 91, 90)
    case AssignOr => (90, 91, 90)
    case AssignAnd => (90, 91, 90)
    case AssignXor => (90, 91, 90)
    case AssignPow => (90, 91, 90)
    case Add => (200, 200, 201)
    case Sub => (200, 200, 201)
    case Mul => (210, 210, 211)
    case Div => (210, 210, 211)
    case Mod => (210, 210, 211)
    case Shl => (190, 190, 191)
    case Shr => (190, 190, 191)
    case Concat => (200, 200, 201)
    case BitOr => (140, 140, 141)
    case BitAnd => (160, 160, 161)
    case BitXor => (150, 150, 151)
    case Identical => (170, 171, 171)
    case NotIdentical => (170, 171, 171)
    case Equal => (170, 171, 171)
    case NotEqual => (170, 171, 171)
    case Smaller => (180, 181, 181)
    case SmallerOrEqual => (180, 181, 181)
    case Pow => (250, 251, 250)
    case BoolXor => (40, 40, 41)
    case Spaceship => (180, 181, 181)
    case Greater => (180, 181, 181)
    case GreaterEqual => (180, 181, 181)
    case And => (130, 130, 131)
    case Or => (120, 120, 121)
    case Coalesce => (110, 111, 110)
  }

  /** The (p, pl) pair of a PREFIX_OP. */
  function Pair(u: PreOp): (int, int) {
    match u
    case Print => (60, 61)
    case YieldFrom => (85, 86)
    case Clone => (270, 271)
    case _ => (240, 241)
  }

  /** The priority that the printer gives to the outermost operator. */
  function Priority(e: Expr): int {
    match e
    case Leaf(_) => 1000
    case Bin(op, _, _) => Triple(op).0
    case Pre(u, _) => Pair(u).0
    case Cond(_, _, _) => 100
    case Elvis(_, _) => 100
  }

  function InfixToken(op: BinOp): Token {
    match op
    case Add => PlusSign
    case Sub => MinusSign
    case _ => Infix(op)
  }

  function PrefixToken(u: PreOp): Token {
    match u
    case UnaryPlus => PlusSign
    case UnaryMinus => MinusSign
    case _ => Prefix(u)
  }

  /** zend_ast_export_ex on operator expressions. */
  function Export(e: Expr, priority: int): seq<Token>
    decreases e, 1
  {
    if priority > Priority(e) then [Open] + Body(e) + [Close] else Body(e)
  }

  function Body(e: Expr): seq<Token>
    decreases e, 0
  {
    match e
    case Leaf(n) => [Name(n)]
    case Bin(op, a, b) => Export(a, Triple(op).1) + ([InfixToken(op)] + Export(b, Triple(op).2))
    case Pre(u, x) => [PrefixToken(u)] + Export(x, Pair(u).1)
    case Cond(c, t, f) => Export(c, 100) + ([Question] + (Export(t, 101) + ([Colon] + Export(f, 101))))
    case Elvis(c, f) => Export(c, 100) + ([Question, Colon] + Export(f, 101))
  }

  // ------------------------------------------------------------- the documented table

  datatype Assoc = LeftAssoc | RightAssoc | NonAssoc

  /** Rows of the table of priorities. */
  function Level(op: BinOp): int {
    match op
    case BoolXor => 40
    case Coalesce => 110
    case Or => 120
    case And => 130
    case BitOr => 140
    case BitXor => 150
    case BitAnd => 160
    case Identical | NotIdentical | Equal | NotEqual => 170
    case Smaller | SmallerOrEqual | Greater | GreaterEqual | Spaceship => 180
    case Shl | Shr => 190
    case Add | Sub | Concat => 200
    case Mul | Div | Mod => 210
    case Pow => 250
    case _ => 90
  }

  function LevelAssoc(level: int): Assoc {
    if level in {90, 110, 250} then RightAssoc else if level in {170, 180} then NonAssoc else LeftAssoc
  }

  /** `!` binds less tightly than the other prefix operators. */
  function PrefixLevel(u: PreOp): int {
    match u
    case Print => 60
    case YieldFrom => 85
    case BoolNot => 220
    case Clone => 270
    case _ => 240
  }

  const TERNARY: int := 100

  // ----------------------------------------------------------------------- the parser

  function AsInfix(t: Token): Option<BinOp> {
    match t
    case PlusSign => Some(Add)
    case MinusSign => Some(Sub)
    case Infix(op) => Some(op)
    case _ => None
  }

  function AsPrefix(t: Token): Option<PreOp> {
    match t
    case PlusSign => Some(UnaryPlus)
    case MinusSign => Some(UnaryMinus)
    case Prefix(u) => Some(u)
    case _ => None
  }

  /** A parsed expression and the tokens behind it. */
  datatype Parsed = Fail | Ok(e: Expr, rest: seq<Token>)

  /** The least level of an operator inside the right operand. */
  function RightMin(level: int): int {
    if LevelAssoc(level) == RightAssoc then level else level + 1
  }

  /** Parse an expression whose operators, outside parentheses, have at least level `min`. */
  function Parse(ts: seq<Token>, min: int): (r: Parsed)
    ensures r.Ok? ==> |r.rest| < |ts|
    decreases |ts|, 1
  {
    if ts == [] then Fail
    else if ts[0].Name? then Climb(Leaf(ts[0].name), ts[1..], min, -1)
    else if ts[0] == Open then
      var inner := Parse(ts[1..], 0);
      if inner.Ok? && inner.rest != [] && inner.rest[0] == Close then Climb(inner.e, inner.rest[1..], min, -1) else Fail
    else if AsPrefix(ts[0]).Some? then
      var u := AsPrefix(ts[0]).value;
      var inner := Parse(ts[1..], PrefixLevel(u));
      if inner.Ok? then Climb(Pre(u, inner.e), inner.rest, min, -1) else Fail
    else Fail
  }

  /** Extend `left` by the operators of at least level `min` that follow. An operator of level
      `banned` may not follow: `left` is an application of a non-associative operator of that level. */
  function Climb(left: Expr, ts: seq<Token>, min: int, banned: int): (r: Parsed)
    ensures r.Ok? ==> |r.rest| <= |ts|
    decreases |ts|, 0
  {
    if ts == [] then Ok(left, ts)
    else if AsInfix(ts[0]).Some? then
      var op := AsInfix(ts[0]).value;
      var level := Level(op);
      if level == banned then Fail
      else if level < min then Ok(left, ts)
      else
        var right := Parse(ts[1..], RightMin(level));
        if right.Ok? then
          Climb(Bin(op, left, right.e), right.rest, min, if LevelAssoc(level) == NonAssoc then level else -1)
        else Fail
    else if ts[0] == Question && TERNARY >= min then
      ParseTernary(left, ts[1..], min)
    else Ok(left, ts)
  }

  /** The rest of a conditional expression, behind its `?`. */
  function ParseTernary(test: Expr, ts: seq<Token>, min: int): (r: Parsed)
    ensures r.Ok? ==> |r.rest| <= |ts|
    decreases |ts|, 2
  {
    if ts != [] && ts[0] == Colon then
      var no := Parse(ts[1..], TERNARY + 1);
      if no.Ok? then Climb(Elvis(test, no.e), no.rest, min, -1) else Fail
    else
      var yes := Parse(ts, 0);
      if yes.Ok? && yes.rest != [] && yes.rest[0] == Colon then
        var no := Parse(yes.rest[1..], TERNARY + 1);
        if no.Ok? then Climb(Cond(test, yes.e, no.e), no.rest, min, -1) else Fail
      else Fail
  }

  // ---------------------------------------------------------------- edges of an export

  /** The level of the operator that the tokens start with, or -1. */
  function HeadLevel(ts: seq<Token>): int {
    if ts == [] then -1
    else if AsInfix(ts[0]).Some? then Level(AsInfix(ts[0]).value)
    else if ts[0] == Question then TERNARY
    else -1
  }

  predicate IsLevel(h: int) {
    h in {-1, 40, 90, 100, 110, 120, 130, 140, 150, 160, 170, 180, 190, 200, 210, 250}
  }

  /** The highest level that may follow the expression, printed without parentheses, and not be
      taken for a part of it. */
  function Edge(e: Expr): int {
    match e
    case Leaf(_) => 1000
    case Bin(op, _, _) => if LevelAssoc(Level(op)) == RightAssoc then Level(op) - 1 else Level(op)
    case Pre(u, _) => PrefixLevel(u) - 1
    case Cond(_, _, _) => TERNARY
    case Elvis(_, _) => TERNARY
  }

  function EdgeAt(e: Expr, priority: int): int {
    if priority > Priority(e) then 1000 else Edge(e)
  }

  function Ban(e: Expr): int {
    if e.Bin? && LevelAssoc(Level(e.op)) == NonAssoc then Level(e.op) else -1
  }

  function BanAt(e: Expr, priority: int): int {
    if priority > Priority(e) then -1 else Ban(e)
  }

  /** The triples of the printer say what the table says. */
  lemma TriplesMatchTable(op: BinOp)
    ensures Triple(op).0 == Level(op) && IsLevel(Level(op)) && Level(op) >= 40
    ensures Triple(op).1 == if LevelAssoc(Level(op)) == LeftAssoc then Level(op) else Level(op) + 1
    ensures Triple(op).2 == RightMin(Level(op))
    ensures AsInfix(InfixToken(op)) == Some(op) && InfixToken(op) != Question
  {
  }

  /** The pairs of the printer agree with the table, except that `!` is printed as if it were as
      tight as the others: no binary operator of the fragment lies in between. */
  lemma PairsMatchTable(u: PreOp)
    ensures 60 <= PrefixLevel(u) <= Pair(u).0 < Pair(u).1
    ensures forall h :: IsLevel(h) && h <= Pair(u).0 ==> h < PrefixLevel(u)
    ensures AsPrefix(PrefixToken(u)) == Some(u) && !PrefixToken(u).Name? && PrefixToken(u) != Open
  {
  }

  lemma HeadIsLevel(ts: seq<Token>)
    ensures IsLevel(HeadLevel(ts))
  {
    if ts != [] && AsInfix(ts[0]).Some? {
      TriplesMatchTable(AsInfix(ts[0]).value);
    }
  }

  /** An operand printed at priority `q` may be followed by any operator below `q`. */
  lemma EdgeBound(e: Expr, q: int, h: int)
    requires IsLevel(h) && h < q
    ensures h <= EdgeAt(e, q) && (h == -1 || h != BanAt(e, q))
  {
    hide Level, LevelAssoc, PrefixLevel;
    match e {
      case Bin(op, _, _) => TriplesMatchTable(op);
      case Pre(u, _) => PairsMatchTable(u);
      case _ =>
    }
  }

  /** A left operand may be followed by its operator. */
  lemma LeftOperandEdge(op: BinOp, a: Expr)
    ensures Level(op) <= EdgeAt(a, Triple(op).1) && Level(op) != BanAt(a, Triple(op).1)
  {
    hide IsLevel, Level, PrefixLevel;
    TriplesMatchTable(op);
    match a {
      case Bin(o, _, _) => TriplesMatchTable(o);
      case Pre(u, _) => PairsMatchTable(u);
      case _ =>
    }
  }

  lemma TestEdge(c: Expr)
    ensures TERNARY <= EdgeAt(c, TERNARY) && TERNARY != BanAt(c, TERNARY)
  {
    hide Level, PrefixLevel;
    match c {
      case Bin(o, _, _) => TriplesMatchTable(o);
      case Pre(u, _) =>
        PairsMatchTable(u);
        assert IsLevel(TERNARY);
      case _ =>
    }
  }

  /** Nothing more is taken when the next operator is below `min`. */
  lemma Stops(e: Expr, ts: seq<Token>, min: int, banned: int)
    requires HeadLevel(ts) < min && (HeadLevel(ts) == -1 || HeadLevel(ts) != banned)
    ensures Climb(e, ts, min, banned) == Ok(e, ts)
  {
    hide Level;
    if ts != [] && AsInfix(ts[0]).Some? {
      TriplesMatchTable(AsInfix(ts[0]).value);
    }
  }

  // --------------------------------------------------------------------- the round trip

  /** Parsing an exported expression gives it back and goes on behind it. */
  lemma {:induction false} ExportParse(e: Expr, q: int, min: int, rest: seq<Token>)
    requires 0 <= min <= q && HeadLevel(rest) <= EdgeAt(e, q)
    ensures Parse(Export(e, q) + rest, min) == Climb(e, rest, min, BanAt(e, q))
    decreases e, 1
  {
    hide Parse, Climb, Body, EdgeAt, BanAt;
    if q > Priority(e) {
      assert Export(e, q) + rest == [Open] + (Body(e) + ([Close] + rest));
      EdgeLow(e);
      BodyParse(e, 0, [Close] + rest);
      Stops(e, [Close] + rest, 0, Ban(e));
      ParseOpen(Body(e) + ([Close] + rest), e, rest, min);
      BanParens(e, q);
    } else {
      BanPlain(e, q);
      BodyParse(e, min, rest);
    }
  }

  lemma EdgeLow(e: Expr)
    ensures -1 <= Edge(e) && Priority(e) >= 0
  {
    if e.Bin? {
      TriplesMatchTable(e.op);
    } else if e.Pre? {
      PairsMatchTable(e.pre);
    }
  }

  lemma BanParens(e: Expr, q: int)
    requires q > Priority(e)
    ensures BanAt(e, q) == -1
  {
  }

  lemma BanPlain(e: Expr, q: int)
    requires q <= Priority(e)
    ensures BanAt(e, q) == Ban(e) && EdgeAt(e, q) == Edge(e)
  {
  }

  lemma ParseOpen(ts: seq<Token>, e: Expr, rest: seq<Token>, min: int)
    requires Parse(ts, 0) == Ok(e, [Close] + rest)
    ensures Parse([Open] + ts, min) == Climb(e, rest, min, -1)
  {
    assert ([Open] + ts)[1..] == ts;
    assert ([Close] + rest)[1..] == rest;
  }

  lemma {:induction false} BodyParse(e: Expr, min: int, rest: seq<Token>)
    requires 0 <= min <= Priority(e) && HeadLevel(rest) <= Edge(e)
    ensures Parse(Body(e) + rest, min) == Climb(e, rest, min, Ban(e))
    decreases e, 0
  {
    match e {
      case Leaf(n) =>
        assert (Body(e) + rest)[1..] == rest;
      case Bin(op, a, b) => BinParse(op, a, b, min, rest);
      case Pre(u, x) => PreParse(u, x, min, rest);
      case Cond(c, t, f) => CondParse(c, t, f, min, rest);
      case Elvis(c, f) => ElvisParse(c, f, min, rest);
    }
  }

  lemma {:induction false} BinParse(op: BinOp, a: Expr, b: Expr, min: int, rest: seq<Token>)
    requires 0 <= min <= Triple(op).0 && HeadLevel(rest) <= Edge(Bin(op, a, b))
    ensures Parse(Body(Bin(op, a, b)) + rest, min) == Climb(Bin(op, a, b), rest, min, Ban(Bin(op, a, b)))
    decreases Bin(op, a, b), -1
  {
    hide Parse, Climb, EdgeAt, BanAt, Export, IsLevel, Level, LevelAssoc, Triple;
    var (p, pl, pr) := Triple(op);
    var tail := [InfixToken(op)] + (Export(b, pr) + rest);
    assert Body(Bin(op, a, b)) + rest == Export(a, pl) + tail;
    TriplesMatchTable(op);
    LeftOperandEdge(op, a);
    HeadOfInfix(op, Export(b, pr) + rest);
    ExportParse(a, pl, min, tail);
    HeadIsLevel(rest);
    EdgeBound(b, pr, HeadLevel(rest));
    ExportParse(b, pr, pr, rest);
    Stops(b, rest, pr, BanAt(b, pr));
    ClimbInfix(op, a, b, Export(b, pr) + rest, rest, min, BanAt(a, pl));
  }

  lemma HeadOfInfix(op: BinOp, ts: seq<Token>)
    ensures HeadLevel([InfixToken(op)] + ts) == Level(op)
  {
    TriplesMatchTable(op);
  }

  lemma ClimbInfix(op: BinOp, a: Expr, b: Expr, ts: seq<Token>, rest: seq<Token>, min: int, banned: int)
    requires Level(op) >= min && Level(op) != banned && Parse(ts, RightMin(Level(op))) == Ok(b, rest)
    ensures Climb(a, [InfixToken(op)] + ts, min, banned) == Climb(Bin(op, a, b), rest, min, Ban(Bin(op, a, b)))
  {
    hide Level, LevelAssoc;
    TriplesMatchTable(op);
    assert ([InfixToken(op)] + ts)[1..] == ts;
  }

  lemma {:induction false} PreParse(u: PreOp, x: Expr, min: int, rest: seq<Token>)
    requires 0 <= min <= Pair(u).0 && HeadLevel(rest) <= Edge(Pre(u, x))
    ensures Parse(Body(Pre(u, x)) + rest, min) == Climb(Pre(u, x), rest, min, -1)
    decreases Pre(u, x), -1
  {
    hide Parse, Climb, EdgeAt, BanAt, Export, IsLevel, PrefixLevel, Pair;
    var (p, pl) := Pair(u);
    assert Body(Pre(u, x)) + rest == [PrefixToken(u)] + (Export(x, pl) + rest);
    PairsMatchTable(u);
    HeadIsLevel(rest);
    EdgeBound(x, pl, HeadLevel(rest));
    ExportParse(x, pl, PrefixLevel(u), rest);
    Stops(x, rest, PrefixLevel(u), BanAt(x, pl));
    ParsePrefix(u, x, Export(x, pl) + rest, rest, min);
  }

  lemma ParsePrefix(u: PreOp, x: Expr, ts: seq<Token>, rest: seq<Token>, min: int)
    requires Parse(ts, PrefixLevel(u)) == Ok(x, rest)
    ensures Parse([PrefixToken(u)] + ts, min) == Climb(Pre(u, x), rest, min, -1)
  {
    hide PrefixLevel;
    PairsMatchTable(u);
    assert ([PrefixToken(u)] + ts)[1..] == ts;
  }

  lemma {:induction false} CondParse(c: Expr, t: Expr, f: Expr, min: int, rest: seq<Token>)
    requires 0 <= min <= TERNARY && HeadLevel(rest) <= TERNARY
    ensures Parse(Body(Cond(c, t, f)) + rest, min) == Climb(Cond(c, t, f), rest, min, -1)
    decreases Cond(c, t, f), -1
  {
    hide Parse, Climb, EdgeAt, BanAt, Export, IsLevel;
    var last := [Colon] + (Export(f, 101) + rest);
    var tail := Export(t, 101) + last;
    assert Body(Cond(c, t, f)) + rest == Export(c, 100) + ([Question] + tail);
    TestEdge(c);
    ExportParse(c, 100, min, [Question] + tail);
    NoLevel();
    EdgeBound(t, 101, -1);
    ExportParse(t, 101, 0, last);
    Stops(t, last, 0, BanAt(t, 101));
    HeadIsLevel(rest);
    EdgeBound(f, 101, HeadLevel(rest));
    ExportParse(f, 101, 101, rest);
    Stops(f, rest, 101, BanAt(f, 101));
    FirstOfExport(t, 101, last);
    ClimbCond(c, t, f, tail, Export(f, 101) + rest, rest, min, BanAt(c, 100));
  }

  lemma NoLevel()
    ensures IsLevel(-1)
  {
  }

  lemma ClimbCond(c: Expr, t: Expr, f: Expr, ts: seq<Token>, ts': seq<Token>, rest: seq<Token>, min: int, banned: int)
    requires TERNARY >= min && Parse(ts, 0) == Ok(t, [Colon] + ts') && Parse(ts', TERNARY + 1) == Ok(f, rest)
    requires ts != [] && ts[0] != Colon
    ensures Climb(c, [Question] + ts, min, banned) == Climb(Cond(c, t, f), rest, min, -1)
  {
    assert ([Question] + ts)[1..] == ts;
    assert ([Colon] + ts')[1..] == ts';
  }

  /** An exported expression does not start with a colon. */
  lemma {:induction false} FirstOfExport(e: Expr, q: int, rest: seq<Token>)
    ensures Export(e, q) != [] && Export(e, q)[0] != Colon && (Export(e, q) + rest)[0] == Export(e, q)[0]
  {
    if q <= Priority(e) {
      match e {
        case Bin(op, a, b) => FirstOfExport(a, Triple(op).1, []);
        case Cond(c, _, _) => FirstOfExport(c, 100, []);
        case Elvis(c, _) => FirstOfExport(c, 100, []);
        case _ =>
      }
    }
  }

  lemma {:induction false} ElvisParse(c: Expr, f: Expr, min: int, rest: seq<Token>)
    requires 0 <= min <= TERNARY && HeadLevel(rest) <= TERNARY
    ensures Parse(Body(Elvis(c, f)) + rest, min) == Climb(Elvis(c, f), rest, min, -1)
    decreases Elvis(c, f), -1
  {
    hide Parse, Climb, EdgeAt, BanAt, Export, IsLevel;
    var tail := Export(f, 101) + rest;
    assert Body(Elvis(c, f)) + rest == Export(c, 100) + ([Question] + ([Colon] + tail));
    TestEdge(c);
    ExportParse(c, 100, min, [Question] + ([Colon] + tail));
    HeadIsLevel(rest);
    EdgeBound(f, 101, HeadLevel(rest));
    ExportParse(f, 101, 101, rest);
    Stops(f, rest, 101, BanAt(f, 101));
    ClimbElvis(c, f, tail, rest, min, BanAt(c, 100));
  }

  lemma ClimbElvis(c: Expr, f: Expr, ts: seq<Token>, rest: seq<Token>, min: int, banned: int)
    requires TERNARY >= min && Parse(ts, TERNARY + 1) == Ok(f, rest)
    ensures Climb(c, [Question] + ([Colon] + ts), min, banned) == Climb(Elvis(c, f), rest, min, -1)
  {
    assert ([Question] + ([Colon] + ts))[1..] == [Colon] + ts;
    assert ([Colon] + ts)[1..] == ts;
  }

  /** The exported text means the expression it was made from. */
  lemma RoundTrip(e: Expr)
    ensures Parse(Export(e, 0), 0) == Ok(e, [])
  {
    EdgeLow(e);
    ExportParse(e, 0, 0, []);
    assert Export(e, 0) + [] == Export(e, 0);
  }

  // ------------------------------------------------------------ where parentheses stand

  /** The row of the outermost operator; an expression without one binds tightest. `!` counts as one of
      the other prefix operators. */
  function OuterLevel(e: Expr): int {
    match e
    case Leaf(_) => 1000
    case Bin(op, _, _) => Level(op)
    case Pre(u, _) => if u == BoolNot then 240 else PrefixLevel(u)
    case Cond(_, _, _) => TERNARY
    case Elvis(_, _) => TERNARY
  }

  /** An operand of an operator of row `level`, on the side on which operators of its row associate or
      not. */
  predicate NeedsParens(operand: Expr, level: int, associates: bool) {
    OuterLevel(operand) < level || (OuterLevel(operand) == level && !associates)
  }

  function InParens(needed: bool, ts: seq<Token>): seq<Token> {
    if needed then [Open] + ts + [Close] else ts
  }

  /** What the table asks for: parentheses around an operand exactly if its outermost operator binds less
      tightly than the operator that it belongs to, or as tightly without associating on its side.
      The conditional associates on the side of its test. Prefix operators are printed as if they did
      not associate, although their rows say so. */
  function Printed(e: Expr): seq<Token> {
    match e
    case Leaf(n) => [Name(n)]
    case Bin(op, a, b) =>
      var level := Level(op);
      InParens(NeedsParens(a, level, LevelAssoc(level) == LeftAssoc), Printed(a))
      + ([InfixToken(op)]
         + InParens(NeedsParens(b, level, LevelAssoc(level) == RightAssoc), Printed(b)))
    case Pre(u, x) => [PrefixToken(u)] + InParens(NeedsParens(x, OuterLevel(e), false), Printed(x))
    case Cond(c, t, f) =>
      InParens(NeedsParens(c, TERNARY, true), Printed(c))
      + ([Question] + (InParens(NeedsParens(t, TERNARY, false), Printed(t))
                       + ([Colon] + InParens(NeedsParens(f, TERNARY, false), Printed(f)))))
    case Elvis(c, f) =>
      InParens(NeedsParens(c, TERNARY, true), Printed(c))
      + ([Question, Colon] + InParens(NeedsParens(f, TERNARY, false), Printed(f)))
  }

  lemma OuterPriority(e: Expr)
    ensures OuterLevel(e) == Priority(e)
  {
    if e.Bin? {
      TriplesMatchTable(e.op);
    }
  }

  /** The printer puts parentheses exactly where the table asks for them. */
  lemma {:induction false} ParensByTable(e: Expr)
    ensures Export(e, 0) == Body(e) == Printed(e)
  {
    hide Level, LevelAssoc, PrefixLevel, Triple, Pair, OuterLevel;
    EdgeLow(e);
    OuterPriority(e);
    match e {
      case Leaf(_) =>
      case Bin(op, a, b) =>
        TriplesMatchTable(op);
        OuterPriority(a);
        OuterPriority(b);
        ParensByTable(a);
        ParensByTable(b);
      case Pre(u, x) =>
        PairsMatchTable(u);
        PairSteps(u);
        OuterPriority(x);
        ParensByTable(x);
      case Cond(c, t, f) =>
        OuterPriority(c);
        OuterPriority(t);
        OuterPriority(f);
        ParensByTable(c);
        ParensByTable(t);
        ParensByTable(f);
      case Elvis(c, f) =>
        OuterPriority(c);
        OuterPriority(f);
        ParensByTable(c);
        ParensByTable(f);
    }
  }

  lemma PairSteps(u: PreOp)
    ensures Pair(u).1 == Pair(u).0 + 1
  {
  }

  /** Not every pair is needed: two prefix operators in a row are read alike without it. */
  lemma SparePair(u: PreOp, v: PreOp, n: nat)
    requires NeedsParens(Pre(v, Leaf(n)), OuterLevel(Pre(u, Pre(v, Leaf(n)))), false)
    ensures Printed(Pre(u, Pre(v, Leaf(n)))) == [PrefixToken(u), Open, PrefixToken(v), Name(n), Close]
    ensures Parse([PrefixToken(u), PrefixToken(v), Name(n)], 0) == Ok(Pre(u, Pre(v, Leaf(n))), [])
  {
    hide PrefixLevel, OuterLevel;
    PairsMatchTable(u);
    PairsMatchTable(v);
    assert Printed(Pre(v, Leaf(n))) == [PrefixToken(v)] + [Name(n)] by {
      OuterPriority(Leaf(n));
      OuterPriority(Pre(v, Leaf(n)));
    }
    assert [PrefixToken(u)] + ([Open] + ([PrefixToken(v)] + [Name(n)]) + [Close])
        == [PrefixToken(u), Open, PrefixToken(v), Name(n), Close];
    var ts := [PrefixToken(u), PrefixToken(v), Name(n)];
    assert ts[1..] == [PrefixToken(v), Name(n)] && ts[1..][1..] == [Name(n)] && ts[1..][1..][1..] == [];
    assert Parse([Name(n)], PrefixLevel(v)) == Ok(Leaf(n), []);
    assert Parse(ts[1..], PrefixLevel(u)) == Ok(Pre(v, Leaf(n)), []);
  }

  /** Hence different expressions never print alike. */
  lemma ExportInjective(d: Expr, e: Expr)
    requires Export(d, 0) == Export(e, 0)
    ensures d == e
  {
    RoundTrip(d);
    RoundTrip(e);
  }
}
