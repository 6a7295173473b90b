/** The expression grammar and the visitors over it, read as one recursive-descent parser:
    each function returns the tree and the tokens it left, or an error. */
module ExprParser {
  import opened Utils
  import opened ExprSyntax

  datatype Parsed<+T> = Ok(value: T, rest: seq<Token>) | Err

  /** The binary operator the tokens begin with, and how many tokens it takes. */
  function BinaryHead(ts: seq<Token>): (r: Option<(BinaryOp, nat)>)
    ensures r.Some? ==> 1 <= r.value.1 <= |ts|
  {
    if ts == [] then None
    else match ts[0]
      case Oper(sym) => (
        match sym
        case OrSym => Some((Or, 1))
        case AndSym => Some((And, 1))
        case BitOrSym => Some((BitOr, 1))
        case BitXorSym => Some((BitXor, 1))
        case BitAndSym => Some((BitAnd, 1))
        case EqSym => Some((Equal, 1))
        case NeSym => Some((NotEqual, 1))
        case IsSym => Some((Is, 1))
        case LtSym => Some((LessThan, 1))
        case GtSym => Some((GreaterThan, 1))
        case LeSym => Some((LessOrEqual, 1))
        case GeSym => Some((GreaterOrEqual, 1))
        case InSym => Some((In, 1))
        case NotSym => if |ts| > 1 && ts[1] == Oper(InSym) then Some((NotIn, 2)) else None
        case PlusSym => Some((Add, 1))
        case MinusSym => Some((Subtract, 1))
        case StarSym => Some((Multiply, 1))
        case SlashSym => Some((Divide, 1))
        case RemSym => Some((Modulo, 1))
        case TildeSym => None)
      case _ => None
  }

  /** The level of the operator the tokens begin with: a call suffix binds tighter than
      every binary operator, and 0 says that no operator continues an expression here. */
  function HeadLevel(ts: seq<Token>): nat {
    if ts == [] then 0
    else if ts[0] == LParen || ts[0] == LBrack || ts[0] == Dot then PREC_CALL
    else match BinaryHead(ts) case Some((op, _)) => BinOpPrec(op) case None => 0
  }

  /** The width an integer literal is stored with. */
  function ReadInteger(v: nat): Option<Expr> {
    if v > INT64_MAX then None
    else if v <= INT32_MAX then Some(Num(Narrow(v)))
    else Some(Num(Wide(v)))
  }

  /** The tree of a prefix operator: a sign folds into a number and 'not' into a truth
      value; negating the least 64-bit number is refused. */
  function FoldUnary(op: UnaryOp, arg: Expr): Option<Expr> {
    match (op, arg)
    case (Not, Bool(b)) => Some(Bool(!b))
    case (Negate, Num(Narrow(n))) =>
      var v: int := n;
      var neg := -v;
      if neg < -INT32_MAX - 1 || neg > INT32_MAX then Some(Num(Wide(neg))) else Some(Num(Narrow(neg)))
    case (Negate, Num(Wide(w))) =>
      if w == -INT64_MAX - 1 then None else Some(Num(Wide(-w)))
    case _ => Some(Unary(op, arg))
  }

  /** A bare 2^63 directly after a minus sign, with no call, index or accessor on it. */
  predicate LeastInt64Literal(ts: seq<Token>) {
    ts != [] && ts[0] == Number(INT64_MAX + 1)
    && !(|ts| > 1 && (ts[1] == LParen || ts[1] == LBrack || ts[1] == Dot))
  }

  function ParseExpression(ts: seq<Token>): Option<Expr> {
    match ParseAssignment(ts)
    case Ok(e, rest) => if rest == [] then Some(e) else None
    case Err => None
  }

  function ParseAssignment(ts: seq<Token>): (r: Parsed<Expr>)
    ensures r.Ok? ==> |r.rest| < |ts|
    decreases |ts|, 20
  {
    var target := ParseCall(ts);
    if target.Ok? && target.rest != [] && target.rest[0].AssignTok? then
      match ParseAssignment(target.rest[1..])
      case Ok(source, rest) => Ok(Assign(target.rest[0].copyInto, target.value, source), rest)
      case Err => Err
    else ParseLevel(PREC_OR, ts)
  }

  function ParseLevel(k: nat, ts: seq<Token>): (r: Parsed<Expr>)
    requires PREC_OR <= k <= PREC_UNARY
    ensures r.Ok? ==> |r.rest| < |ts|
    decreases |ts|, 19 - k
  {
    if k == PREC_UNARY then ParseUnary(ts)
    else match ParseLevel(k + 1, ts)
      case Err => Err
      case Ok(first, rest) => ParseChain(k, first, first, rest)
  }

  /** What follows the first operand of a level. Most levels fold to the left. The
      equality level gives every link the FIRST operand as its left side; the comparison
      level takes at most one operator. */
  function ParseChain(k: nat, first: Expr, lhs: Expr, ts: seq<Token>): (r: Parsed<Expr>)
    requires PREC_OR <= k < PREC_UNARY
    ensures r.Ok? ==> |r.rest| <= |ts|
    decreases |ts|, 0
  {
    match BinaryHead(ts)
    case None => Ok(lhs, ts)
    case Some((op, n)) =>
      if BinOpPrec(op) != k then Ok(lhs, ts)
      else match ParseLevel(k + 1, ts[n..])
        case Err => Err
        case Ok(rhs, rest) =>
          if k == PREC_COMPARISON then Ok(Binary(op, lhs, rhs), rest)
          else if k == PREC_EQUALITY then ParseChain(k, first, Binary(op, first, rhs), rest)
          else ParseChain(k, first, Binary(op, lhs, rhs), rest)
  }

  function ParseUnary(ts: seq<Token>): (r: Parsed<Expr>)
    ensures r.Ok? ==> |r.rest| < |ts|
    decreases |ts|, 7
  {
    if ts == [] then Err
    else match ts[0]
      case Oper(MinusSym) =>
        if LeastInt64Literal(ts[1..]) then Ok(Num(Wide(-INT64_MAX - 1)), ts[2..])
        else ParsePrefix(Negate, ts)
      case Oper(NotSym) => ParsePrefix(Not, ts)
      case Oper(TildeSym) => ParsePrefix(BitNot, ts)
      case _ => ParseCall(ts)
  }

  function ParsePrefix(op: UnaryOp, ts: seq<Token>): (r: Parsed<Expr>)
    requires ts != []
    ensures r.Ok? ==> |r.rest| < |ts|
    decreases |ts|, 5
  {
    match ParseUnary(ts[1..])
    case Err => Err
    case Ok(arg, rest) =>
      match FoldUnary(op, arg)
      case None => Err
      case Some(e) => Ok(e, rest)
  }

  function ParseCall(ts: seq<Token>): (r: Parsed<Expr>)
    ensures r.Ok? ==> |r.rest| < |ts|
    decreases |ts|, 6
  {
    match ParsePrimary(ts)
    case Err => Err
    case Ok(e, rest) => ParseSuffixes(e, rest)
  }

  function ParseSuffixes(e: Expr, ts: seq<Token>): (r: Parsed<Expr>)
    ensures r.Ok? ==> |r.rest| <= |ts|
    decreases |ts|, 0
  {
    if ts == [] then Ok(e, ts)
    else match ts[0]
      case LParen => (
        match ParseArgs(ts[1..])
        case Err => Err
        case Ok(args, rest) => ParseSuffixes(Call(e, args), rest))
      case LBrack => (
        match ParseIndices(ts[1..])
        case Err => Err
        case Ok(indices, rest) => ParseSuffixes(Index(e, indices), rest))
      case Dot => (
        if |ts| < 2 then Err
        else match ts[1]
          case Ident(m) => ParseSuffixes(Accessor(e, m), ts[2..])
          case WhenTok => ParseSuffixes(Accessor(e, "when"), ts[2..])
          case EmitTok => ParseSuffixes(Accessor(e, "emit"), ts[2..])
          case MatchTok => ParseSuffixes(Accessor(e, "match"), ts[2..])
          case _ => Err)
      case _ => Ok(e, ts)
  }

  function ParsePrimary(ts: seq<Token>): (r: Parsed<Expr>)
    ensures r.Ok? ==> |r.rest| < |ts|
    decreases |ts|, 5
  {
    if ts == [] then Err
    else match ts[0]
      case TrueTok => Ok(Bool(true), ts[1..])
      case FalseTok => Ok(Bool(false), ts[1..])
      case NilTok => Ok(Literal(Nil), ts[1..])
      case ThisTok => Ok(Variable("this"), ts[1..])
      case SuperTok =>
        if |ts| > 2 && ts[1] == Dot && ts[2].Ident?
        then Ok(Accessor(Variable("super"), ts[2].name), ts[3..]) else Err
      case Ident(name) => Ok(Variable(name), ts[1..])
      case Number(v) => (
        match ReadInteger(v)
        case None => Err
        case Some(e) => Ok(e, ts[1..]))
      case LParen => (
        match ParseAssignment(ts[1..])
        case Err => Err
        case Ok(e, rest) => if rest != [] && rest[0] == RParen then Ok(e, rest[1..]) else Err)
      case _ => Err
  }

  predicate NamesArgument(ts: seq<Token>) {
    |ts| > 1 && (ts[0].Ident? || ts[0] == ForTok || ts[0] == WhenTok) && ts[1] == AssignTok(false)
  }

  function ParseArgument(ts: seq<Token>): (r: Parsed<Argument>)
    ensures r.Ok? ==> |r.rest| < |ts|
    decreases |ts|, 21
  {
    if NamesArgument(ts) then
      match ParseAssignment(ts[2..])
      case Err => Err
      case Ok(e, rest) =>
        Ok(Argument(if ts[0].Ident? then ts[0].name else if ts[0] == ForTok then "for" else "when", e), rest)
    else
      match ParseAssignment(ts)
      case Err => Err
      case Ok(e, rest) => Ok(Argument("", e), rest)
  }

  /** The arguments after an opening parenthesis, through the closing one. */
  function ParseArgs(ts: seq<Token>): (r: Parsed<seq<Argument>>)
    ensures r.Ok? ==> |r.rest| < |ts|
    decreases |ts|, 22
  {
    if ts != [] && ts[0] == RParen then Ok([], ts[1..])
    else match ParseArgument(ts)
      case Err => Err
      case Ok(a, rest) =>
        if rest == [] then Err
        else if rest[0] == RParen then Ok([a], rest[1..])
        else if rest[0] != Comma then Err
        else match ParseArgs(rest[1..])
          case Err => Err
          case Ok(more, rest') => Ok([a] + more, rest')
  }

  /** The indices after an opening bracket, through the closing one; at least one. */
  function ParseIndices(ts: seq<Token>): (r: Parsed<seq<Expr>>)
    ensures r.Ok? ==> |r.rest| < |ts|
    decreases |ts|, 22
  {
    match ParseAssignment(ts)
    case Err => Err
    case Ok(e, rest) =>
      if rest == [] then Err
      else if rest[0] == RBrack then Ok([e], rest[1..])
      else if rest[0] != Comma then Err
      else match ParseIndices(rest[1..])
        case Err => Err
        case Ok(more, rest') => Ok([e] + more, rest')
  }
}
