/** The canonical expression printer, as the tokens of its text. */
module ExprPrinter {
  import opened ExprSyntax

  function BinOpTokens(op: BinaryOp): (ts: seq<Token>)
    ensures |ts| == if op == NotIn then 2 else 1
  {
    match op
    case Or => [Oper(OrSym)]
    case And => [Oper(AndSym)]
    case BitOr => [Oper(BitOrSym)]
    case BitXor => [Oper(BitXorSym)]
    case BitAnd => [Oper(BitAndSym)]
    case Equal => [Oper(EqSym)]
    case NotEqual => [Oper(NeSym)]
    case Is => [Oper(IsSym)]
    case LessThan => [Oper(LtSym)]
    case GreaterThan => [Oper(GtSym)]
    case LessOrEqual => [Oper(LeSym)]
    case GreaterOrEqual => [Oper(GeSym)]
    case In => [Oper(InSym)]
    case NotIn => [Oper(NotSym), Oper(InSym)]
    case Add => [Oper(PlusSym)]
    case Subtract => [Oper(MinusSym)]
    case Multiply => [Oper(StarSym)]
    case Divide => [Oper(SlashSym)]
    case Modulo => [Oper(RemSym)]
  }

  function UnaryToken(op: UnaryOp): Token {
    match op
    case Negate => Oper(MinusSym)
    case Not => Oper(NotSym)
    case BitNot => Oper(TildeSym)
  }

  /** A name as the printer writes it: backticked when it collides with a keyword the
      printer knows. */
  function NameToken(name: string): Token {
    if PrinterKeyword(name) then Ident(name) else LexWord(name)
  }

  /** A member name after '.': when, emit and match may stay bare there. */
  function MemberToken(member: string): Token {
    if PrinterKeyword(member) && member != "when" && member != "emit" && member != "match"
    then Ident(member) else LexWord(member)
  }

  function NumTokens(num: Numeral): seq<Token> {
    var v: int := ValueOf(num);
    if v < 0 then [Oper(MinusSym), Number(-v)] else [Number(v)]
  }

  /** How tightly the text of a tree binds. A negative literal binds like a unary minus. */
  function Prec(e: Expr): (p: nat)
    ensures PREC_ASSIGN <= p <= PREC_PRIMARY
  {
    match e
    case Num(n) => if ValueOf(n) < 0 then PREC_UNARY else PREC_PRIMARY
    case Unary(_, _) => PREC_UNARY
    case Binary(op, _, _) => BinOpPrec(op)
    case Accessor(_, _) | Call(_, _) | Index(_, _) => PREC_CALL
    case Assign(_, _, _) => PREC_ASSIGN
    case _ => PREC_PRIMARY
  }

  predicate NeedParens(e: Expr, parentPrec: nat, isRight: bool) {
    Prec(e) < parentPrec
    || (Prec(e) == parentPrec && isRight && PREC_OR <= Prec(e) <= PREC_FACTOR)
  }

  function Print(e: Expr, parentPrec: nat, isRight: bool): seq<Token>
    decreases e, 1
  {
    if NeedParens(e, parentPrec, isRight) then [LParen] + Body(e) + [RParen] else Body(e)
  }

  function Body(e: Expr): seq<Token>
    decreases e, 0
  {
    match e
    case Literal(_) => [NilTok]
    case Bool(b) => [if b then TrueTok else FalseTok]
    case Num(n) => NumTokens(n)
    case Variable(name) => [NameToken(name)]
    case Unary(op, arg) => [UnaryToken(op)] + Print(arg, PREC_UNARY, false)
    case Accessor(o, m) => Print(o, PREC_CALL, false) + [Dot, MemberToken(m)]
    case Binary(op, l, r) =>
      Print(l, BinOpPrec(op), false) + (BinOpTokens(op) + Print(r, BinOpPrec(op), true))
    case Call(f, args) => Print(f, PREC_CALL, false) + ([LParen] + PrintArgs(args) + [RParen])
    case Index(x, indices) => Print(x, PREC_CALL, false) + ([LBrack] + PrintIndices(indices) + [RBrack])
    case Assign(c, l, r) => Print(l, PREC_ASSIGN, false) + ([AssignTok(c)] + Print(r, 0, false))
  }

  function PrintArgument(a: Argument): seq<Token>
    decreases a, 0
  {
    if a.param == "" then Print(a.expr, 0, false)
    else [NameToken(a.param), AssignTok(false)] + Print(a.expr, 0, false)
  }

  function PrintArgs(args: seq<Argument>): seq<Token>
    decreases args, 0
  {
    if args == [] then []
    else PrintArgument(args[0]) + (if |args| == 1 then [] else [Comma] + PrintArgs(args[1..]))
  }

  function PrintIndices(indices: seq<Expr>): seq<Token>
    decreases indices, 0
  {
    if indices == [] then []
    else Print(indices[0], 0, false) + (if |indices| == 1 then [] else [Comma] + PrintIndices(indices[1..]))
  }
}
