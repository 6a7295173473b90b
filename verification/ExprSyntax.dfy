/** The expression trees of the language front end, the tokens they are written with,
    and the word lists that decide which names a printer may leave bare. */
module ExprSyntax {

  const INT32_MAX := 0x7fff_ffff
  const INT64_MAX := 0x7fff_ffff_ffff_ffff

  type Int32 = x: int | -INT32_MAX - 1 <= x <= INT32_MAX
  type Int64 = x: int | -INT64_MAX - 1 <= x <= INT64_MAX

  /** An integer literal keeps the width it was stored with: two literals of the same
      value and different widths are different trees. */
  datatype Numeral = Narrow(n: Int32) | Wide(w: Int64)

  function ValueOf(num: Numeral): Int64 {
    match num case Narrow(n) => n case Wide(w) => w
  }

  datatype UnaryOp = Negate | Not | BitNot

  datatype BinaryOp =
    | Or | And | BitOr | BitXor | BitAnd
    | Equal | NotEqual | Is
    | LessThan | GreaterThan | LessOrEqual | GreaterOrEqual | In | NotIn
    | Add | Subtract
    | Multiply | Divide | Modulo

  /** Literals without a value of their own. */
  datatype LiteralType = Nil

  datatype Expr =
    | Literal(literalType: LiteralType)
    | Bool(value: bool)
    | Num(num: Numeral)
    | Variable(name: string)
    | Unary(uop: UnaryOp, arg: Expr)
    | Accessor(object: Expr, member: string)
    | Binary(op: BinaryOp, lhs: Expr, rhs: Expr)
    | Call(callable: Expr, args: seq<Argument>)
    | Index(indexable: Expr, indices: seq<Expr>)
    | Assign(copyInto: bool, target: Expr, source: Expr)

  /** An empty name marks a positional argument. */
  datatype Argument = Argument(param: string, expr: Expr)

  datatype Symbol =
    | OrSym | AndSym | BitOrSym | BitXorSym | BitAndSym
    | EqSym | NeSym | IsSym
    | LtSym | GtSym | LeSym | GeSym | InSym
    | PlusSym | MinusSym | StarSym | SlashSym | RemSym
    | NotSym | TildeSym

  datatype Token =
    | Ident(name: string)
    | Number(value: nat)
    | Oper(sym: Symbol)
    | LParen | RParen | LBrack | RBrack | Dot | Comma
    | AssignTok(copyInto: bool)
    | TrueTok | FalseTok | NilTok | ThisTok | SuperTok
    | WhenTok | EmitTok | MatchTok | ForTok
    | Reserved(word: string)

  /** The words the printer puts between backticks when they are used as names. */
  predicate PrinterKeyword(s: string) {
    s in {
      "_", "actor", "and", "as", "becomes", "bool", "break", "by", "byte",
      "case", "changes", "const", "continue", "decimal", "default", "dict",
      "else", "elseif", "emit", "enum", "event", "except", "extends",
      "finally", "for", "func", "if", "implements", "import", "in", "int",
      "interface", "is", "jump", "list", "loperator", "match", "matrix",
      "mutable", "not", "number", "object", "occurs", "operator", "or",
      "orient", "private", "proc", "raise", "range", "real", "rem",
      "return", "roperator", "scope", "signal", "string", "tensor",
      "try", "type", "until", "var", "vector", "when", "where", "while",
      "with"
    }
  }

  /** The words the lexer does not read as identifiers although the printer leaves them
      bare. An empty name is written as nothing at all, so it is no identifier either. */
  predicate BareReserved(s: string) {
    s == "" || s == "assert" || s == "true" || s == "false" || s == "nil" || s == "this" || s == "super"
  }

  /** What the lexer makes of an identifier-shaped word written without backticks. */
  function LexWord(s: string): Token {
    if s == "true" then TrueTok
    else if s == "false" then FalseTok
    else if s == "nil" then NilTok
    else if s == "this" then ThisTok
    else if s == "super" then SuperTok
    else if s == "when" then WhenTok
    else if s == "emit" then EmitTok
    else if s == "match" then MatchTok
    else if s == "for" then ForTok
    else if s == "or" then Oper(OrSym)
    else if s == "and" then Oper(AndSym)
    else if s == "is" then Oper(IsSym)
    else if s == "in" then Oper(InSym)
    else if s == "rem" then Oper(RemSym)
    else if s == "not" then Oper(NotSym)
    else if PrinterKeyword(s) || BareReserved(s) then Reserved(s)
    else Ident(s)
  }

  /** Precedence levels, tighter binding higher. */
  const PREC_ASSIGN := 1
  const PREC_OR := 2
  const PREC_EQUALITY := 7
  const PREC_COMPARISON := 8
  const PREC_FACTOR := 10
  const PREC_UNARY := 11
  const PREC_CALL := 12
  const PREC_PRIMARY := 13

  function BinOpPrec(op: BinaryOp): (p: nat)
    ensures PREC_OR <= p <= PREC_FACTOR
  {
    match op
    case Or => 2
    case And => 3
    case BitOr => 4
    case BitXor => 5
    case BitAnd => 6
    case Equal | NotEqual | Is => 7
    case LessThan | GreaterThan | LessOrEqual | GreaterOrEqual | In | NotIn => 8
    case Add | Subtract => 9
    case Multiply | Divide | Modulo => 10
  }
}
