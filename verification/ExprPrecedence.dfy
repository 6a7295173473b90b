/** Which operator takes which operands: the rules of the grammar, one inside the other, and
    the tree that the reader makes of three operands and two operators. */
module ExprPrecedence {
  import opened Utils
  import opened ExprSyntax
  import opened ExprPrinter
  import opened ExprParser
  import opened ExprRoundTrip

  /** inner stands at a rule that the rule of outer is built from, directly or further down:
      logic_or of logic_and of bitwise_or of bitwise_xor of bitwise_and of equality of
      comparison of term of factor. */
  predicate Tighter(inner: BinaryOp, outer: BinaryOp) {
    match outer
    case Or => inner != Or
    case And => inner != Or && inner != And
    case BitOr => inner == BitXor || inner == BitAnd || Equating(inner) || Comparing(inner) || Arithmetic(inner)
    case BitXor => inner == BitAnd || Equating(inner) || Comparing(inner) || Arithmetic(inner)
    case BitAnd => Equating(inner) || Comparing(inner) || Arithmetic(inner)
    case Equal | NotEqual | Is => Comparing(inner) || Arithmetic(inner)
    case LessThan | GreaterThan | LessOrEqual | GreaterOrEqual | In | NotIn => Arithmetic(inner)
    case Add | Subtract => Multiplying(inner)
    case Multiply | Divide | Modulo => false
  }

  predicate Equating(op: BinaryOp) { op == Equal || op == NotEqual || op == Is }

  predicate Comparing(op: BinaryOp) {
    op == LessThan || op == GreaterThan || op == LessOrEqual || op == GreaterOrEqual || op == In || op == NotIn
  }

  predicate Arithmetic(op: BinaryOp) { op == Add || op == Subtract || Multiplying(op) }

  predicate Multiplying(op: BinaryOp) { op == Multiply || op == Divide || op == Modulo }

  lemma TighterIsHigher(inner: BinaryOp, outer: BinaryOp)
    ensures Tighter(inner, outer) <==> BinOpPrec(inner) > BinOpPrec(outer)
  {
  }

  lemma LevelsOfOneOperator(op: BinaryOp)
    ensures Equating(op) <==> BinOpPrec(op) == PREC_EQUALITY
    ensures Comparing(op) <==> BinOpPrec(op) == PREC_COMPARISON
  {
  }

  /** Nothing that would go on with an operand follows. */
  predicate NoSuffix(rest: seq<Token>) {
    rest == [] || !(rest[0] == LParen || rest[0] == LBrack || rest[0] == Dot)
  }

  /** The text is read as one operand, whatever follows it. */
  ghost predicate ReadsAsOperand(text: seq<Token>, x: Expr) {
    text != [] && forall rest | NoSuffix(rest) :: ParseUnary(text + rest) == Ok(x, rest)
  }

  lemma WordIsOperand(name: string)
    ensures ReadsAsOperand([Ident(name)], Variable(name))
  {
    forall rest | NoSuffix(rest)
      ensures ParseUnary([Ident(name)] + rest) == Ok(Variable(name), rest)
    {
      var ts := [Ident(name)] + rest;
      assert ts[1..] == rest;
      assert ParsePrimary(ts) == Ok(Variable(name), rest);
      assert ParseSuffixes(Variable(name), rest) == Ok(Variable(name), rest);
      assert ParseUnary(ts) == ParseCall(ts);
    }
  }

  /** An operand followed by operators of level k or looser is what the level begins with. */
  lemma OperandAt(k: nat, text: seq<Token>, x: Expr, rest: seq<Token>)
    requires PREC_OR <= k <= PREC_UNARY && ReadsAsOperand(text, x) && NoSuffix(rest) && HeadLevel(rest) <= k
    ensures ParseLevel(k, text + rest) == if k < PREC_UNARY then ParseChain(k, x, x, rest) else Ok(x, rest)
  {
    assert ParseUnary(text + rest) == Ok(x, rest);
    if k < PREC_UNARY {
      LowerOk(PREC_UNARY, k, text + rest, x, rest);
    }
  }

  lemma ChainEnds(k: nat, first: Expr, x: Expr, rest: seq<Token>)
    requires PREC_OR <= k < PREC_UNARY && HeadLevel(rest) != k && (rest == [] || HeadLevel(rest) < PREC_CALL)
    ensures ParseChain(k, first, x, rest) == Ok(x, rest)
  {
  }

  lemma OperatorFollows(op: BinaryOp, rest: seq<Token>)
    ensures NoSuffix(BinOpTokens(op) + rest) && HeadLevel(BinOpTokens(op) + rest) == BinOpPrec(op)
  {
    HeadOfOperator(op, rest);
  }

  /** The second operator and the last operand, read after an operand of its level. */
  lemma LastLink(k: nat, op: BinaryOp, first: Expr, lhs: Expr, last: seq<Token>, c: Expr)
    requires k == BinOpPrec(op) && ReadsAsOperand(last, c)
    ensures ParseChain(k, first, lhs, BinOpTokens(op) + last)
      == Ok(Binary(op, if k == PREC_EQUALITY then first else lhs, c), [])
  {
    assert last + [] == last;
    OperandAt(k + 1, last, c, []);
    if k + 1 < PREC_UNARY {
      ChainEnds(k + 1, c, c, []);
    }
    StepOperand(k, op, first, lhs, last);
    var e := Binary(op, if k == PREC_EQUALITY then first else lhs, c);
    ChainEnds(k, if k == PREC_EQUALITY then first else first, e, []);
  }

  /** b op c, read where a level looser than op wants its operand. */
  lemma TighterPair(k: nat, op: BinaryOp, mid: seq<Token>, b: Expr, last: seq<Token>, c: Expr)
    requires PREC_OR <= k <= BinOpPrec(op) && ReadsAsOperand(mid, b) && ReadsAsOperand(last, c)
    ensures ParseLevel(k, mid + (BinOpTokens(op) + last)) == Ok(Binary(op, b, c), [])
  {
    var k2, rest := BinOpPrec(op), BinOpTokens(op) + last;
    OperatorFollows(op, last);
    OperandAt(k2, mid, b, rest);
    LastLink(k2, op, b, b, last, c);
    if k < k2 {
      LowerOk(k2, k, mid + rest, Binary(op, b, c), []);
      ChainEnds(k, Binary(op, b, c), Binary(op, b, c), []);
    }
  }

  /** a op1 b, read where an operator that is no tighter follows. */
  lemma LoosePair(op: BinaryOp, left: seq<Token>, a: Expr, mid: seq<Token>, b: Expr, rest: seq<Token>)
    requires ReadsAsOperand(left, a) && ReadsAsOperand(mid, b) && NoSuffix(rest) && HeadLevel(rest) <= BinOpPrec(op)
    ensures var k := BinOpPrec(op);
      ParseLevel(k, left + (BinOpTokens(op) + (mid + rest))) ==
      if k == PREC_COMPARISON then Ok(Binary(op, a, b), rest) else ParseChain(k, a, Binary(op, a, b), rest)
  {
    var k := BinOpPrec(op);
    OperatorFollows(op, mid + rest);
    OperandAt(k, left, a, BinOpTokens(op) + (mid + rest));
    OperandAt(k + 1, mid, b, rest);
    if k + 1 < PREC_UNARY {
      ChainEnds(k + 1, b, b, rest);
    }
    StepOperand(k, op, a, a, mid + rest);
  }

  function ThreeOperands(left: seq<Token>, op1: BinaryOp, mid: seq<Token>, op2: BinaryOp, last: seq<Token>)
    : seq<Token>
  {
    left + (BinOpTokens(op1) + (mid + (BinOpTokens(op2) + last)))
  }

  /** What is read of three operands and two operators. On the comparison level there is one
      operator at most, and on the equality level the operand in the middle is lost. */
  function Grouped(a: Expr, op1: BinaryOp, b: Expr, op2: BinaryOp, c: Expr): Option<Expr> {
    if Tighter(op2, op1) then Some(Binary(op1, a, Binary(op2, b, c)))
    else if Comparing(op1) && Comparing(op2) then None
    else if Equating(op1) && Equating(op2) then Some(Binary(op2, a, c))
    else Some(Binary(op2, Binary(op1, a, b), c))
  }

  lemma ThreeFromOr(left: seq<Token>, a: Expr, op1: BinaryOp, mid: seq<Token>, b: Expr, op2: BinaryOp,
                    last: seq<Token>, c: Expr)
    requires ReadsAsOperand(left, a) && ReadsAsOperand(mid, b) && ReadsAsOperand(last, c)
    ensures var r := ParseLevel(PREC_OR, ThreeOperands(left, op1, mid, op2, last));
      match Grouped(a, op1, b, op2, c)
      case Some(x) => r == Ok(x, [])
      case None => r.Ok? && r.rest != []
  {
    TighterIsHigher(op2, op1);
    LevelsOfOneOperator(op1);
    LevelsOfOneOperator(op2);
    var k1, k2, rest := BinOpPrec(op1), BinOpPrec(op2), BinOpTokens(op2) + last;
    var ts := ThreeOperands(left, op1, mid, op2, last);
    OperatorFollows(op2, last);
    if k2 > k1 {
      ThreeInner(left, a, op1, mid, b, op2, last, c);
    } else {
      LoosePair(op1, left, a, mid, b, rest);
      if k2 < k1 {
        ThreeOuter(ts, Binary(op1, a, b), k1, op2, last, c, a);
      } else {
        ThreeAlike(ts, a, Binary(op1, a, b), op2, last, c);
      }
    }
  }

  lemma ThreeInner(left: seq<Token>, a: Expr, op1: BinaryOp, mid: seq<Token>, b: Expr, op2: BinaryOp,
                   last: seq<Token>, c: Expr)
    requires ReadsAsOperand(left, a) && ReadsAsOperand(mid, b) && ReadsAsOperand(last, c)
    requires BinOpPrec(op2) > BinOpPrec(op1)
    ensures ParseLevel(PREC_OR, ThreeOperands(left, op1, mid, op2, last))
      == Ok(Binary(op1, a, Binary(op2, b, c)), [])
  {
    var k, right := BinOpPrec(op1), mid + (BinOpTokens(op2) + last);
    var x, e := Binary(op2, b, c), Binary(op1, a, Binary(op2, b, c));
    var ts := left + (BinOpTokens(op1) + right);
    OperatorFollows(op1, right);
    OperandAt(k, left, a, BinOpTokens(op1) + right);
    TighterPair(k + 1, op2, mid, b, last, c);
    StepOperand(k, op1, a, a, right);
    ChainEnds(k, a, e, []);
    ToOr(k, ts, e);
  }

  lemma ToOr(k: nat, ts: seq<Token>, e: Expr)
    requires PREC_OR <= k < PREC_UNARY && ParseLevel(k, ts) == Ok(e, [])
    ensures ParseLevel(PREC_OR, ts) == Ok(e, [])
  {
    if PREC_OR < k {
      LowerOk(k, PREC_OR, ts, e, []);
      ChainEnds(PREC_OR, e, e, []);
    }
  }

  /** A looser operator follows what level k1 has read. */
  lemma ThreeOuter(ts: seq<Token>, x: Expr, k1: nat, op2: BinaryOp, last: seq<Token>, c: Expr, first: Expr)
    requires BinOpPrec(op2) < k1 < PREC_UNARY && ReadsAsOperand(last, c)
    requires ParseLevel(k1, ts) == (if k1 == PREC_COMPARISON then Ok(x, BinOpTokens(op2) + last)
                                    else ParseChain(k1, first, x, BinOpTokens(op2) + last))
    ensures ParseLevel(PREC_OR, ts) == Ok(Binary(op2, x, c), [])
  {
    var k2, rest := BinOpPrec(op2), BinOpTokens(op2) + last;
    OperatorFollows(op2, last);
    ChainEnds(k1, first, x, rest);
    LowerOk(k1, k2, ts, x, rest);
    LastLink(k2, op2, x, x, last, c);
    ToOr(k2, ts, Binary(op2, x, c));
  }

  /** An operator of the same level follows. */
  lemma ThreeAlike(ts: seq<Token>, a: Expr, x: Expr, op2: BinaryOp, last: seq<Token>, c: Expr)
    requires ReadsAsOperand(last, c)
    requires var k := BinOpPrec(op2);
      ParseLevel(k, ts) == (if k == PREC_COMPARISON then Ok(x, BinOpTokens(op2) + last)
                            else ParseChain(k, a, x, BinOpTokens(op2) + last))
    ensures var k, r := BinOpPrec(op2), ParseLevel(PREC_OR, ts);
      if k == PREC_COMPARISON then r.Ok? && r.rest != []
      else r == Ok(Binary(op2, if k == PREC_EQUALITY then a else x, c), [])
  {
    var k := BinOpPrec(op2);
    OperatorFollows(op2, last);
    if k == PREC_COMPARISON {
      LowerStuck(PREC_COMPARISON, PREC_OR, ts);
    } else {
      LastLink(k, op2, a, x, last, c);
      ToOr(k, ts, Binary(op2, if k == PREC_EQUALITY then a else x, c));
    }
  }

  /** For any three operands and any two operators: the tighter operator takes the operands
      next to it, and otherwise the left one does. */
  lemma ThreeOperandsAreGrouped(left: seq<Token>, a: Expr, op1: BinaryOp, mid: seq<Token>, b: Expr, op2: BinaryOp,
                                last: seq<Token>, c: Expr)
    requires ReadsAsOperand(left, a) && ReadsAsOperand(mid, b) && ReadsAsOperand(last, c)
    ensures ParseExpression(ThreeOperands(left, op1, mid, op2, last)) == Grouped(a, op1, b, op2, c)
  {
    var ts := ThreeOperands(left, op1, mid, op2, last);
    var rest := BinOpTokens(op1) + (mid + (BinOpTokens(op2) + last));
    ThreeFromOr(left, a, op1, mid, b, op2, last, c);
    OperatorFollows(op1, mid + (BinOpTokens(op2) + last));
    CallBeforeOperator(left, a, op1, mid + (BinOpTokens(op2) + last));
    StepLogic(ts);
  }

  lemma CallBeforeOperator(left: seq<Token>, a: Expr, op: BinaryOp, right: seq<Token>)
    requires ReadsAsOperand(left, a)
    ensures var r := ParseCall(left + (BinOpTokens(op) + right)); r.Ok? ==> r.rest != [] && r.rest[0].Oper?
  {
    var rest := BinOpTokens(op) + right;
    OperatorFollows(op, right);
    HeadOfOperator(op, right);
    assert ParseUnary(left + rest) == Ok(a, rest);
    if (left + rest)[0].Oper? {
      RejectedOperator(left + rest);
    }
  }

  /** a + b * c. */
  lemma ProductIsTighterThanSum(ts: seq<Token>)
    requires ts == [Ident("a"), Oper(PlusSym), Ident("b"), Oper(StarSym), Ident("c")]
    ensures ParseExpression(ts) == Some(Binary(Add, Variable("a"), Binary(Multiply, Variable("b"), Variable("c"))))
  {
    WordIsOperand("a");
    WordIsOperand("b");
    WordIsOperand("c");
    assert ts == ThreeOperands([Ident("a")], Add, [Ident("b")], Multiply, [Ident("c")]);
    ThreeOperandsAreGrouped([Ident("a")], Variable("a"), Add, [Ident("b")], Variable("b"), Multiply, [Ident("c")],
                            Variable("c"));
  }

  // ---- Prefix operators ---------------------------------------------------------------------------------

  /** A prefix operator takes the operand next to it, before any operator between operands. */
  lemma PrefixIsOperand(op: UnaryOp, text: seq<Token>, x: Expr, e: Expr)
    requires ReadsAsOperand(text, x) && FoldUnary(op, x) == Some(e)
    ensures ReadsAsOperand([UnaryToken(op)] + text, e)
  {
    forall rest | NoSuffix(rest)
      ensures ParseUnary([UnaryToken(op)] + text + rest) == Ok(e, rest)
    {
      assert [UnaryToken(op)] + text + rest == [UnaryToken(op)] + (text + rest);
      assert ParseUnary(text + rest) == Ok(x, rest);
      LeastIsRejected(text + rest);
      StepPrefix(op, text + rest);
    }
  }

  lemma LeastIsRejected(ts: seq<Token>)
    ensures LeastInt64Literal(ts) ==> ParseUnary(ts).Err?
  {
    if LeastInt64Literal(ts) {
      assert ParsePrimary(ts).Err?;
      assert ParseUnary(ts) == ParseCall(ts);
    }
  }

  /** Folding a sign or a 'not' into a constant gives the constant of the opposite value, and
      is refused exactly for the one number that has none. */
  lemma FoldIsOpposite(num: Numeral, b: bool)
    ensures FoldUnary(Not, Bool(b)) == Some(Bool(!b))
    ensures FoldUnary(Negate, Num(num)) == None <==> ValueOf(num) == -INT64_MAX - 1
    ensures var r := FoldUnary(Negate, Num(num));
      r.Some? ==> r.value.Num? && ValueOf(r.value.num) == -ValueOf(num)
  {
  }

  // ---- Words that are names in some places --------------------------------------------------------------

  /** An argument may be named by these two keywords. */
  lemma KeywordNamesArgument(word: string, text: seq<Token>)
    requires word == "for" || word == "when"
    ensures ParseArgument([LexWord(word), AssignTok(false)] + text) ==
      match ParseAssignment(text) case Ok(e, rest) => Ok(Argument(word, e), rest) case Err => Err
  {
    assert ([LexWord(word), AssignTok(false)] + text)[2..] == text;
  }
}
