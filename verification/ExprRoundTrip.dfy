/** What reading the printed form of a tree gives back, for every tree, and exactly when it
    gives back the tree itself. */
module ExprRoundTrip {
  import opened Utils
  import opened ExprSyntax
  import opened ExprPrinter
  import opened ExprParser
  import opened ExprVisitors

  // ---- What comes back ------------------------------------------------------------------

  predicate EqualityNode(e: Expr) { e.Binary? && BinOpPrec(e.op) == PREC_EQUALITY }

  predicate ComparisonNode(e: Expr) { e.Binary? && BinOpPrec(e.op) == PREC_COMPARISON }

  function ReparseNum(num: Numeral): Expr {
    var v: int := ValueOf(num);
    Num(if -INT32_MAX <= v <= INT32_MAX then Narrow(v) else Wide(v))
  }

  predicate IsSuper(e: Expr) { e.Variable? && e.name == "super" }

  function ReparseName(name: string): Option<Expr> {
    match NameToken(name)
    case Ident(n) => Some(Variable(n))
    case TrueTok => Some(Bool(true))
    case FalseTok => Some(Bool(false))
    case NilTok => Some(Literal(Nil))
    case ThisTok => Some(Variable("this"))
    case _ => None
  }

  function ReparseMember(member: string): Option<string> {
    match MemberToken(member)
    case Ident(n) => Some(n)
    case WhenTok => Some("when")
    case EmitTok => Some("emit")
    case MatchTok => Some("match")
    case _ => None
  }

  /** The tree read from the printed form of e; None when it is not read as one. */
  function Reparse(e: Expr): (r: Option<Expr>)
    ensures e.Binary? && r.Some? ==> r.value.Binary? && r.value.op == e.op
    decreases e, 1
  {
    match e
    case Literal(_) => Some(e)
    case Bool(_) => Some(e)
    case Num(num) => Some(ReparseNum(num))
    case Variable(name) => ReparseName(name)
    case Unary(op, arg) => (
      match Reparse(arg)
      case None => None
      case Some(a) => FoldUnary(op, a))
    case Accessor(o, m) =>
      if IsSuper(o) then
        (if MemberToken(m).Ident? then Some(Accessor(o, MemberToken(m).name)) else None)
      else (
        match (Reparse(o), ReparseMember(m))
        case (Some(x), Some(n)) => Some(Accessor(x, n))
        case _ => None)
    case Binary(op, l, r) => (
      match (Reparse(l), Reparse(r))
      case (Some(x), Some(y)) =>
        if ComparisonNode(e) && ComparisonNode(l) then None
        else if EqualityNode(e) && EqualityNode(l) then Some(Binary(op, x.lhs, y))
        else Some(Binary(op, x, y))
      case _ => None)
    case Call(f, args) => (
      match (Reparse(f), ReparseArgs(args))
      case (Some(x), Some(more)) => Some(Call(x, more))
      case _ => None)
    case Index(x, indices) => (
      match (Reparse(x), ReparseIndices(indices))
      case (Some(y), Some(more)) => Some(Index(y, more))
      case _ => None)
    case Assign(c, target, source) => (
      match Reparse(source)
      case None => None
      case Some(s) => AssignOnto(c, target, s))
  }

  /** The tree read from the printed target, an assignment sign and the text of source:
      an unparenthesised assignment on the left regroups to the right, and only a
      call-level target is accepted. */
  function AssignOnto(c: bool, target: Expr, source: Expr): (r: Option<Expr>)
    ensures r.Some? ==> r.value.Assign?
    decreases target, 2
  {
    if target.Assign? then
      match AssignOnto(c, target.source, source)
      case None => None
      case Some(s) => AssignOnto(target.copyInto, target.target, s)
    else if Prec(target) < PREC_CALL then None
    else match Reparse(target)
      case None => None
      case Some(t) => Some(Assign(c, t, source))
  }

  /** The name an unparenthesised assignment gives to a positional argument. */
  predicate Captured(e: Expr) {
    e.Assign?
    && if e.target.Assign? then Captured(e.target)
       else e.target.Variable? && NameToken(e.target.name).Ident? && !e.copyInto
  }

  function ReparseArgument(a: Argument): Option<Argument>
    decreases a, 0
  {
    match Reparse(a.expr)
    case None => None
    case Some(x) =>
      if a.param == "" then
        if Captured(a.expr) && x.Assign? && x.target.Variable?
        then Some(Argument(x.target.name, x.source)) else Some(Argument("", x))
      else if NameToken(a.param).Ident? then Some(Argument(NameToken(a.param).name, x))
      else match ReparseName(a.param)
        case None => None
        case Some(t) => Some(Argument("", Assign(false, t, x)))
  }

  function ReparseArgs(args: seq<Argument>): Option<seq<Argument>>
    decreases args, 0
  {
    if args == [] then Some([])
    else match (ReparseArgument(args[0]), ReparseArgs(args[1..]))
      case (Some(a), Some(more)) => Some([a] + more)
      case _ => None
  }

  function ReparseIndices(indices: seq<Expr>): Option<seq<Expr>>
    decreases indices, 0
  {
    if indices == [] then None
    else match Reparse(indices[0])
      case None => None
      case Some(x) =>
        if |indices| == 1 then Some([x])
        else match ReparseIndices(indices[1..])
          case None => None
          case Some(more) => Some([x] + more)
  }

  // ---- Shapes of parser results -----------------------------------------------------------

  predicate Closing(ts: seq<Token>) {
    ts == [] || ts[0] == RParen || ts[0] == RBrack || ts[0] == Comma
  }

  /** The parser stopped where no enclosing construct can go on. */
  predicate Stuck(r: Parsed<Expr>) {
    r.Err? || (r.rest != [] && (r.rest[0].Oper? || r.rest[0].AssignTok?))
  }

  predicate Outcome(r: Parsed<Expr>, e: Option<Expr>, rest: seq<Token>) {
    match e case Some(x) => r == Ok(x, rest) case None => Stuck(r)
  }

  /** Where the parser of level k stands after the printed form of e, read as x. */
  function Continue(k: nat, e: Expr, x: Expr, rest: seq<Token>): Parsed<Expr>
    requires PREC_OR <= k < PREC_UNARY
    requires EqualityNode(e) ==> x.Binary?
  {
    if k == PREC_COMPARISON && ComparisonNode(e) then Ok(x, rest)
    else if k == PREC_EQUALITY && EqualityNode(e) then ParseChain(k, x.lhs, x, rest)
    else ParseChain(k, x, x, rest)
  }

  /** Reading ts, the printed form of e followed by rest, at level k. */
  predicate ReadsAt(k: nat, e: Expr, ts: seq<Token>, rest: seq<Token>)
    requires PREC_OR <= k <= PREC_CALL
  {
    if k < PREC_UNARY then LevelReads(k, e, ParseLevel(k, ts), rest)
    else match Reparse(e)
      case Some(x) =>
        if k == PREC_CALL then ParseCall(ts) == ParseSuffixes(x, rest) else ParseUnary(ts) == Ok(x, rest)
      case None => if k == PREC_CALL then ParseCall(ts).Err? else ParseUnary(ts).Err?
  }

  /** The same for the outcome p of a level of binary operators. */
  predicate LevelReads(k: nat, e: Expr, p: Parsed<Expr>, rest: seq<Token>)
    requires PREC_OR <= k < PREC_UNARY
  {
    match Reparse(e)
    case Some(x) => p == Continue(k, e, x, rest)
    case None => p.Err? || (k <= PREC_COMPARISON && HeadLevel(p.rest) == PREC_COMPARISON)
  }

  // ---- Levels -------------------------------------------------------------------------------

  lemma HeadOfOperator(op: BinaryOp, rest: seq<Token>)
    ensures BinaryHead(BinOpTokens(op) + rest) == Some((op, |BinOpTokens(op)|))
    ensures (BinOpTokens(op) + rest)[|BinOpTokens(op)|..] == rest
    ensures HeadLevel(BinOpTokens(op) + rest) == BinOpPrec(op)
    ensures (BinOpTokens(op) + rest)[0].Oper?
  {
  }

  lemma {:induction false} LowerOk(hi: nat, k: nat, ts: seq<Token>, x: Expr, rest: seq<Token>)
    requires PREC_OR <= k < hi <= PREC_UNARY
    requires ParseLevel(hi, ts) == Ok(x, rest) && HeadLevel(rest) <= k
    ensures ParseLevel(k, ts) == ParseChain(k, x, x, rest)
    decreases hi - k
  {
    if k + 1 < hi {
      LowerOk(hi, k + 1, ts, x, rest);
    }
  }

  lemma {:induction false} LowerErr(hi: nat, k: nat, ts: seq<Token>)
    requires PREC_OR <= k <= hi <= PREC_UNARY
    requires ParseLevel(hi, ts).Err?
    ensures ParseLevel(k, ts).Err?
    decreases hi - k
  {
    if k < hi {
      LowerErr(hi, k + 1, ts);
    }
  }

  lemma {:induction false} LowerStuck(hi: nat, k: nat, ts: seq<Token>)
    requires PREC_OR <= k <= hi <= PREC_COMPARISON
    requires ParseLevel(hi, ts).Ok? && HeadLevel(ParseLevel(hi, ts).rest) == PREC_COMPARISON
    ensures ParseLevel(k, ts) == ParseLevel(hi, ts)
    decreases hi - k
  {
    if k < hi {
      LowerStuck(hi, k + 1, ts);
    }
  }

  /** Reading at a tight level carries over to every looser one that the rest does not
      continue. */
  lemma LowerLevel(hi: nat, k: nat, e: Expr, ts: seq<Token>, rest: seq<Token>)
    requires PREC_OR <= k < hi <= PREC_UNARY
    requires hi == PREC_UNARY || hi == Prec(e)
    requires ReadsAt(hi, e, ts, rest) && HeadLevel(rest) <= k
    requires EqualityNode(e) ==> k < PREC_EQUALITY
    requires ComparisonNode(e) ==> k < PREC_COMPARISON
    ensures ReadsAt(k, e, ts, rest)
  {
    match Reparse(e)
    case Some(x) =>
      assert ParseLevel(hi, ts) == Ok(x, rest);
      LowerOk(hi, k, ts, x, rest);
    case None =>
      if ParseLevel(hi, ts).Err? {
        LowerErr(hi, k, ts);
      } else {
        LowerStuck(hi, k, ts);
      }
  }

  lemma ClosesSuffixes(x: Expr, rest: seq<Token>)
    requires HeadLevel(rest) < PREC_CALL
    ensures ParseSuffixes(x, rest) == Ok(x, rest)
  {
  }

  /** A call-level reading is also a unary-level one when no suffix follows. */
  lemma CallIsUnary(e: Expr, ts: seq<Token>, rest: seq<Token>)
    requires ReadsAt(PREC_CALL, e, ts, rest) && HeadLevel(rest) < PREC_CALL
    requires ts != [] && !ts[0].Oper?
    ensures ReadsAt(PREC_UNARY, e, ts, rest)
  {
    if Reparse(e).Some? {
      ClosesSuffixes(Reparse(e).value, rest);
    }
    assert ParseUnary(ts) == ParseCall(ts);
  }

  /** Text that binds at call level begins with no operator. */
  lemma {:induction false} FirstToken(e: Expr, k: nat)
    requires NeedParens(e, k, false) || Prec(e) >= PREC_CALL
    ensures Print(e, k, false) != [] && !Print(e, k, false)[0].Oper?
    decreases e
  {
    if !NeedParens(e, k, false) {
      match e
      case Accessor(o, _) => FirstToken(o, PREC_CALL);
      case Call(f, _) => FirstToken(f, PREC_CALL);
      case Index(x, _) => FirstToken(x, PREC_CALL);
      case Variable(name) => NameIsNoOperator(name);
      case _ =>
    }
  }

  lemma NameIsNoOperator(name: string)
    ensures !NameToken(name).Oper? && !NameToken(name).AssignTok? && NameToken(name) != LParen
    ensures NameToken(name) != WhenTok && NameToken(name) != ForTok
    ensures !MemberToken(name).Oper?
  {
  }

  lemma {:induction false} FirstTokenOfText(e: Expr, k: nat)
    ensures Print(e, k, false) != []
    ensures Print(e, k, false)[0] != RParen && Print(e, k, false)[0] != Number(INT64_MAX + 1)
    decreases e
  {
    if !NeedParens(e, k, false) {
      match e
      case Accessor(o, _) => FirstTokenOfText(o, PREC_CALL);
      case Call(f, _) => FirstTokenOfText(f, PREC_CALL);
      case Index(x, _) => FirstTokenOfText(x, PREC_CALL);
      case Binary(op, l, _) => FirstTokenOfText(l, BinOpPrec(op));
      case Assign(_, t, _) => FirstTokenOfText(t, PREC_ASSIGN);
      case _ =>
    }
  }

  lemma SuperIsBare()
    ensures NameToken("super") == SuperTok
  {
    assert !PrinterKeyword("super");
  }

  // ---- Which arguments read as named ----------------------------------------------------------

  lemma {:induction false} NoName(e: Expr, k: nat, rest: seq<Token>)
    requires NeedParens(e, k, false) || Prec(e) >= PREC_OR
    requires e.Variable? ==> rest == [] || !rest[0].AssignTok?
    ensures !NamesArgument(Print(e, k, false) + rest)
    decreases e, 0
  {
    if NeedParens(e, k, false) {
      assert (Print(e, k, false) + rest)[0] == LParen;
    } else {
      match e
      case Accessor(o, m) =>
        NoNameBefore(o, PREC_CALL, [Dot, MemberToken(m)], rest);
      case Call(f, args) => NoNameBefore(f, PREC_CALL, [LParen] + PrintArgs(args) + [RParen], rest);
      case Index(x, indices) => NoNameBefore(x, PREC_CALL, [LBrack] + PrintIndices(indices) + [RBrack], rest);
      case Binary(op, l, r) =>
        HeadOfOperator(op, Print(r, BinOpPrec(op), true));
        NoNameBefore(l, BinOpPrec(op), BinOpTokens(op) + Print(r, BinOpPrec(op), true), rest);
      case Variable(name) => NameIsNoOperator(name);
      case _ =>
    }
  }

  lemma {:induction false} NoNameBefore(e: Expr, k: nat, mid: seq<Token>, rest: seq<Token>)
    requires NeedParens(e, k, false) || Prec(e) >= PREC_OR
    requires mid != [] && !mid[0].AssignTok?
    ensures !NamesArgument(Print(e, k, false) + mid + rest)
    decreases e, 1
  {
    NoName(e, k, mid + rest);
    Assoc(Print(e, k, false), mid, rest);
  }

  lemma {:induction false} CapturedText(e: Expr, rest: seq<Token>)
    requires e.Assign? || rest == [] || !rest[0].AssignTok?
    ensures NamesArgument(Print(e, 0, false) + rest) <==> Captured(e)
    ensures Captured(e) ==> (Print(e, 0, false) + rest)[0].Ident?
    decreases e
  {
    if e.Assign? {
      var tail := [AssignTok(e.copyInto)] + Print(e.source, 0, false) + rest;
      assert Print(e, 0, false) + rest == Print(e.target, PREC_ASSIGN, false) + tail;
      FirstTokenOfText(e.target, PREC_ASSIGN);
      if e.target.Assign? {
        CapturedText(e.target, tail);
        assert Print(e.target, PREC_ASSIGN, false) == Print(e.target, 0, false);
      } else if e.target.Variable? {
        NameIsNoOperator(e.target.name);
        assert Print(e.target, PREC_ASSIGN, false) == [NameToken(e.target.name)];
      } else {
        NoName(e.target, PREC_ASSIGN, tail);
      }
    } else {
      NoName(e, 0, rest);
    }
  }

  // ---- Single steps of the parser -------------------------------------------------------------

  lemma StepAssign(ts: seq<Token>, t: Expr, c: bool, tail: seq<Token>)
    requires ParseCall(ts) == Ok(t, [AssignTok(c)] + tail)
    ensures ParseAssignment(ts) == match ParseAssignment(tail)
      case Ok(s, rest) => Ok(Assign(c, t, s), rest)
      case Err => Err
  {
    assert ([AssignTok(c)] + tail)[1..] == tail;
  }

  lemma StepLogic(ts: seq<Token>)
    requires ParseCall(ts).Ok? ==> ParseCall(ts).rest == [] || !ParseCall(ts).rest[0].AssignTok?
    ensures ParseAssignment(ts) == ParseLevel(PREC_OR, ts)
  {
  }

  lemma StepPrefix(op: UnaryOp, ts: seq<Token>)
    requires !LeastInt64Literal(ts)
    ensures ParseUnary([UnaryToken(op)] + ts) == match ParseUnary(ts)
      case Err => Err
      case Ok(arg, rest) => (match FoldUnary(op, arg) case None => Err case Some(e) => Ok(e, rest))
  {
    assert ([UnaryToken(op)] + ts)[1..] == ts;
  }

  lemma StepPrimary(t: Token, rest: seq<Token>)
    requires HeadLevel(rest) < PREC_CALL
    requires ParsePrimary([t] + rest).Ok? && ParsePrimary([t] + rest).rest == rest
    ensures ParseCall([t] + rest) == ParsePrimary([t] + rest)
  {
    ClosesSuffixes(ParsePrimary([t] + rest).value, rest);
  }

  lemma StepOperand(k: nat, op: BinaryOp, first: Expr, lhs: Expr, right: seq<Token>)
    requires k == BinOpPrec(op)
    ensures ParseChain(k, first, lhs, BinOpTokens(op) + right) == match ParseLevel(k + 1, right)
      case Err => Err
      case Ok(y, rest) =>
        if k == PREC_COMPARISON then Ok(Binary(op, lhs, y), rest)
        else if k == PREC_EQUALITY then ParseChain(k, first, Binary(op, first, y), rest)
        else ParseChain(k, first, Binary(op, lhs, y), rest)
  {
    HeadOfOperator(op, right);
  }

  /** Off the equality level the first operand plays no part, as only the fold counts. */
  lemma ChainFirstUnused(k: nat, first: Expr, first': Expr, lhs: Expr, ts: seq<Token>)
    requires PREC_OR <= k < PREC_UNARY && k != PREC_EQUALITY
    ensures ParseChain(k, first, lhs, ts) == ParseChain(k, first', lhs, ts)
  {
    LeftLevelIsFold(k, first, lhs, ts);
    LeftLevelIsFold(k, first', lhs, ts);
  }

  lemma StepArgument(ts: seq<Token>, more: seq<Token>)
    requires ts != [] && ts[0] != RParen
    ensures var r := ParseArgument(ts);
      && (r.Err? ==> ParseArgs(ts).Err?)
      && (r.Ok? && r.rest != [] && (r.rest[0].Oper? || r.rest[0].AssignTok?) ==> ParseArgs(ts).Err?)
      && (r.Ok? && r.rest == [RParen] + more ==> ParseArgs(ts) == Ok([r.value], more))
      && (r.Ok? && r.rest == [Comma] + more ==>
            ParseArgs(ts) == match ParseArgs(more) case Err => Err case Ok(xs, rest) => Ok([r.value] + xs, rest))
  {
    assert ([RParen] + more)[1..] == more && ([Comma] + more)[1..] == more;
  }

  lemma StepCallSuffix(x: Expr, inner: seq<Token>)
    ensures ParseArgs(inner).Err? ==> ParseSuffixes(x, [LParen] + inner).Err?
    ensures ParseArgs(inner).Ok? ==>
      ParseSuffixes(x, [LParen] + inner) == ParseSuffixes(Call(x, ParseArgs(inner).value), ParseArgs(inner).rest)
  {
    assert ([LParen] + inner)[1..] == inner;
  }

  lemma StepIndexSuffix(x: Expr, inner: seq<Token>)
    ensures ParseIndices(inner).Err? ==> ParseSuffixes(x, [LBrack] + inner).Err?
    ensures ParseIndices(inner).Ok? ==>
      ParseSuffixes(x, [LBrack] + inner) == ParseSuffixes(Index(x, ParseIndices(inner).value), ParseIndices(inner).rest)
  {
    assert ([LBrack] + inner)[1..] == inner;
  }

  lemma Assoc(a: seq<Token>, b: seq<Token>, c: seq<Token>)
    ensures a + b + c == a + (b + c)
  {
  }

  lemma BracketText(x: seq<Token>, open: Token, inner: seq<Token>, close: Token, rest: seq<Token>)
    ensures x + ([open] + inner + [close]) + rest == x + ([open] + (inner + ([close] + rest)))
  {
    Assoc(x, [open] + inner + [close], rest);
    Assoc([open] + inner, [close], rest);
    Assoc([open], inner, [close] + rest);
  }

  lemma CallText(e: Expr, rest: seq<Token>)
    requires e.Call?
    ensures Body(e) + rest ==
      Print(e.callable, PREC_CALL, false) + ([LParen] + (PrintArgs(e.args) + ([RParen] + rest)))
  {
    BracketText(Print(e.callable, PREC_CALL, false), LParen, PrintArgs(e.args), RParen, rest);
  }

  lemma IndexText(e: Expr, rest: seq<Token>)
    requires e.Index?
    ensures Body(e) + rest ==
      Print(e.indexable, PREC_CALL, false) + ([LBrack] + (PrintIndices(e.indices) + ([RBrack] + rest)))
  {
    BracketText(Print(e.indexable, PREC_CALL, false), LBrack, PrintIndices(e.indices), RBrack, rest);
  }

  lemma AssignText(e: Expr, rest: seq<Token>)
    requires e.Assign?
    ensures Body(e) + rest ==
      Print(e.target, PREC_ASSIGN, false) + ([AssignTok(e.copyInto)] + (Print(e.source, 0, false) + rest))
  {
    Assoc(Print(e.target, PREC_ASSIGN, false), [AssignTok(e.copyInto)] + Print(e.source, 0, false), rest);
    Assoc([AssignTok(e.copyInto)], Print(e.source, 0, false), rest);
  }

  lemma OperationText(e: Expr, rest: seq<Token>)
    requires e.Binary?
    ensures Body(e) + rest ==
      Print(e.lhs, BinOpPrec(e.op), false) + (BinOpTokens(e.op) + (Print(e.rhs, BinOpPrec(e.op), true) + rest))
  {
    Assoc(Print(e.lhs, BinOpPrec(e.op), false), BinOpTokens(e.op) + Print(e.rhs, BinOpPrec(e.op), true), rest);
    Assoc(BinOpTokens(e.op), Print(e.rhs, BinOpPrec(e.op), true), rest);
  }

  // ---- Reading the printed text -----------------------------------------------------------------

  lemma {:induction false} ReadAssignment(e: Expr, rest: seq<Token>)
    requires Closing(rest)
    ensures Outcome(ParseAssignment(Print(e, 0, false) + rest), Reparse(e), rest)
    decreases e, 6
  {
    if e.Assign? {
      var tail := Print(e.source, 0, false) + rest;
      ReadAssignment(e.source, rest);
      ReadAssignOnto(e.copyInto, e.target, tail, Reparse(e.source), rest);
      AssignText(e, rest);
    } else {
      ReadLogic(e, rest);
    }
  }

  lemma {:induction false} ReadLogic(e: Expr, rest: seq<Token>)
    requires Closing(rest) && !e.Assign?
    ensures Outcome(ParseAssignment(Print(e, 0, false) + rest), Reparse(e), rest)
    decreases e, 5
  {
    CallPrefix(e, rest);
    StepLogic(Body(e) + rest);
    ReadBare(PREC_OR, e, rest);
    ClosedChain(PREC_OR, e, Body(e) + rest, rest);
  }

  lemma ClosedChain(k: nat, e: Expr, ts: seq<Token>, rest: seq<Token>)
    requires PREC_OR <= k < PREC_EQUALITY && ReadsAt(k, e, ts, rest) && HeadLevel(rest) < k
    ensures Outcome(ParseLevel(k, ts), Reparse(e), rest)
  {
  }

  lemma {:induction false} ReadAssignOnto(c: bool, target: Expr, tail: seq<Token>, source: Option<Expr>,
                                          rest: seq<Token>)
    requires Outcome(ParseAssignment(tail), source, rest)
    ensures Outcome(ParseAssignment(Print(target, PREC_ASSIGN, false) + ([AssignTok(c)] + tail)),
                    if source.None? then None else AssignOnto(c, target, source.value), rest)
    decreases target, 8
  {
    var after := [AssignTok(c)] + tail;
    if target.Assign? {
      var tail' := Print(target.source, PREC_ASSIGN, false) + after;
      assert Print(target.source, PREC_ASSIGN, false) == Print(target.source, 0, false);
      ReadAssignOnto(c, target.source, tail, source, rest);
      ReadAssignOnto(target.copyInto, target.target, tail',
                     if source.None? then None else AssignOnto(c, target.source, source.value), rest);
      assert Print(target, PREC_ASSIGN, false) == Body(target);
      AssignText(target, after);
    } else if Prec(target) < PREC_CALL {
      ReadLooseTarget(target, after);
    } else {
      ReadCallTarget(c, target, tail);
    }
  }

  /** A target that binds looser than a call leaves the assignment sign unread. */
  lemma {:induction false} ReadLooseTarget(target: Expr, after: seq<Token>)
    requires PREC_OR <= Prec(target) < PREC_CALL && after != [] && after[0].AssignTok?
    ensures Stuck(ParseAssignment(Body(target) + after))
    decreases target, 7
  {
    CallPrefix(target, after);
    StepLogic(Body(target) + after);
    ReadBare(PREC_OR, target, after);
  }

  lemma {:induction false} ReadCallTarget(c: bool, target: Expr, tail: seq<Token>)
    requires Prec(target) >= PREC_CALL
    ensures ParseAssignment(Body(target) + ([AssignTok(c)] + tail)) ==
      match (Reparse(target), ParseAssignment(tail))
      case (Some(t), Ok(s, rest)) => Ok(Assign(c, t, s), rest)
      case _ => Err
    decreases target, 7
  {
    var after := [AssignTok(c)] + tail;
    ReadBare(PREC_CALL, target, after);
    match Reparse(target)
    case Some(t) =>
      ClosesSuffixes(t, after);
      StepAssign(Body(target) + after, t, c, tail);
    case None =>
      FirstToken(target, PREC_CALL);
      RejectedCall(Body(target) + after);
  }

  /** A rejected call-level text is rejected at every looser level. */
  lemma RejectedCall(ts: seq<Token>)
    requires ParseCall(ts).Err? && ts != [] && !ts[0].Oper?
    ensures ParseAssignment(ts).Err?
  {
    assert ParseUnary(ts) == ParseCall(ts);
    LowerErr(PREC_UNARY, PREC_OR, ts);
  }

  /** Where a call-level reader may stop in a text that begins no loose assignment: at an
      operator, or after all of a call-level text. */
  predicate StopsAtOperator(r: Parsed<Expr>, e: Expr, rest: seq<Token>) {
    r.Err? || (r.rest != [] && r.rest[0].Oper?) || (Prec(e) >= PREC_CALL && r.rest == rest)
  }

  lemma {:induction false} CallPrefix(e: Expr, rest: seq<Token>)
    requires Prec(e) >= PREC_OR && HeadLevel(rest) < PREC_CALL
    ensures StopsAtOperator(ParseCall(Body(e) + rest), e, rest)
    decreases e, 4
  {
    if Prec(e) >= PREC_CALL {
      ReadBody(e, rest);
      if Reparse(e).Some? {
        ClosesSuffixes(Reparse(e).value, rest);
      }
    } else if e.Binary? {
      var k := BinOpPrec(e.op);
      var after := BinOpTokens(e.op) + (Print(e.rhs, k, true) + rest);
      HeadOfOperator(e.op, Print(e.rhs, k, true) + rest);
      OperationText(e, rest);
      CallPrefixOfOperand(k, e.lhs, after);
    } else {
      assert (Body(e) + rest)[0].Oper?;
      RejectedOperator(Body(e) + rest);
    }
  }

  lemma RejectedOperator(ts: seq<Token>)
    requires ts != [] && ts[0].Oper?
    ensures ParseCall(ts).Err?
  {
  }

  lemma {:induction false} CallPrefixOfOperand(k: nat, e: Expr, after: seq<Token>)
    requires PREC_OR <= k <= PREC_FACTOR
    requires HeadLevel(after) < PREC_CALL && after != [] && after[0].Oper?
    ensures var r := ParseCall(Print(e, k, false) + after); r.Err? || (r.rest != [] && r.rest[0].Oper?)
    decreases e, 8
  {
    if NeedParens(e, k, false) {
      ReadParen(e, after);
      if Reparse(e).Some? {
        ClosesSuffixes(Reparse(e).value, after);
      }
    } else {
      CallPrefix(e, after);
    }
  }

  lemma ParenText(body: seq<Token>, rest: seq<Token>)
    ensures [LParen] + body + [RParen] + rest == [LParen] + (body + ([RParen] + rest))
  {
    Assoc([LParen] + body, [RParen], rest);
    Assoc([LParen], body, [RParen] + rest);
  }

  /** A parenthesised text is read as what stands between the parentheses. */
  lemma StepParen(inner: seq<Token>, e: Option<Expr>, rest: seq<Token>)
    requires Outcome(ParseAssignment(inner), e, [RParen] + rest)
    ensures e.Some? ==> ParsePrimary([LParen] + inner) == Ok(e.value, rest)
    ensures e.None? ==> ParsePrimary([LParen] + inner).Err?
  {
    assert ([LParen] + inner)[1..] == inner && ([RParen] + rest)[1..] == rest;
  }

  lemma {:induction false} ReadParen(e: Expr, rest: seq<Token>)
    ensures match Reparse(e)
      case Some(x) => ParsePrimary([LParen] + Body(e) + [RParen] + rest) == Ok(x, rest)
      case None => ParsePrimary([LParen] + Body(e) + [RParen] + rest).Err?
    decreases e, 7
  {
    ParenText(Body(e), rest);
    assert Print(e, 0, false) == Body(e);
    ReadAssignment(e, [RParen] + rest);
    StepParen(Body(e) + ([RParen] + rest), Reparse(e), rest);
  }

  /** The printed form of e, as an operand of level k. */
  lemma {:induction false} ReadLevel(k: nat, e: Expr, rest: seq<Token>)
    requires PREC_OR <= k <= PREC_CALL && HeadLevel(rest) <= k
    requires IsSuper(e) ==> rest == [] || rest[0] != Dot
    ensures ReadsAt(k, e, Print(e, k, false) + rest, rest)
    decreases e, 8
  {
    var ts := Print(e, k, false) + rest;
    if NeedParens(e, k, false) {
      ReadParen(e, rest);
      assert ReadsAt(PREC_CALL, e, ts, rest);
      if k < PREC_CALL {
        CallIsUnary(e, ts, rest);
        if k < PREC_UNARY {
          LowerParen(k, e, ts, rest);
        }
      }
    } else {
      ReadBare(k, e, rest);
    }
  }

  lemma LowerParen(k: nat, e: Expr, ts: seq<Token>, rest: seq<Token>)
    requires PREC_OR <= k < PREC_UNARY && Prec(e) < k
    requires ReadsAt(PREC_UNARY, e, ts, rest) && HeadLevel(rest) <= k
    ensures ReadsAt(k, e, ts, rest)
  {
    if Reparse(e).Some? {
      LowerOk(PREC_UNARY, k, ts, Reparse(e).value, rest);
    } else {
      LowerErr(PREC_UNARY, k, ts);
    }
  }

  lemma {:induction false} ReadBare(k: nat, e: Expr, rest: seq<Token>)
    requires PREC_OR <= k <= PREC_CALL && k <= Prec(e) && HeadLevel(rest) <= k
    requires IsSuper(e) ==> rest == [] || rest[0] != Dot
    ensures ReadsAt(k, e, Body(e) + rest, rest)
    decreases e, 4
  {
    ReadBody(e, rest);
    if Prec(e) >= PREC_CALL {
      FirstToken(e, PREC_CALL);
    }
    Loosen(k, e, Body(e) + rest, rest);
  }

  /** A text read at its own level is read alike at every looser one. */
  lemma Loosen(k: nat, e: Expr, ts: seq<Token>, rest: seq<Token>)
    requires PREC_OR <= k <= PREC_CALL && k <= Prec(e) && HeadLevel(rest) <= k
    requires ReadsAt(OwnLevel(e), e, ts, rest)
    requires Prec(e) >= PREC_CALL ==> ts != [] && !ts[0].Oper?
    ensures ReadsAt(k, e, ts, rest)
  {
    if k < PREC_CALL <= Prec(e) {
      CallIsUnary(e, ts, rest);
      if k < PREC_UNARY {
        LowerLevel(PREC_UNARY, k, e, ts, rest);
      }
    } else if k < Prec(e) < PREC_CALL {
      LowerLevel(Prec(e), k, e, ts, rest);
    }
  }

  function OwnLevel(e: Expr): nat { if Prec(e) > PREC_CALL then PREC_CALL else Prec(e) }

  lemma {:induction false} ReadBody(e: Expr, rest: seq<Token>)
    requires Prec(e) >= PREC_OR && HeadLevel(rest) <= OwnLevel(e)
    requires IsSuper(e) ==> rest == [] || rest[0] != Dot
    ensures ReadsAt(OwnLevel(e), e, Body(e) + rest, rest)
    decreases e, 3
  {
    match e
    case Literal(_) => ReadLeaf(e, rest);
    case Bool(_) => ReadLeaf(e, rest);
    case Num(num) => ReadNum(num, rest);
    case Variable(name) => ReadVariable(name, rest);
    case Unary(op, arg) => ReadUnary(op, arg, rest);
    case Accessor(o, m) => ReadAccessor(o, m, rest);
    case Binary(op, l, r) => ReadBinary(op, l, r, rest);
    case Call(f, args) => ReadCall(f, args, rest);
    case Index(x, indices) => ReadIndex(x, indices, rest);
  }

  lemma ReadLeaf(e: Expr, rest: seq<Token>)
    requires e.Literal? || e.Bool?
    ensures ReadsAt(PREC_CALL, e, Body(e) + rest, rest)
  {
    assert e.Literal? ==> e.literalType == Nil;
    assert (Body(e) + rest)[1..] == rest;
  }

  lemma {:induction false} ReadCall(f: Expr, args: seq<Argument>, rest: seq<Token>)
    ensures ReadsAt(PREC_CALL, Call(f, args), Body(Call(f, args)) + rest, rest)
    decreases Call(f, args), 2
  {
    var inner := PrintArgs(args) + ([RParen] + rest);
    CallText(Call(f, args), rest);
    ReadArgs(args, rest);
    ReadLevel(PREC_CALL, f, [LParen] + inner);
    JoinCall(f, args, Print(f, PREC_CALL, false) + ([LParen] + inner), inner, rest);
  }

  lemma JoinCall(f: Expr, args: seq<Argument>, ts: seq<Token>, inner: seq<Token>, rest: seq<Token>)
    requires ReadsAt(PREC_CALL, f, ts, [LParen] + inner)
    requires match ReparseArgs(args)
      case Some(xs) => ParseArgs(inner) == Ok(xs, rest)
      case None => ParseArgs(inner).Err?
    ensures ReadsAt(PREC_CALL, Call(f, args), ts, rest)
  {
    if Reparse(f).Some? {
      StepCallSuffix(Reparse(f).value, inner);
    }
  }

  lemma {:induction false} ReadIndex(x: Expr, indices: seq<Expr>, rest: seq<Token>)
    ensures ReadsAt(PREC_CALL, Index(x, indices), Body(Index(x, indices)) + rest, rest)
    decreases Index(x, indices), 2
  {
    var inner := PrintIndices(indices) + ([RBrack] + rest);
    IndexText(Index(x, indices), rest);
    ReadIndices(indices, rest);
    ReadLevel(PREC_CALL, x, [LBrack] + inner);
    JoinIndex(x, indices, Print(x, PREC_CALL, false) + ([LBrack] + inner), inner, rest);
  }

  lemma JoinIndex(x: Expr, indices: seq<Expr>, ts: seq<Token>, inner: seq<Token>, rest: seq<Token>)
    requires ReadsAt(PREC_CALL, x, ts, [LBrack] + inner)
    requires match ReparseIndices(indices)
      case Some(ys) => ParseIndices(inner) == Ok(ys, rest)
      case None => ParseIndices(inner).Err?
    ensures ReadsAt(PREC_CALL, Index(x, indices), ts, rest)
  {
    if Reparse(x).Some? {
      StepIndexSuffix(Reparse(x).value, inner);
    }
  }

  lemma ReadNum(num: Numeral, rest: seq<Token>)
    requires HeadLevel(rest) <= OwnLevel(Num(num))
    ensures ReadsAt(OwnLevel(Num(num)), Num(num), Body(Num(num)) + rest, rest)
  {
    var v: int := ValueOf(num);
    var ts := Body(Num(num)) + rest;
    if v >= 0 {
      assert ts[1..] == rest;
    } else {
      assert ts == [Oper(MinusSym)] + ([Number(-v)] + rest);
      ReadNegative(num, -v, rest);
    }
  }

  lemma ReadNegative(num: Numeral, n: nat, rest: seq<Token>)
    requires ValueOf(num) < 0 && n + ValueOf(num) == 0 && HeadLevel(rest) <= PREC_UNARY
    ensures ReadsAt(PREC_UNARY, Num(num), [Oper(MinusSym)] + ([Number(n)] + rest), rest)
  {
    var inner := [Number(n)] + rest;
    var ts := [Oper(MinusSym)] + inner;
    assert ts[1..] == inner && inner[1..] == rest && ts[2..] == rest;
    if n <= INT64_MAX {
      var x := ReadInteger(n).value;
      assert ParsePrimary(inner) == Ok(x, rest);
      ClosesSuffixes(x, rest);
      assert ParseUnary(inner) == Ok(x, rest);
    }
  }

  lemma ReadVariable(name: string, rest: seq<Token>)
    requires name == "super" ==> rest == [] || rest[0] != Dot
    ensures ReadsAt(PREC_CALL, Variable(name), Body(Variable(name)) + rest, rest)
  {
    NameIsNoOperator(name);
    assert (Body(Variable(name)) + rest)[1..] == rest;
    if NameToken(name) == SuperTok {
      assert name == "super";
    }
  }

  lemma {:induction false} ReadUnary(op: UnaryOp, arg: Expr, rest: seq<Token>)
    requires HeadLevel(rest) <= PREC_UNARY
    ensures ReadsAt(PREC_UNARY, Unary(op, arg), Body(Unary(op, arg)) + rest, rest)
    decreases Unary(op, arg), 2
  {
    var text := Print(arg, PREC_UNARY, false) + rest;
    assert Body(Unary(op, arg)) + rest == [UnaryToken(op)] + text;
    FirstTokenOfText(arg, PREC_UNARY);
    StepPrefix(op, text);
    ReadLevel(PREC_UNARY, arg, rest);
  }

  lemma {:induction false} ReadAccessor(o: Expr, m: string, rest: seq<Token>)
    ensures ReadsAt(PREC_CALL, Accessor(o, m), Body(Accessor(o, m)) + rest, rest)
    decreases Accessor(o, m), 2
  {
    var after := [Dot, MemberToken(m)] + rest;
    var ts := Body(Accessor(o, m)) + rest;
    Assoc(Print(o, PREC_CALL, false), [Dot, MemberToken(m)], rest);
    if IsSuper(o) {
      ReadSuperMember(o, m, rest);
    } else {
      ReadLevel(PREC_CALL, o, after);
      if Reparse(o).Some? {
        StepDotSuffix(Reparse(o).value, m, rest);
      }
    }
  }

  lemma StepDotSuffix(x: Expr, m: string, rest: seq<Token>)
    ensures ReparseMember(m).Some? ==>
      ParseSuffixes(x, [Dot, MemberToken(m)] + rest) == ParseSuffixes(Accessor(x, ReparseMember(m).value), rest)
    ensures ReparseMember(m).None? ==> ParseSuffixes(x, [Dot, MemberToken(m)] + rest).Err?
  {
    assert ([Dot, MemberToken(m)] + rest)[2..] == rest;
  }

  lemma ReadSuperMember(o: Expr, m: string, rest: seq<Token>)
    requires IsSuper(o)
    ensures ReadsAt(PREC_CALL, Accessor(o, m), Body(Accessor(o, m)) + rest, rest)
  {
    SuperIsBare();
    var ts := Body(Accessor(o, m)) + rest;
    assert ts == [SuperTok, Dot, MemberToken(m)] + rest;
    assert ts[3..] == rest;
  }

  lemma {:induction false} ReadBinary(op: BinaryOp, l: Expr, r: Expr, rest: seq<Token>)
    requires HeadLevel(rest) <= BinOpPrec(op)
    ensures ReadsAt(BinOpPrec(op), Binary(op, l, r), Body(Binary(op, l, r)) + rest, rest)
    decreases Binary(op, l, r), 2
  {
    var k := BinOpPrec(op);
    var right := Print(r, k + 1, false) + rest;
    BinaryText(Binary(op, l, r), rest);
    ReadOperands(op, l, r, Print(l, k, false) + (BinOpTokens(op) + right), right, rest);
  }

  lemma {:induction false} ReadOperands(op: BinaryOp, l: Expr, r: Expr, ts: seq<Token>, right: seq<Token>,
                                        rest: seq<Token>)
    requires HeadLevel(rest) <= BinOpPrec(op)
    requires ts == Print(l, BinOpPrec(op), false) + (BinOpTokens(op) + right)
    requires right == Print(r, BinOpPrec(op) + 1, false) + rest
    ensures ReadsAt(BinOpPrec(op), Binary(op, l, r), ts, rest)
    decreases Binary(op, l, r), 1
  {
    HeadOfOperator(op, right);
    ReadLevel(BinOpPrec(op), l, BinOpTokens(op) + right);
    ReadLevel(BinOpPrec(op) + 1, r, rest);
    JoinOperands(op, l, r, ts, right, rest);
  }

  lemma BinaryText(e: Expr, rest: seq<Token>)
    requires e.Binary?
    ensures var k := BinOpPrec(e.op);
      Body(e) + rest == Print(e.lhs, k, false) + (BinOpTokens(e.op) + (Print(e.rhs, k + 1, false) + rest))
  {
    RightText(e.rhs, BinOpPrec(e.op));
    OperationText(e, rest);
  }

  lemma RightText(r: Expr, k: nat)
    requires PREC_OR <= k <= PREC_FACTOR
    ensures Print(r, k, true) == Print(r, k + 1, false)
  {
  }

  /** Both operands read, the level has read the whole operation. */
  lemma JoinOperands(op: BinaryOp, l: Expr, r: Expr, ts: seq<Token>, right: seq<Token>, rest: seq<Token>)
    requires HeadLevel(rest) <= BinOpPrec(op)
    requires ReadsAt(BinOpPrec(op), l, ts, BinOpTokens(op) + right)
    requires ReadsAt(BinOpPrec(op) + 1, r, right, rest)
    ensures ReadsAt(BinOpPrec(op), Binary(op, l, r), ts, rest)
  {
    var k := BinOpPrec(op);
    RightOperand(op, r, right, rest);
    HeadOfOperator(op, right);
    JoinRead(k, op, l, r, ParseLevel(k, ts), right, rest);
  }

  lemma JoinRead(k: nat, op: BinaryOp, l: Expr, r: Expr, p: Parsed<Expr>, right: seq<Token>, rest: seq<Token>)
    requires k == BinOpPrec(op) == HeadLevel(BinOpTokens(op) + right)
    requires LevelReads(k, l, p, BinOpTokens(op) + right)
    requires RightRead(k, r, ParseLevel(k + 1, right), rest)
    ensures LevelReads(k, Binary(op, l, r), p, rest)
  {
    if Reparse(l).None? || (k == PREC_COMPARISON && ComparisonNode(l)) {
      RejectedOperand(k, op, l, r, p, rest);
    } else {
      var x := Reparse(l).value;
      var first := FirstOperand(k, l, x);
      StepOperand(k, op, first, x, right);
      if Reparse(r).None? {
        RejectedOperand(k, op, l, r, p, rest);
      } else {
        var e := Binary(op, x, Reparse(r).value);
        if k != PREC_COMPARISON && k != PREC_EQUALITY {
          ChainFirstUnused(k, first, e, e, rest);
        }
        AcceptedOperands(k, op, l, r, x, Reparse(r).value, p, rest);
      }
    }
  }

  /** The first operand of the chain that the parser of level k is in after e, read as x. */
  function FirstOperand(k: nat, e: Expr, x: Expr): Expr
    requires EqualityNode(e) ==> x.Binary?
  {
    if k == PREC_EQUALITY && EqualityNode(e) then x.lhs else x
  }

  lemma RejectedOperand(k: nat, op: BinaryOp, l: Expr, r: Expr, p: Parsed<Expr>, rest: seq<Token>)
    requires k == BinOpPrec(op)
    requires Reparse(l).None? || Reparse(r).None? || (k == PREC_COMPARISON && ComparisonNode(l))
    requires p.Err? || (k <= PREC_COMPARISON && HeadLevel(p.rest) == PREC_COMPARISON)
    ensures LevelReads(k, Binary(op, l, r), p, rest)
  {
  }

  lemma AcceptedOperands(k: nat, op: BinaryOp, l: Expr, r: Expr, x: Expr, y: Expr, p: Parsed<Expr>, rest: seq<Token>)
    requires k == BinOpPrec(op) && Reparse(l) == Some(x) && Reparse(r) == Some(y)
    requires !(k == PREC_COMPARISON && ComparisonNode(l))
    requires var z := Binary(op, FirstOperand(k, l, x), y);
      p == if k == PREC_COMPARISON then Ok(z, rest)
           else ParseChain(k, if k == PREC_EQUALITY then FirstOperand(k, l, x) else z, z, rest)
    ensures LevelReads(k, Binary(op, l, r), p, rest)
  {
    assert Reparse(Binary(op, l, r)) == Some(Binary(op, FirstOperand(k, l, x), y));
  }

  /** After an operator of level k its right operand is read, and nothing else. */
  predicate RightRead(k: nat, r: Expr, q: Parsed<Expr>, rest: seq<Token>) {
    match Reparse(r)
    case Some(y) => q == Ok(y, rest)
    case None => q.Err? || (k < PREC_COMPARISON && HeadLevel(q.rest) == PREC_COMPARISON)
  }

  lemma RightOperand(op: BinaryOp, r: Expr, right: seq<Token>, rest: seq<Token>)
    requires HeadLevel(rest) <= BinOpPrec(op)
    requires ReadsAt(BinOpPrec(op) + 1, r, right, rest)
    ensures RightRead(BinOpPrec(op), r, ParseLevel(BinOpPrec(op) + 1, right), rest)
  {
  }

  // ---- Argument and index lists ---------------------------------------------------------------

  lemma NamedSplit(ts: seq<Token>)
    requires NamesArgument(ts) && ts[0].Ident?
    ensures ParseAssignment(ts) == match ParseAssignment(ts[2..])
      case Ok(s, rest) => Ok(Assign(false, Variable(ts[0].name), s), rest)
      case Err => Err
  {
    var after := [AssignTok(false)] + ts[2..];
    assert ts == [ts[0]] + after;
    assert ts[1..] == after;
    StepPrimary(ts[0], after);
    StepAssign(ts, Variable(ts[0].name), false, ts[2..]);
  }

  predicate StuckArgument(r: Parsed<Argument>) {
    r.Err? || (r.rest != [] && (r.rest[0].Oper? || r.rest[0].AssignTok?))
  }

  lemma {:induction false} ReadArgument(a: Argument, rest: seq<Token>)
    requires Closing(rest)
    ensures match ReparseArgument(a)
      case Some(y) => ParseArgument(PrintArgument(a) + rest) == Ok(y, rest)
      case None => StuckArgument(ParseArgument(PrintArgument(a) + rest))
    decreases a, 0
  {
    var text := Print(a.expr, 0, false) + rest;
    ReadAssignment(a.expr, rest);
    ArgumentText(a, rest);
    if a.param == "" {
      CapturedText(a.expr, rest);
      ReadPositional(a.expr, text, rest);
    } else {
      ReadNamed(a.param, a.expr, text, rest);
    }
  }

  lemma ArgumentText(a: Argument, rest: seq<Token>)
    ensures PrintArgument(a) + rest ==
      if a.param == "" then Print(a.expr, 0, false) + rest
      else [NameToken(a.param), AssignTok(false)] + (Print(a.expr, 0, false) + rest)
  {
    if a.param != "" {
      Assoc([NameToken(a.param), AssignTok(false)], Print(a.expr, 0, false), rest);
    }
  }

  lemma ReadPositional(e: Expr, text: seq<Token>, rest: seq<Token>)
    requires Outcome(ParseAssignment(text), Reparse(e), rest)
    requires NamesArgument(text) <==> Captured(e)
    requires Captured(e) ==> text[0].Ident?
    ensures match ReparseArgument(Argument("", e))
      case Some(y) => ParseArgument(text) == Ok(y, rest)
      case None => StuckArgument(ParseArgument(text))
  {
    if Captured(e) {
      NamedSplit(text);
    }
  }

  lemma ReadNamed(param: string, e: Expr, text: seq<Token>, rest: seq<Token>)
    requires param != "" && Outcome(ParseAssignment(text), Reparse(e), rest)
    ensures match ReparseArgument(Argument(param, e))
      case Some(y) => ParseArgument([NameToken(param), AssignTok(false)] + text) == Ok(y, rest)
      case None => StuckArgument(ParseArgument([NameToken(param), AssignTok(false)] + text))
  {
    var ts := [NameToken(param), AssignTok(false)] + text;
    assert ts[2..] == text;
    NameIsNoOperator(param);
    if !NameToken(param).Ident? {
      ReadNamelessArgument(param, text);
    }
  }

  /** A parameter name the lexer does not read as a name turns its argument into an
      assignment, or into an error. */
  lemma ReadNamelessArgument(param: string, text: seq<Token>)
    requires !NameToken(param).Ident?
    ensures ParseAssignment([NameToken(param), AssignTok(false)] + text) ==
      match (ReparseName(param), ParseAssignment(text))
      case (Some(t), Ok(s, rest)) => Ok(Assign(false, t, s), rest)
      case _ => Err
  {
    var after := [AssignTok(false)] + text;
    var ts := [NameToken(param)] + after;
    assert ts == [NameToken(param), AssignTok(false)] + text;
    assert after[1..] == text && ts[1..] == after;
    NameIsNoOperator(param);
    match ReparseName(param)
    case Some(t) =>
      StepPrimary(NameToken(param), after);
      StepAssign(ts, t, false, text);
    case None => RejectedCall(ts);
  }

  lemma {:induction false} ReadArgs(args: seq<Argument>, rest: seq<Token>)
    ensures match ReparseArgs(args)
      case Some(xs) => ParseArgs(PrintArgs(args) + ([RParen] + rest)) == Ok(xs, rest)
      case None => ParseArgs(PrintArgs(args) + ([RParen] + rest)).Err?
    decreases args, 0
  {
    var close := [RParen] + rest;
    ArgsText(args, close);
    if args == [] {
      assert close[1..] == rest;
    } else {
      var first := PrintArgument(args[0]);
      ArgumentBegins(args[0]);
      if |args| == 1 {
        ReadArgument(args[0], close);
        StepArgument(first + close, rest);
        OneArgument(args);
      } else {
        var more := PrintArgs(args[1..]) + close;
        ReadArgument(args[0], [Comma] + more);
        ReadArgs(args[1..], rest);
        StepArgument(first + ([Comma] + more), more);
      }
    }
  }

  lemma ArgsText(args: seq<Argument>, close: seq<Token>)
    ensures PrintArgs(args) + close ==
      if args == [] then close
      else if |args| == 1 then PrintArgument(args[0]) + close
      else PrintArgument(args[0]) + ([Comma] + (PrintArgs(args[1..]) + close))
  {
    if args == [] {
      assert [] + close == close;
    } else if |args| == 1 {
      assert PrintArgument(args[0]) + [] == PrintArgument(args[0]);
    } else {
      Assoc(PrintArgument(args[0]), [Comma] + PrintArgs(args[1..]), close);
      Assoc([Comma], PrintArgs(args[1..]), close);
    }
  }

  lemma ArgumentBegins(a: Argument)
    ensures PrintArgument(a) != [] && PrintArgument(a)[0] != RParen
  {
    FirstTokenOfText(a.expr, 0);
  }

  lemma OneArgument(args: seq<Argument>)
    requires |args| == 1
    ensures ReparseArgs(args) ==
      if ReparseArgument(args[0]).None? then None else Some([ReparseArgument(args[0]).value])
  {
    assert args[1..] == [];
    if ReparseArgument(args[0]).Some? {
      assert [ReparseArgument(args[0]).value] + [] == [ReparseArgument(args[0]).value];
    }
  }

  lemma {:induction false} ReadIndices(indices: seq<Expr>, rest: seq<Token>)
    ensures match ReparseIndices(indices)
      case Some(xs) => ParseIndices(PrintIndices(indices) + ([RBrack] + rest)) == Ok(xs, rest)
      case None => ParseIndices(PrintIndices(indices) + ([RBrack] + rest)).Err?
    decreases indices, 0
  {
    var close := [RBrack] + rest;
    IndicesText(indices, close);
    if indices == [] {
      RejectedCall(close);
    } else if |indices| == 1 {
      ReadAssignment(indices[0], close);
      StepIndex(Print(indices[0], 0, false) + close, rest);
    } else {
      var more := PrintIndices(indices[1..]) + close;
      ReadAssignment(indices[0], [Comma] + more);
      ReadIndices(indices[1..], rest);
      StepIndex(Print(indices[0], 0, false) + ([Comma] + more), more);
    }
  }

  lemma IndicesText(indices: seq<Expr>, close: seq<Token>)
    ensures PrintIndices(indices) + close ==
      if indices == [] then close
      else if |indices| == 1 then Print(indices[0], 0, false) + close
      else Print(indices[0], 0, false) + ([Comma] + (PrintIndices(indices[1..]) + close))
  {
    if indices == [] {
      assert [] + close == close;
    } else if |indices| == 1 {
      assert Print(indices[0], 0, false) + [] == Print(indices[0], 0, false);
    } else {
      Assoc(Print(indices[0], 0, false), [Comma] + PrintIndices(indices[1..]), close);
      Assoc([Comma], PrintIndices(indices[1..]), close);
    }
  }

  lemma StepIndex(ts: seq<Token>, more: seq<Token>)
    ensures var r := ParseAssignment(ts);
      && (Stuck(r) ==> ParseIndices(ts).Err?)
      && (r.Ok? && r.rest == [RBrack] + more ==> ParseIndices(ts) == Ok([r.value], more))
      && (r.Ok? && r.rest == [Comma] + more ==>
            ParseIndices(ts) == match ParseIndices(more) case Err => Err case Ok(xs, rest) => Ok([r.value] + xs, rest))
  {
    assert ([RBrack] + more)[1..] == more && ([Comma] + more)[1..] == more;
  }

  // ---- Exactly which trees survive the round trip -----------------------------------------------

  /** The text of a tree is read as Reparse says, tokens to the last. */
  lemma PrintedTextIsRead(e: Expr)
    ensures ParseExpression(Print(e, 0, false)) == Reparse(e)
  {
    ReadAssignment(e, []);
    assert Print(e, 0, false) + [] == Print(e, 0, false);
  }

  /** A name the printer writes so that the lexer reads a name. */
  predicate SafeName(name: string) { PrinterKeyword(name) || !BareReserved(name) }

  /** The trees a caller may print and read back: numbers stored at the width a reader
      gives them, no sign or 'not' left on a literal, no equality or comparison directly
      left of one of its own level, call-level assignment targets, indices present, names
      the lexer takes as names, and no positional argument that begins 'name ='. */
  predicate Canonical(e: Expr)
    decreases e, 0
  {
    match e
    case Literal(_) => true
    case Bool(_) => true
    case Num(num) => CanonicalNum(num)
    case Variable(name) => SafeName(name) || name == "this"
    case Unary(op, arg) => Canonical(arg) && !(op == Negate && arg.Num?) && !(op == Not && arg.Bool?)
    case Accessor(o, m) =>
      if IsSuper(o) then SafeName(m) && m != "when" && m != "emit" && m != "match"
      else Canonical(o) && SafeName(m)
    case Binary(op, l, r) =>
      Canonical(l) && Canonical(r)
      && !(EqualityNode(e) && EqualityNode(l)) && !(ComparisonNode(e) && ComparisonNode(l))
    case Call(f, args) => Canonical(f) && forall a | a in args :: CanonicalArgument(a)
    case Index(x, indices) => Canonical(x) && indices != [] && forall i | i in indices :: Canonical(i)
    case Assign(_, target, source) =>
      Canonical(target) && Canonical(source) && Prec(target) >= PREC_CALL
  }

  predicate CanonicalNum(num: Numeral) {
    match num case Narrow(n) => n > -INT32_MAX - 1 case Wide(w) => w < -INT32_MAX || w > INT32_MAX
  }

  predicate CanonicalArgument(a: Argument)
    decreases a, 0
  {
    Canonical(a.expr)
    && if a.param == ""
       then !(a.expr.Assign? && !a.expr.copyInto && a.expr.target.Variable? && a.expr.target.name != "this")
       else SafeName(a.param)
  }

  lemma LexName(name: string)
    ensures NameToken(name).Ident? <==> SafeName(name)
    ensures NameToken(name).Ident? ==> NameToken(name).name == name
    ensures ReparseName(name) == Some(Variable(name)) <==> SafeName(name) || name == "this"
  {
  }

  lemma LexMember(m: string)
    ensures ReparseMember(m) == Some(m) <==> SafeName(m)
    ensures ReparseMember(m).Some? ==> ReparseMember(m).value == m
    ensures MemberToken(m).Ident? <==> SafeName(m) && m != "when" && m != "emit" && m != "match"
    ensures MemberToken(m).Ident? ==> MemberToken(m).name == m
  {
  }

  function Size(e: Expr): (n: nat)
    ensures n > 0
    decreases e, 0
  {
    match e
    case Unary(_, arg) => 1 + Size(arg)
    case Accessor(o, _) => 1 + Size(o)
    case Binary(_, l, r) => 1 + Size(l) + Size(r)
    case Call(f, args) => 1 + Size(f) + SizeArgs(args)
    case Index(x, indices) => 1 + Size(x) + SizeIndices(indices)
    case Assign(_, t, s) => 1 + Size(t) + Size(s)
    case _ => 1
  }

  function SizeArgs(args: seq<Argument>): nat
    decreases args, 0
  {
    if args == [] then 0
    else SizeArgument(args[0]) + SizeArgs(args[1..])
  }

  /** A name counts as the assignment it looks like. */
  function SizeArgument(a: Argument): nat
    decreases a, 0
  {
    (if a.param == "" then 0 else 2) + Size(a.expr)
  }

  function SizeIndices(indices: seq<Expr>): nat
    decreases indices, 0
  {
    if indices == [] then 0 else Size(indices[0]) + SizeIndices(indices[1..])
  }

  /** Nothing is invented: the tree read back is never larger. */
  lemma {:induction false} ReparseShrinks(e: Expr)
    ensures Reparse(e).Some? ==> Size(Reparse(e).value) <= Size(e)
    decreases e, 1
  {
    match e
    case Unary(_, arg) => ReparseShrinks(arg);
    case Accessor(o, _) => ReparseShrinks(o);
    case Binary(_, l, r) => ReparseShrinks(l); ReparseShrinks(r);
    case Call(f, args) => ReparseShrinks(f); ArgsShrink(args);
    case Index(x, indices) => ReparseShrinks(x); IndicesShrink(indices);
    case Assign(c, t, s) =>
      ReparseShrinks(s);
      if Reparse(s).Some? {
        AssignOntoShrinks(c, t, Reparse(s).value);
      }
    case _ =>
  }

  lemma {:induction false} AssignOntoShrinks(c: bool, target: Expr, source: Expr)
    ensures var r := AssignOnto(c, target, source); r.Some? ==>
      && Size(r.value) <= 1 + Size(target) + Size(source)
      && (if target.Assign? then Size(r.value.target) < Size(target) else Reparse(target) == Some(r.value.target))
    decreases target, 2
  {
    if target.Assign? {
      AssignOntoShrinks(c, target.source, source);
      var inner := AssignOnto(c, target.source, source);
      if inner.Some? {
        AssignOntoShrinks(target.copyInto, target.target, inner.value);
        ReparseShrinks(target.target);
      }
    } else {
      ReparseShrinks(target);
    }
  }

  lemma {:induction false} ArgumentShrinks(a: Argument)
    ensures ReparseArgument(a).Some? ==> SizeArgument(ReparseArgument(a).value) <= SizeArgument(a)
    decreases a, 0
  {
    ReparseShrinks(a.expr);
    NamesAreSmall(a.param);
    if ReparseArgument(a).Some? {
      var x := Reparse(a.expr).value;
      if a.param == "" && Captured(a.expr) && x.Assign? && x.target.Variable? {
        assert Size(x) == 2 + Size(x.source);
      }
    }
  }

  lemma NamesAreSmall(name: string)
    ensures ReparseName(name).Some? ==> Size(ReparseName(name).value) == 1
    ensures ReparseName(name).Some? ==>
      forall s: Expr :: Size(Assign(false, ReparseName(name).value, s)) == 2 + Size(s)
  {
  }

  lemma {:induction false} ArgsShrink(args: seq<Argument>)
    ensures ReparseArgs(args).Some? ==> SizeArgs(ReparseArgs(args).value) <= SizeArgs(args)
    decreases args, 0
  {
    if args != [] && ReparseArgs(args).Some? {
      ArgumentShrinks(args[0]);
      ArgsShrink(args[1..]);
      var a := ReparseArgument(args[0]).value;
      var more := ReparseArgs(args[1..]).value;
      assert ([a] + more)[1..] == more;
    }
  }

  lemma {:induction false} IndicesShrink(indices: seq<Expr>)
    ensures ReparseIndices(indices).Some? ==> SizeIndices(ReparseIndices(indices).value) <= SizeIndices(indices)
    decreases indices, 0
  {
    if indices != [] && ReparseIndices(indices).Some? {
      ReparseShrinks(indices[0]);
      var x := Reparse(indices[0]).value;
      if |indices| > 1 {
        IndicesShrink(indices[1..]);
        var more := ReparseIndices(indices[1..]).value;
        assert ([x] + more)[1..] == more;
      } else {
        assert indices[1..] == [] && [x][1..] == [];
      }
    }
  }

  /** Reading a printed tree gives that tree back exactly for the canonical ones. */
  lemma {:induction false} FixedIffCanonical(e: Expr)
    ensures Reparse(e) == Some(e) <==> Canonical(e)
    decreases e, 1
  {
    match e
    case Literal(_) =>
    case Bool(_) =>
    case Num(_) =>
    case Variable(name) => LexName(name);
    case Unary(_, arg) => FixedIffCanonical(arg);
    case Accessor(o, m) =>
      LexMember(m);
      FixedIffCanonical(o);
    case Binary(_, l, r) => FixedBinary(e);
    case Call(f, args) =>
      FixedIffCanonical(f);
      FixedArgs(args);
    case Index(x, indices) =>
      FixedIffCanonical(x);
      FixedIndices(indices);
    case Assign(c, t, s) =>
      FixedIffCanonical(t);
      FixedIffCanonical(s);
      if Reparse(s).Some? {
        AssignOntoShrinks(c, t, Reparse(s).value);
      }
  }

  lemma {:induction false} FixedBinary(e: Expr)
    requires e.Binary?
    ensures Reparse(e) == Some(e) <==> Canonical(e)
    decreases e, 0
  {
    FixedIffCanonical(e.lhs);
    FixedIffCanonical(e.rhs);
    ReparseShrinks(e.lhs);
  }

  lemma {:induction false} FixedArgument(a: Argument)
    ensures ReparseArgument(a) == Some(a) <==> CanonicalArgument(a)
    decreases a, 0
  {
    FixedIffCanonical(a.expr);
    ReparseShrinks(a.expr);
    LexName(a.param);
    if a.expr.Assign? && a.expr.target.Variable? {
      LexName(a.expr.target.name);
    }
  }

  lemma {:induction false} FixedArgs(args: seq<Argument>)
    ensures ReparseArgs(args) == Some(args) <==> forall a | a in args :: CanonicalArgument(a)
    decreases args, 0
  {
    if args != [] {
      FixedArgument(args[0]);
      FixedArgs(args[1..]);
      assert args == [args[0]] + args[1..];
      assert forall a :: a in args <==> a == args[0] || a in args[1..];
      if ReparseArgs(args) == Some(args) {
        var a := ReparseArgument(args[0]).value;
        var more := ReparseArgs(args[1..]).value;
        assert ([a] + more)[0] == a && ([a] + more)[1..] == more;
      }
    }
  }

  lemma {:induction false} FixedIndices(indices: seq<Expr>)
    ensures ReparseIndices(indices) == Some(indices)
      <==> indices != [] && forall i | i in indices :: Canonical(i)
    decreases indices, 0
  {
    if indices != [] {
      FixedIffCanonical(indices[0]);
      FixedIndices(indices[1..]);
      assert indices == [indices[0]] + indices[1..];
      assert forall i :: i in indices <==> i == indices[0] || i in indices[1..];
      if |indices| == 1 {
        assert indices == [indices[0]];
        if Reparse(indices[0]).Some? {
          assert [Reparse(indices[0]).value][0] == Reparse(indices[0]).value;
        }
      } else if ReparseIndices(indices) == Some(indices) {
        var x := Reparse(indices[0]).value;
        var more := ReparseIndices(indices[1..]).value;
        assert ([x] + more)[0] == x && ([x] + more)[1..] == more;
      }
    }
  }

  /** parse(print(tree)) is tree exactly for the canonical trees. */
  lemma RoundTripIffCanonical(e: Expr)
    ensures ParseExpression(Print(e, 0, false)) == Some(e) <==> Canonical(e)
  {
    PrintedTextIsRead(e);
    FixedIffCanonical(e);
  }

  // ---- One print and one read settle a tree ---------------------------------------------------

  lemma FoldIsCanonical(op: UnaryOp, arg: Expr)
    requires Canonical(arg)
    ensures FoldUnary(op, arg).Some? ==> Canonical(FoldUnary(op, arg).value)
    ensures FoldUnary(op, arg).Some? ==> !FoldUnary(op, arg).value.Assign? && !FoldUnary(op, arg).value.Binary?
  {
  }

  /** Printing and reading is a normal form: whatever tree comes back is canonical, so a
      second print and read returns it unchanged. */
  lemma {:induction false} ReparseSettles(e: Expr)
    ensures Reparse(e).Some? ==> Canonical(Reparse(e).value)
    ensures Reparse(e).Some? && Reparse(e).value.Binary? ==> e.Binary? && e.op == Reparse(e).value.op
    ensures Reparse(e).Some? && Reparse(e).value.Assign? ==> e.Assign?
    ensures Reparse(e).Some? && Prec(e) >= PREC_CALL ==> Prec(Reparse(e).value) >= PREC_CALL
    ensures Reparse(e).Some? ==> !IsSuper(Reparse(e).value)
    decreases e, 1
  {
    match e
    case Literal(_) =>
    case Bool(_) =>
    case Num(_) =>
    case Variable(name) => LexName(name);
    case Unary(op, arg) =>
      ReparseSettles(arg);
      if Reparse(arg).Some? {
        FoldIsCanonical(op, Reparse(arg).value);
      }
    case Accessor(o, m) =>
      LexMember(m);
      ReparseSettles(o);
    case Binary(op, l, r) =>
      ReparseSettles(l);
      ReparseSettles(r);
      BinarySettles(e);
    case Call(f, args) =>
      ReparseSettles(f);
      ArgsSettle(args);
    case Index(x, indices) =>
      ReparseSettles(x);
      IndicesSettle(indices);
    case Assign(c, t, s) =>
      ReparseSettles(s);
      if Reparse(s).Some? {
        AssignOntoSettles(c, t, Reparse(s).value);
      }
  }

  lemma BinarySettles(e: Expr)
    requires e.Binary?
    requires Reparse(e.lhs).Some? ==> Canonical(Reparse(e.lhs).value)
    requires Reparse(e.rhs).Some? ==> Canonical(Reparse(e.rhs).value)
    requires Reparse(e.lhs).Some? && Reparse(e.lhs).value.Binary? ==>
      e.lhs.Binary? && e.lhs.op == Reparse(e.lhs).value.op
    ensures Reparse(e).Some? ==> Canonical(Reparse(e).value)
  {
  }

  lemma {:induction false} AssignOntoSettles(c: bool, target: Expr, source: Expr)
    requires Canonical(source)
    ensures AssignOnto(c, target, source).Some? ==> Canonical(AssignOnto(c, target, source).value)
    ensures var r := AssignOnto(c, target, source);
      r.Some? && !r.value.copyInto && r.value.target.Variable? && r.value.target.name != "this"
      ==> Captured(Assign(c, target, source))
    decreases target, 2
  {
    if target.Assign? {
      AssignOntoSettles(c, target.source, source);
      var inner := AssignOnto(c, target.source, source);
      if inner.Some? {
        AssignOntoSettles(target.copyInto, target.target, inner.value);
      }
    } else if Prec(target) >= PREC_CALL {
      ReparseSettles(target);
      VariableComesFromVariable(target);
    }
  }

  lemma VariableComesFromVariable(e: Expr)
    ensures Reparse(e).Some? && Reparse(e).value.Variable? ==>
      e.Variable? && (e.name == "this" || NameToken(e.name) == Ident(Reparse(e).value.name))
  {
    if e.Variable? {
      LexName(e.name);
    }
  }

  lemma {:induction false} ArgumentSettles(a: Argument)
    ensures ReparseArgument(a).Some? ==> CanonicalArgument(ReparseArgument(a).value)
    decreases a, 0
  {
    ReparseSettles(a.expr);
    if a.param != "" {
      LexName(a.param);
    } else if a.expr.Assign? && Reparse(a.expr.source).Some? {
      ReparseSettles(a.expr.source);
      PositionalAssignSettles(a.expr, Reparse(a.expr.source).value);
    }
  }

  lemma PositionalAssignSettles(e: Expr, source: Expr)
    requires e.Assign? && Canonical(source) && Reparse(e.source) == Some(source)
    ensures var r := ReparseArgument(Argument("", e)); r.Some? ==> CanonicalArgument(r.value)
  {
    AssignOntoSettles(e.copyInto, e.target, source);
    CapturedSource(e, source);
    assert Reparse(e) == AssignOnto(e.copyInto, e.target, source);
    if Reparse(e).Some? {
      if Captured(e) {
        CapturedName(e.copyInto, e.target, source);
        PositionalCaptured(e);
      } else {
        PositionalFree(e);
      }
    }
  }

  lemma PositionalCaptured(e: Expr)
    requires Captured(e) && Reparse(e).Some? && Reparse(e).value.Assign? && Canonical(Reparse(e).value)
    requires Reparse(e).value.target.Variable? && SafeName(Reparse(e).value.target.name)
    requires Reparse(e).value.target.name != ""
    ensures CanonicalArgument(ReparseArgument(Argument("", e)).value)
  {
  }

  lemma PositionalFree(e: Expr)
    requires !Captured(e) && Reparse(e).Some? && Canonical(Reparse(e).value)
    requires var x := Reparse(e).value;
      !(x.Assign? && !x.copyInto && x.target.Variable? && x.target.name != "this")
    ensures CanonicalArgument(ReparseArgument(Argument("", e)).value)
  {
  }

  lemma {:induction false} CapturedName(c: bool, target: Expr, source: Expr)
    requires Captured(Assign(c, target, source))
    ensures var r := AssignOnto(c, target, source);
      r.Some? ==> r.value.target.Variable? && SafeName(r.value.target.name) && r.value.target.name != ""
    decreases target
  {
    if target.Assign? {
      var inner := AssignOnto(c, target.source, source);
      if inner.Some? {
        CapturedSource(target, inner.value);
        CapturedName(target.copyInto, target.target, inner.value);
      }
    } else {
      LexName(target.name);
    }
  }

  lemma {:induction false} CapturedSource(e: Expr, source: Expr)
    requires e.Assign?
    ensures Captured(Assign(e.copyInto, e.target, source)) <==> Captured(e)
  {
  }

  lemma {:induction false} ArgsSettle(args: seq<Argument>)
    ensures ReparseArgs(args).Some? ==> forall a | a in ReparseArgs(args).value :: CanonicalArgument(a)
    decreases args, 0
  {
    if args != [] {
      ArgumentSettles(args[0]);
      ArgsSettle(args[1..]);
    }
  }

  lemma {:induction false} IndicesSettle(indices: seq<Expr>)
    ensures ReparseIndices(indices).Some? ==>
      ReparseIndices(indices).value != [] && forall i | i in ReparseIndices(indices).value :: Canonical(i)
    decreases indices, 0
  {
    if indices != [] {
      ReparseSettles(indices[0]);
      IndicesSettle(indices[1..]);
    }
  }

  lemma SecondRoundTripIsExact(e: Expr)
    requires ParseExpression(Print(e, 0, false)).Some?
    ensures var x := ParseExpression(Print(e, 0, false)).value; ParseExpression(Print(x, 0, false)) == Some(x)
  {
    PrintedTextIsRead(e);
    ReparseSettles(e);
    RoundTripIffCanonical(Reparse(e).value);
  }

  // ---- Trees that do not survive --------------------------------------------------------------

  /** (a == b) != c is printed without parentheses and comes back as a != c. */
  lemma LeftNestedEqualityIsLost(a: string, b: string, c: string)
    requires SafeName(a) && SafeName(b) && SafeName(c)
    ensures var e := Binary(NotEqual, Binary(Equal, Variable(a), Variable(b)), Variable(c));
      ParseExpression(Print(e, 0, false)) == Some(Binary(NotEqual, Variable(a), Variable(c)))
  {
    LexName(a);
    LexName(b);
    LexName(c);
    PrintedTextIsRead(Binary(NotEqual, Binary(Equal, Variable(a), Variable(b)), Variable(c)));
  }

  /** (a < b) < c is printed without parentheses and is not an expression any more. */
  lemma LeftNestedComparisonIsRejected(a: Expr, b: Expr, c: Expr)
    ensures ParseExpression(Print(Binary(LessThan, Binary(LessThan, a, b), c), 0, false)) == None
  {
    PrintedTextIsRead(Binary(LessThan, Binary(LessThan, a, b), c));
  }

  /** (a = b) = c comes back regrouped as a = (b = c). */
  lemma LeftNestedAssignmentRegroups(a: string, b: string, c: Expr)
    requires SafeName(a) && SafeName(b) && Canonical(c)
    ensures var e := Assign(false, Assign(false, Variable(a), Variable(b)), c);
      ParseExpression(Print(e, 0, false)) == Some(Assign(false, Variable(a), Assign(false, Variable(b), c)))
  {
    var e := Assign(false, Assign(false, Variable(a), Variable(b)), c);
    LexName(a);
    LexName(b);
    FixedIffCanonical(c);
    PrintedTextIsRead(e);
    assert AssignOnto(false, Variable(b), c) == Some(Assign(false, Variable(b), c));
    assert AssignOnto(false, Variable(a), Assign(false, Variable(b), c))
      == Some(Assign(false, Variable(a), Assign(false, Variable(b), c)));
    assert Reparse(e) == AssignOnto(false, e.target, c);
  }

  /** A variable named assert, which backticks allow, is printed bare and rejected. */
  lemma BareAssertIsRejected()
    ensures ParseExpression(Print(Variable("assert"), 0, false)) == None
  {
    assert !PrinterKeyword("assert");
    PrintedTextIsRead(Variable("assert"));
  }

  /** The least 64-bit number survives, sign and all, although its digits alone are out
      of range. */
  lemma LeastInt64Survives()
    ensures var e := Num(Wide(-INT64_MAX - 1)); ParseExpression(Print(e, 0, false)) == Some(e)
    ensures ParseExpression([Number(INT64_MAX + 1)]) == None
  {
    RoundTripIffCanonical(Num(Wide(-INT64_MAX - 1)));
    RejectedCall([Number(INT64_MAX + 1)]);
  }
}
