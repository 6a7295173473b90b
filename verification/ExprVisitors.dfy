/** The visitors of the binary levels: loops that rebind a left operand while they walk the
    links of a level, and the reader of a level seen as the grammar's repetition followed
    by such a visitor. */
module ExprVisitors {
  import opened Utils
  import opened ExprSyntax
  import opened ExprParser

  datatype Link = Link(op: BinaryOp, rhs: Expr)

  function LeftFold(first: Expr, links: seq<Link>): Expr {
    if links == [] then first
    else
      var last := links[|links| - 1];
      Binary(last.op, LeftFold(first, links[..|links| - 1]), last.rhs)
  }

  /** The levels that associate to the left: every link takes what was built so far. */
  method VisitLeftLevel(first: Expr, links: seq<Link>) returns (lhs: Expr)
    ensures lhs == LeftFold(first, links)
  {
    lhs := first;
    for i := 0 to |links|
      invariant lhs == LeftFold(first, links[..i])
    {
      assert links[..i + 1][..i] == links[..i];
      lhs := Binary(links[i].op, lhs, links[i].rhs);
    }
    assert links[..|links|] == links;
  }

  /** The equality level: every link is given the first comparison again, so only the last
      link survives and the operands between are dropped. */
  method VisitEquality(first: Expr, links: seq<Link>) returns (lhs: Expr)
    ensures links == [] ==> lhs == first
    ensures links != [] ==> lhs == Binary(links[|links| - 1].op, first, links[|links| - 1].rhs)
  {
    lhs := first;
    for i := 0 to |links|
      invariant i == 0 ==> lhs == first
      invariant i > 0 ==> lhs == Binary(links[i - 1].op, first, links[i - 1].rhs)
    {
      lhs := Binary(links[i].op, first, links[i].rhs);
    }
  }

  /** The repetition '(op operand)*' of one level; at most one on the comparison level. */
  function ParseLinks(k: nat, ts: seq<Token>): (r: Parsed<seq<Link>>)
    requires PREC_OR <= k < PREC_UNARY
    ensures r.Ok? ==> |r.rest| <= |ts|
    decreases |ts|
  {
    match BinaryHead(ts)
    case None => Ok([], ts)
    case Some((op, n)) =>
      if BinOpPrec(op) != k then Ok([], ts)
      else match ParseLevel(k + 1, ts[n..])
        case Err => Err
        case Ok(rhs, rest) =>
          if k == PREC_COMPARISON then Ok([Link(op, rhs)], rest)
          else match ParseLinks(k, rest)
            case Err => Err
            case Ok(more, rest') => Ok([Link(op, rhs)] + more, rest')
  }

  lemma {:induction false} LeftFoldPrepend(first: Expr, link: Link, more: seq<Link>)
    ensures LeftFold(first, [link] + more) == LeftFold(Binary(link.op, first, link.rhs), more)
    decreases |more|
  {
    var links := [link] + more;
    if more == [] {
      assert links[..0] == [];
    } else {
      var n := |more| - 1;
      LeftFoldPrepend(first, link, more[..n]);
      assert links[..|links| - 1] == [link] + more[..n];
    }
  }

  /** A left-associative level reads its links and folds them to the left. */
  lemma {:induction false} LeftLevelIsFold(k: nat, first: Expr, lhs: Expr, ts: seq<Token>)
    requires PREC_OR <= k < PREC_UNARY && k != PREC_EQUALITY
    ensures ParseChain(k, first, lhs, ts).Ok? <==> ParseLinks(k, ts).Ok?
    ensures ParseLinks(k, ts).Ok? ==>
      ParseChain(k, first, lhs, ts) == Ok(LeftFold(lhs, ParseLinks(k, ts).value), ParseLinks(k, ts).rest)
    decreases |ts|
  {
    var head := BinaryHead(ts);
    if head.Some? && BinOpPrec(head.value.0) == k && ParseLevel(k + 1, ts[head.value.1..]).Ok? {
      var right := ParseLevel(k + 1, ts[head.value.1..]);
      var link := Link(head.value.0, right.value);
      if k == PREC_COMPARISON {
        assert [link] + [] == [link];
        LeftFoldPrepend(lhs, link, []);
      } else {
        LeftLevelIsFold(k, first, Binary(link.op, lhs, link.rhs), right.rest);
        if ParseLinks(k, right.rest).Ok? {
          LeftFoldPrepend(lhs, link, ParseLinks(k, right.rest).value);
        }
      }
    }
  }

  /** The equality level keeps the first operand and the last link only. */
  lemma {:induction false} EqualityLevelKeepsEnds(first: Expr, lhs: Expr, ts: seq<Token>)
    ensures ParseChain(PREC_EQUALITY, first, lhs, ts).Ok? <==> ParseLinks(PREC_EQUALITY, ts).Ok?
    ensures ParseLinks(PREC_EQUALITY, ts).Ok? ==>
      var links := ParseLinks(PREC_EQUALITY, ts).value;
      ParseChain(PREC_EQUALITY, first, lhs, ts)
        == Ok(if links == [] then lhs else Binary(links[|links| - 1].op, first, links[|links| - 1].rhs),
              ParseLinks(PREC_EQUALITY, ts).rest)
    decreases |ts|
  {
    var k := PREC_EQUALITY;
    var head := BinaryHead(ts);
    if head.Some? && BinOpPrec(head.value.0) == k && ParseLevel(k + 1, ts[head.value.1..]).Ok? {
      var right := ParseLevel(k + 1, ts[head.value.1..]);
      EqualityLevelKeepsEnds(first, Binary(head.value.0, first, right.value), right.rest);
    }
  }
}
