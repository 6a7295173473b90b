/** Which texts can stand in a placeholder, given as a grammar, and the proof that the
    scanner closes a placeholder exactly after those. */
module InterpHoles {
  import opened Utils
  import opened InterpScanner

  datatype QuotedChar = QPlain(c: char) | QEscaped(c: char)

  datatype HoleToken =
    | Plain(c: char)
    | Escaped(c: char)
    | Quoted(quote: char, body: seq<QuotedChar>)
    | Opening(c: char)
    | Closing(c: char)

  function QuotedText(q: QuotedChar): (s: string)
    ensures s != ""
  {
    match q case QPlain(c) => [c] case QEscaped(c) => ['\\', c]
  }

  function BodyText(body: seq<QuotedChar>): string {
    if body == [] then "" else QuotedText(body[0]) + BodyText(body[1..])
  }

  function TokenText(t: HoleToken): (s: string)
    ensures s != ""
  {
    match t
    case Plain(c) => [c]
    case Escaped(c) => ['\\', c]
    case Quoted(quote, body) => [quote] + (BodyText(body) + [quote])
    case Opening(c) => [c]
    case Closing(c) => [c]
  }

  function Text(tokens: seq<HoleToken>): string {
    if tokens == [] then "" else TokenText(tokens[0]) + Text(tokens[1..])
  }

  predicate GoodBody(quote: char, body: seq<QuotedChar>) {
    forall i | 0 <= i < |body| && body[i].QPlain? ::
      body[i].c != '\\' && body[i].c != quote && !IsBreak(body[i].c)
  }

  predicate IsClosing(c: char) { c == ')' || c == ']' || c == '}' }

  /** A token by itself: quoted texts stay on the line, plain characters are none of the
      special ones and a colon is inside brackets. */
  predicate GoodToken(t: HoleToken, depth: nat) {
    match t
    case Plain(c) =>
      c != '\\' && !IsQuote(c) && !IsBreak(c) && !IsOpening(c) && !IsClosing(c) && (c == ':' ==> depth > 0)
    case Escaped(_) => true
    case Quoted(quote, body) => IsQuote(quote) && GoodBody(quote, body)
    case Opening(c) => IsOpening(c)
    case Closing(c) => IsClosing(c) && depth > 0
  }

  function DepthAfter(t: HoleToken, depth: nat): nat {
    if t.Opening? then depth + 1 else if t.Closing? && depth > 0 then depth - 1 else depth
  }

  /** Brackets of any kind close one another, all of them by the end, and no comment begins. */
  predicate Balanced(tokens: seq<HoleToken>, depth: nat) {
    if tokens == [] then depth == 0
    else
      && GoodToken(tokens[0], depth)
      && (tokens[0] == Plain('/') && |tokens| > 1 ==> tokens[1] != Plain('/'))
      && Balanced(tokens[1..], DepthAfter(tokens[0], depth))
  }

  ghost predicate IsHoleText(src: string) {
    exists tokens :: Text(tokens) == src && Balanced(tokens, 0)
  }

  // ---- Texts written in a content --------------------------------------------------------------------

  predicate Written(content: string, i: nat, piece: string)
    decreases |piece|
  {
    if piece == "" then i <= |content|
    else i < |content| && content[i] == piece[0] && Written(content, i + 1, piece[1..])
  }

  lemma {:induction false} WrittenIsSlice(content: string, i: nat, piece: string)
    ensures Written(content, i, piece) <==> i + |piece| <= |content| && content[i..i + |piece|] == piece
    decreases |piece|
  {
    if piece != "" {
      WrittenIsSlice(content, i + 1, piece[1..]);
      if i + |piece| <= |content| {
        assert content[i..i + |piece|] == [content[i]] + content[i + 1..i + |piece|];
        assert piece == [piece[0]] + piece[1..];
      }
    }
  }

  lemma {:induction false} WrittenParts(content: string, i: nat, a: string, b: string)
    ensures Written(content, i, a + b) <==> Written(content, i, a) && Written(content, i + |a|, b)
    ensures Written(content, i, a) ==> i + |a| <= |content|
    decreases |a|
  {
    if a == "" {
      assert a + b == b;
      WrittenInside(content, i, b);
    } else {
      WrittenParts(content, i + 1, a[1..], b);
      assert (a + b)[1..] == a[1..] + b;
    }
  }

  lemma {:induction false} WrittenInside(content: string, i: nat, piece: string)
    ensures Written(content, i, piece) ==> i + |piece| <= |content|
    decreases |piece|
  {
    if piece != "" {
      WrittenInside(content, i + 1, piece[1..]);
    }
  }

  lemma WrittenChar(content: string, i: nat, piece: string)
    requires Written(content, i, piece) && piece != ""
    ensures i < |content| && content[i] == piece[0]
    ensures |piece| > 1 ==> i + 1 < |content| && content[i + 1] == piece[1]
  {
  }

  // ---- The grammar's texts are closed where they end ---------------------------------------------------

  lemma {:induction false} BodyScanned(content: string, k: nat, quote: char, body: seq<QuotedChar>)
    requires IsQuote(quote) && GoodBody(quote, body) && Written(content, k, BodyText(body) + [quote])
    ensures QuoteEnd(content, k, quote) == Some(k + |BodyText(body)| + 1)
    decreases |body|
  {
    WrittenParts(content, k, BodyText(body), [quote]);
    if body == [] {
      WrittenChar(content, k, [quote]);
    } else {
      var first := QuotedText(body[0]);
      WrittenParts(content, k, first, BodyText(body[1..]));
      WrittenParts(content, k + |first|, BodyText(body[1..]), [quote]);
      WrittenChar(content, k, first);
      BodyScanned(content, k + |first|, quote, body[1..]);
    }
  }

  lemma TokenScanned(content: string, j: nat, t: HoleToken, depth: nat)
    requires GoodToken(t, depth) && Written(content, j, TokenText(t))
    requires t == Plain('/') && j + 1 < |content| ==> content[j + 1] != '/'
    ensures j < |content| && HoleStep(content, j, depth) == Go(j + |TokenText(t)|, DepthAfter(t, depth))
  {
    WrittenChar(content, j, TokenText(t));
    if t.Quoted? {
      WrittenParts(content, j, [t.quote], BodyText(t.body) + [t.quote]);
      BodyScanned(content, j + 1, t.quote, t.body);
    }
  }

  lemma {:induction false} BalancedIsClosed(content: string, j: nat, tokens: seq<HoleToken>, depth: nat)
    requires Balanced(tokens, depth) && Written(content, j, Text(tokens) + "}")
    ensures FindClose(content, j, depth) == Closed(j + |Text(tokens)|)
    decreases |tokens|
  {
    if tokens == [] {
      assert Text(tokens) + "}" == "}";
      WrittenChar(content, j, "}");
    } else {
      var next := j + |TokenText(tokens[0])|;
      FirstTokenScanned(content, j, tokens, depth);
      BalancedIsClosed(content, next, tokens[1..], DepthAfter(tokens[0], depth));
    }
  }

  lemma FirstTokenScanned(content: string, j: nat, tokens: seq<HoleToken>, depth: nat)
    requires Balanced(tokens, depth) && Written(content, j, Text(tokens) + "}") && tokens != []
    ensures var next, d := j + |TokenText(tokens[0])|, DepthAfter(tokens[0], depth);
      FindClose(content, j, depth) == FindClose(content, next, d)
      && Written(content, next, Text(tokens[1..]) + "}") && Balanced(tokens[1..], d)
      && |Text(tokens)| == |TokenText(tokens[0])| + |Text(tokens[1..])|
  {
    var t := tokens[0];
    TokensSplit(content, j, tokens);
    FirstOf(content, j + |TokenText(t)|, tokens[1..], DepthAfter(t, depth));
    TokenScanned(content, j, t, depth);
  }

  lemma TokensSplit(content: string, j: nat, tokens: seq<HoleToken>)
    requires Written(content, j, Text(tokens) + "}") && tokens != []
    ensures Written(content, j, TokenText(tokens[0]))
    ensures Written(content, j + |TokenText(tokens[0])|, Text(tokens[1..]) + "}")
  {
    var t, rest := TokenText(tokens[0]), Text(tokens[1..]);
    assert t + rest + "}" == t + (rest + "}");
    WrittenParts(content, j, t, rest + "}");
  }

  /** What follows a token begins with a slash only if the next token is a plain slash. */
  lemma FirstOf(content: string, j: nat, tokens: seq<HoleToken>, depth: nat)
    requires Balanced(tokens, depth) && Written(content, j, Text(tokens) + "}")
    ensures content[j] == '/' ==> tokens != [] && tokens[0] == Plain('/')
  {
    WrittenChar(content, j, Text(tokens) + "}");
  }

  // ---- Nothing else is closed --------------------------------------------------------------------------

  lemma {:induction false} BodyOf(content: string, k: nat, quote: char) returns (body: seq<QuotedChar>)
    requires QuoteEnd(content, k, quote).Some?
    ensures GoodBody(quote, body) && Written(content, k, BodyText(body) + [quote])
    ensures QuoteEnd(content, k, quote) == Some(k + |BodyText(body)| + 1)
    decreases |content| - k
  {
    if content[k] == quote && quote != '\\' {
      body := [];
    } else {
      var first := if content[k] == '\\' then QEscaped(content[k + 1]) else QPlain(content[k]);
      var rest := BodyOf(content, k + |QuotedText(first)|, quote);
      body := [first] + rest;
      assert body[1..] == rest;
      WrittenParts(content, k, QuotedText(first), BodyText(rest) + [quote]);
      assert QuotedText(first) + (BodyText(rest) + [quote]) == BodyText(body) + [quote];
    }
  }

  lemma TokenOf(content: string, j: nat, depth: nat) returns (t: HoleToken)
    requires j < |content| && HoleStep(content, j, depth).Go? && HoleStep(content, j, depth).next <= |content|
    ensures GoodToken(t, depth) && Written(content, j, TokenText(t))
    ensures HoleStep(content, j, depth) == Go(j + |TokenText(t)|, DepthAfter(t, depth))
    ensures t == Plain('/') ==> j + 1 >= |content| || content[j + 1] != '/'
  {
    var h := content[j];
    if h == '\\' {
      t := Escaped(content[j + 1]);
    } else if IsQuote(h) {
      var body := BodyOf(content, j + 1, h);
      t := Quoted(h, body);
      WrittenParts(content, j, [h], BodyText(body) + [h]);
    } else if IsOpening(h) {
      t := Opening(h);
    } else if IsClosing(h) {
      t := Closing(h);
    } else {
      t := Plain(h);
    }
  }

  lemma {:induction false} TokensOf(content: string, j: nat, depth: nat) returns (tokens: seq<HoleToken>)
    requires FindClose(content, j, depth).Closed?
    ensures Balanced(tokens, depth)
    ensures Written(content, j, Text(tokens)) && j + |Text(tokens)| == FindClose(content, j, depth).at
    decreases |content| - j
  {
    var step := HoleStep(content, j, depth);
    if step.Stop? {
      tokens := [];
    } else {
      var t := TokenOf(content, j, depth);
      var rest := TokensOf(content, step.next, step.depth);
      TokenBefore(content, j, t, rest, depth);
      tokens := [t] + rest;
    }
  }

  lemma TokenBefore(content: string, j: nat, t: HoleToken, rest: seq<HoleToken>, depth: nat)
    requires GoodToken(t, depth) && Written(content, j, TokenText(t))
    requires t == Plain('/') ==> j + 1 >= |content| || content[j + 1] != '/'
    requires Balanced(rest, DepthAfter(t, depth)) && Written(content, j + |TokenText(t)|, Text(rest))
    ensures Balanced([t] + rest, depth) && Written(content, j, Text([t] + rest))
    ensures |Text([t] + rest)| == |TokenText(t)| + |Text(rest)|
  {
    assert ([t] + rest)[1..] == rest;
    WrittenParts(content, j, TokenText(t), Text(rest));
    if rest != [] && rest[0] == Plain('/') {
      WrittenChar(content, j + |TokenText(t)|, Text(rest));
    }
  }

  /** A text followed by a closing brace is taken as one placeholder exactly when it is in
      the grammar. */
  lemma HoleClosesIffInGrammar(content: string, j: nat, src: string)
    requires Written(content, j, src + "}")
    ensures FindClose(content, j, 0) == Closed(j + |src|) <==> IsHoleText(src)
  {
    WrittenParts(content, j, src, "}");
    if IsHoleText(src) {
      var tokens :| Text(tokens) == src && Balanced(tokens, 0);
      BalancedIsClosed(content, j, tokens, 0);
    }
    if FindClose(content, j, 0) == Closed(j + |src|) {
      var tokens := TokensOf(content, j, 0);
      WrittenIsSlice(content, j, Text(tokens));
      WrittenIsSlice(content, j, src);
    }
  }
}
