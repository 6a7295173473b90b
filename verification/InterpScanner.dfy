/** Splitting the content of a double-quoted string into literal runs and placeholders. */
module InterpScanner {
  import opened Utils

  /** offset is where the text begins in the content. */
  datatype Segment = Segment(isHole: bool, text: string, offset: nat)

  datatype ErrorKind =
    | UnterminatedString
    | SpansLines
    | HasComment
    | TopLevelColon
    | Unbalanced
    | UnterminatedHole
    | EmptyHole

  datatype ScanError = ScanError(offset: nat, kind: ErrorKind)

  datatype Result<+T> = Ok(value: T) | Err(error: ScanError)

  predicate IsBreak(c: char) { c == '\n' || c == '\r' }
  predicate IsOpening(c: char) { c == '(' || c == '[' || c == '{' }
  predicate IsQuote(c: char) { c == '\'' || c == '"' }

  predicate IsSpace(c: char) { c == ' ' || c == '\t' || IsBreak(c) || c == 11 as char || c == 12 as char }

  predicate IsBlank(s: string) { s == "" || (IsSpace(s[0]) && IsBlank(s[1..])) }

  // ---- Specification -------------------------------------------------------------------------------

  /** The index after the quote that closes a nested string literal, searched from k. */
  function QuoteEnd(content: string, k: nat, quote: char): (r: Option<nat>)
    ensures r.Some? ==> k < r.value <= |content|
    decreases |content| - k
  {
    if k >= |content| then None
    else if content[k] == '\\' then QuoteEnd(content, k + 2, quote)
    else if content[k] == quote then Some(k + 1)
    else if IsBreak(content[k]) then None
    else QuoteEnd(content, k + 1, quote)
  }

  /** How a placeholder goes on: closed by the brace at an index, never closed, or in error. */
  datatype HoleEnd = Closed(at: nat) | Failed(error: ScanError) | Open

  /** What the character at j does inside a placeholder: end it, or lead to a later index at
      some depth of brackets. */
  datatype Step = Stop(end: HoleEnd) | Go(next: nat, depth: nat)

  function HoleStep(content: string, j: nat, depth: nat): (r: Step)
    requires j < |content|
    ensures r.Go? ==> j < r.next
    ensures r.Stop? && r.end.Closed? ==> r.end.at == j && content[j] == '}'
  {
    var h := content[j];
    if h == '\\' then Go(j + 2, depth)
    else if IsQuote(h) then (
      match QuoteEnd(content, j + 1, h)
      case None => Stop(Failed(ScanError(j, UnterminatedString)))
      case Some(k) => Go(k, depth))
    else if IsBreak(h) then Stop(Failed(ScanError(j, SpansLines)))
    else if h == '/' && j + 1 < |content| && content[j + 1] == '/' then Stop(Failed(ScanError(j, HasComment)))
    else if h == ':' && depth == 0 then Stop(Failed(ScanError(j, TopLevelColon)))
    else if IsOpening(h) then Go(j + 1, depth + 1)
    else if h == ')' || h == ']' then
      if depth == 0 then Stop(Failed(ScanError(j, Unbalanced))) else Go(j + 1, depth - 1)
    else if h == '}' then
      if depth == 0 then Stop(Closed(j)) else Go(j + 1, depth - 1)
    else Go(j + 1, depth)
  }

  function FindClose(content: string, j: nat, depth: nat): (r: HoleEnd)
    ensures r.Closed? ==> j <= r.at < |content| && content[r.at] == '}'
    decreases |content| - j
  {
    if j >= |content| then Open
    else match HoleStep(content, j, depth)
      case Stop(end) => end
      case Go(next, d) => FindClose(content, next, d)
  }

  function Flush(literal: string, start: nat): seq<Segment> {
    if literal == "" then [] else [Segment(false, literal, start)]
  }

  /** Puts segments found earlier in front. */
  function Before(segments: seq<Segment>, r: Result<seq<Segment>>): Result<seq<Segment>> {
    if r.Ok? then Ok(segments + r.value) else r
  }

  /** What the scanner takes outside of placeholders: a piece of literal text, or a brace
      that opens a placeholder. */
  datatype Chunk = Chunk(text: string, next: nat) | HoleOpens

  function NextChunk(content: string, i: nat): (r: Chunk)
    requires i < |content|
    ensures r.Chunk? ==> i < r.next <= |content| && r.text != ""
    ensures r.HoleOpens? ==> content[i] == '{'
  {
    var c := content[i];
    if c == '\\' && i + 1 < |content| then
      var next := content[i + 1];
      Chunk(if next == '{' || next == '}' then [next] else [c, next], i + 2)
    else if c == '{' && i + 1 < |content| && content[i + 1] == '{' then Chunk("{", i + 2)
    else if c == '}' && i + 1 < |content| && content[i + 1] == '}' then Chunk("}", i + 2)
    else if c != '{' then Chunk([c], i + 1)
    else HoleOpens
  }

  /** A run of literal text and the index after it: the end or where a placeholder opens. */
  datatype Run = Run(text: string, next: nat)

  function RunFrom(content: string, i: nat): (r: Run)
    requires i <= |content|
    ensures i <= r.next <= |content|
    ensures r.next < |content| ==> content[r.next] == '{'
    ensures r.next == i <==> r.text == ""
    decreases |content| - i
  {
    if i == |content| then Run("", i)
    else match NextChunk(content, i)
      case HoleOpens => Run("", i)
      case Chunk(text, next) =>
        var more := RunFrom(content, next);
        Run(text + more.text, more.next)
  }

  /** The segments from a run on that was gathered since start. */
  function Finish(content: string, run: Run, start: nat): Result<seq<Segment>>
    requires run.next <= |content|
    decreases |content| - run.next, 1
  {
    if run.next == |content| then Ok(Flush(run.text, start))
    else AfterRun(content, run, start, FindClose(content, run.next + 1, 0))
  }

  function AfterRun(content: string, run: Run, start: nat, end: HoleEnd): Result<seq<Segment>>
    requires run.next < |content| && (end.Closed? ==> run.next < end.at < |content|)
    decreases |content| - run.next, 0
  {
    match end
    case Open => Err(ScanError(run.next, UnterminatedHole))
    case Failed(e) => Err(e)
    case Closed(j) =>
      var hole := content[run.next + 1..j];
      if IsBlank(hole) then Err(ScanError(run.next, EmptyHole))
      else Before(Flush(run.text, start) + [Segment(true, hole, run.next + 1)], ScanFrom(content, j + 1))
  }

  function ScanFrom(content: string, i: nat): Result<seq<Segment>>
    requires i <= |content|
    decreases |content| - i, 2
  {
    Finish(content, RunFrom(content, i), i)
  }

  function Scan(content: string): Result<seq<Segment>> {
    ScanFrom(content, 0)
  }

  /** What each character does inside a placeholder, outside of nested quotes: which ones
      change the depth of brackets, which end it, and which error each other end is. */
  lemma InsideHole(content: string, j: nat, depth: nat)
    requires j < |content| && content[j] != '\\' && !IsQuote(content[j])
    ensures var h, step := content[j], HoleStep(content, j, depth);
      var comment := h == '/' && j + 1 < |content| && content[j + 1] == '/';
      && (step == Stop(Closed(j)) <==> h == '}' && depth == 0)
      && (step == Stop(Failed(ScanError(j, SpansLines))) <==> h == '\n' || h == '\r')
      && (step == Stop(Failed(ScanError(j, HasComment))) <==> comment)
      && (step == Stop(Failed(ScanError(j, TopLevelColon))) <==> h == ':' && depth == 0)
      && (step == Stop(Failed(ScanError(j, Unbalanced))) <==> (h == ')' || h == ']') && depth == 0)
      && (step == Go(j + 1, depth + 1) <==> h == '(' || h == '[' || h == '{')
      && (depth > 0 ==> (step == Go(j + 1, depth - 1) <==> h == ')' || h == ']' || h == '}'))
  {
  }

  // ---- The loops ---------------------------------------------------------------------------------------

  /** The nested literal opened at j: k is the index after it. */
  method SkipQuoted(content: string, j: nat) returns (terminated: bool, k: nat)
    requires j < |content|
    ensures QuoteEnd(content, j + 1, content[j]) == if terminated then Some(k) else None
  {
    var quote := content[j];
    k := j + 1;
    terminated := false;
    while k < |content|
      invariant QuoteEnd(content, j + 1, quote) == QuoteEnd(content, k, quote)
      decreases |content| - k
    {
      if content[k] == '\\' {
        k := k + 2;
        continue;
      }
      if content[k] == quote {
        return true, k + 1;
      }
      if IsBreak(content[k]) {
        break;
      }
      k := k + 1;
    }
  }

  /** The placeholder opened at open. */
  method CloseHole(content: string, open: nat) returns (end: HoleEnd)
    ensures end == FindClose(content, open + 1, 0)
  {
    var j := open + 1;
    var depth := 0;
    while j < |content|
      invariant 0 <= depth
      invariant FindClose(content, open + 1, 0) == FindClose(content, j, depth)
      decreases |content| - j
    {
      var h := content[j];
      if h == '\\' {
        j := j + 2;
        continue;
      }
      if IsQuote(h) {
        var terminated, k := SkipQuoted(content, j);
        if !terminated {
          return Failed(ScanError(j, UnterminatedString));
        }
        j := k;
        continue;
      }
      if IsBreak(h) {
        return Failed(ScanError(j, SpansLines));
      }
      if h == '/' && j + 1 < |content| && content[j + 1] == '/' {
        return Failed(ScanError(j, HasComment));
      }
      if h == ':' && depth == 0 {
        return Failed(ScanError(j, TopLevelColon));
      }
      if IsOpening(h) {
        depth := depth + 1;
        j := j + 1;
        continue;
      }
      if h == ')' || h == ']' {
        if depth == 0 {
          return Failed(ScanError(j, Unbalanced));
        }
        depth := depth - 1;
        j := j + 1;
        continue;
      }
      if h == '}' {
        if depth == 0 {
          return Closed(j);
        }
        depth := depth - 1;
        j := j + 1;
        continue;
      }
      j := j + 1;
    }
    end := Open;
  }

  /** The run once what follows from i on is added to the text gathered so far. */
  function Continued(content: string, i: nat, literal: string): (r: Run)
    requires i <= |content|
    ensures i <= r.next <= |content|
  {
    var more := RunFrom(content, i);
    Run(literal + more.text, more.next)
  }

  lemma ChunkContinues(content: string, i: nat, literal: string)
    requires i < |content| && NextChunk(content, i).Chunk?
    ensures var chunk := NextChunk(content, i);
      Continued(content, i, literal) == Continued(content, chunk.next, literal + chunk.text)
  {
    var chunk := NextChunk(content, i);
    var more := RunFrom(content, chunk.next).text;
    assert literal + (chunk.text + more) == literal + chunk.text + more;
  }

  lemma HoleContinues(content: string, i: nat, literal: string)
    requires i <= |content| && (i < |content| ==> NextChunk(content, i).HoleOpens?)
    ensures Continued(content, i, literal) == Run(literal, i)
  {
    assert literal + "" == literal;
  }

  /** The placeholder opened at open, after a run: where it closes, or the error. */
  method ReadHole(content: string, open: nat, ghost text: string, ghost start: nat) returns (r: Result<nat>)
    requires open < |content|
    ensures r.Ok? ==> open < r.value < |content|
    ensures r.Ok? ==>
      Finish(content, Run(text, open), start)
        == Before(Flush(text, start) + [Segment(true, content[open + 1..r.value], open + 1)],
                  ScanFrom(content, r.value + 1))
    ensures r.Err? ==> Finish(content, Run(text, open), start) == Err(r.error)
  {
    var end := CloseHole(content, open);
    assert Finish(content, Run(text, open), start) == AfterRun(content, Run(text, open), start, end);
    if end.Open? {
      return Err(ScanError(open, UnterminatedHole));
    }
    if end.Failed? {
      return Err(end.error);
    }
    if IsBlank(content[open + 1..end.at]) {
      return Err(ScanError(open, EmptyHole));
    }
    r := Ok(end.at);
  }

  method ReadChunk(content: string, i: nat) returns (chunk: Chunk)
    requires i < |content|
    ensures chunk == NextChunk(content, i)
  {
    var c := content[i];
    if c == '\\' && i + 1 < |content| {
      var next := content[i + 1];
      if next == '{' || next == '}' {
        return Chunk([next], i + 2);
      }
      return Chunk([c, next], i + 2);
    }
    if c == '{' && i + 1 < |content| && content[i + 1] == '{' {
      return Chunk("{", i + 2);
    }
    if c == '}' && i + 1 < |content| && content[i + 1] == '}' {
      return Chunk("}", i + 2);
    }
    if c != '{' {
      return Chunk([c], i + 1);
    }
    chunk := HoleOpens;
  }

  method ScanInterpolation(content: string) returns (r: Result<seq<Segment>>)
    ensures r == Scan(content)
  {
    var segments: seq<Segment> := [];
    var literal := "";
    var literalStart: nat := 0;
    var i := 0;
    NothingBefore(Scan(content));
    RestAfterHole(content, 0);
    while i < |content|
      invariant i <= |content|
      invariant Scan(content) == Before(segments, Rest(content, literal, literalStart, i))
      decreases |content| - i
    {
      var chunk := ReadChunk(content, i);
      if chunk.Chunk? {
        RestOfChunk(content, literal, literalStart, i);
        if literal == "" {
          literalStart := i;
        }
        literal := literal + chunk.text;
        i := chunk.next;
        continue;
      }
      RestAtStop(content, literal, literalStart, i);
      var close := ReadHole(content, i, literal, literalStart);
      if close.Err? {
        return Err(close.error);
      }
      var found := Flush(literal, literalStart) + [Segment(true, content[i + 1..close.value], i + 1)];
      BeforeTwice(segments, found, ScanFrom(content, close.value + 1));
      segments := segments + found;
      literal, literalStart := "", 0;
      i := close.value + 1;
      RestAfterHole(content, i);
    }
    RestAtStop(content, literal, literalStart, i);
    r := Ok(segments + Flush(literal, literalStart));
  }

  /** The segments still to come at i, with a literal gathered since start. */
  function Rest(content: string, literal: string, start: nat, i: nat): Result<seq<Segment>>
    requires i <= |content|
  {
    Finish(content, Continued(content, i, literal), if literal == "" then i else start)
  }

  lemma RestOfChunk(content: string, literal: string, start: nat, i: nat)
    requires i < |content| && NextChunk(content, i).Chunk?
    ensures var chunk := NextChunk(content, i);
      Rest(content, literal, start, i)
        == Rest(content, literal + chunk.text, if literal == "" then i else start, chunk.next)
  {
    ChunkContinues(content, i, literal);
  }

  lemma RestAtStop(content: string, literal: string, start: nat, i: nat)
    requires i <= |content| && (i < |content| ==> NextChunk(content, i).HoleOpens?)
    ensures Rest(content, literal, start, i) == Finish(content, Run(literal, i), start)
  {
    HoleContinues(content, i, literal);
    if i < |content| {
      var end := FindClose(content, i + 1, 0);
      assert Finish(content, Run(literal, i), start) == AfterRun(content, Run(literal, i), start, end);
      assert Finish(content, Run(literal, i), i) == AfterRun(content, Run(literal, i), i, end);
    }
  }

  lemma RestAfterHole(content: string, i: nat)
    requires i <= |content|
    ensures ScanFrom(content, i) == Rest(content, "", 0, i)
  {
    assert "" + RunFrom(content, i).text == RunFrom(content, i).text;
  }

  lemma NothingBefore(r: Result<seq<Segment>>)
    ensures Before([], r) == r
  {
    if r.Ok? {
      assert [] + r.value == r.value;
    }
  }

  lemma BeforeTwice(a: seq<Segment>, b: seq<Segment>, r: Result<seq<Segment>>)
    ensures Before(a, Before(b, r)) == Before(a + b, r)
  {
    if r.Ok? {
      assert a + (b + r.value) == a + b + r.value;
    }
  }

  // ---- Where segments lie ------------------------------------------------------------------------------

  predicate Lies(content: string, seg: Segment) {
    0 < seg.offset && seg.offset + |seg.text| < |content|
    && content[seg.offset - 1] == '{' && content[seg.offset..seg.offset + |seg.text|] == seg.text
    && content[seg.offset + |seg.text|] == '}'
  }

  predicate HolesLie(content: string, segments: seq<Segment>) {
    forall i | 0 <= i < |segments| && segments[i].isHole :: Lies(content, segments[i])
  }

  /** Every placeholder's text is found in the content at its offset, between braces. */
  lemma HolesAreWhereTheySay(content: string)
    ensures Scan(content).Ok? ==> HolesLie(content, Scan(content).value)
  {
    HolesLieFrom(content, 0);
  }

  lemma {:induction false} HolesLieFrom(content: string, i: nat)
    requires i <= |content|
    ensures ScanFrom(content, i).Ok? ==> HolesLie(content, ScanFrom(content, i).value)
    decreases |content| - i
  {
    var run := RunFrom(content, i);
    if run.next < |content| {
      var end := FindClose(content, run.next + 1, 0);
      assert Finish(content, run, i) == AfterRun(content, run, i, end);
      if end.Closed? {
        HolesLieFrom(content, end.at + 1);
      }
    }
  }
}
