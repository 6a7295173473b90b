/** Printing an interpolated string and scanning the printed content again. */
module InterpRoundTrip {
  import opened Utils
  import opened InterpScanner
  import opened InterpHoles

  /** A placeholder is given by the source text of its expression. */
  datatype Part = Literal(text: string) | Hole(src: string)

  // ---- The printer ---------------------------------------------------------------------------------

  function EscapeChar(c: char): (s: string)
    ensures s != ""
  {
    if c == '\\' then "\\\\"
    else if c == '"' then "\\\""
    else if c == '{' then "\\{"
    else if c == '\n' then "\\n"
    else if c == '\r' then "\\r"
    else if c == '\t' then "\\t"
    else [c]
  }

  function Escape(text: string): string {
    if text == "" then "" else EscapeChar(text[0]) + Escape(text[1..])
  }

  /** An opening brace is kept apart from the brace that opens the placeholder. */
  function Spaced(src: string): string {
    if src != "" && src[0] == '{' then " " + src else src
  }

  function RenderPart(p: Part): string {
    match p case Literal(text) => Escape(text) case Hole(src) => "{" + Spaced(src) + "}"
  }

  function Render(parts: seq<Part>): string {
    if parts == [] then "" else RenderPart(parts[0]) + Render(parts[1..])
  }

  method PrintText(body: string, text: string) returns (r: string)
    ensures r == body + Escape(text)
  {
    r := body;
    var k := 0;
    while k < |text|
      invariant k <= |text|
      invariant r + Escape(text[k..]) == body + Escape(text)
    {
      assert text[k..][1..] == text[k + 1..];
      Regroup(r, EscapeChar(text[k]), Escape(text[k + 1..]));
      r := r + EscapeChar(text[k]);
      k := k + 1;
    }
    assert r + "" == r;
  }

  lemma Regroup(a: string, b: string, c: string)
    ensures a + (b + c) == a + b + c
  {
  }

  method PrintContent(parts: seq<Part>) returns (body: string)
    ensures body == Render(parts)
  {
    body := "";
    var i := 0;
    while i < |parts|
      invariant i <= |parts|
      invariant body + Render(parts[i..]) == Render(parts)
    {
      assert parts[i..][1..] == parts[i + 1..];
      Regroup(body, RenderPart(parts[i]), Render(parts[i + 1..]));
      if parts[i].Literal? {
        body := PrintText(body, parts[i].text);
      } else {
        var hole := parts[i].src;
        if hole != "" && hole[0] == '{' {
          hole := " " + hole;
        }
        body := body + ("{" + hole + "}");
      }
      i := i + 1;
    }
    assert body + "" == body;
  }

  // ---- Building the string again -------------------------------------------------------------------

  /** Escapes inside a literal run, as the library that interprets them does; numeric escapes
      are not part of this model and count as malformed. */
  function UnescapeFrom(raw: string, k: nat): Option<string>
    requires k <= |raw|
    decreases |raw| - k
  {
    if k == |raw| then Some("")
    else if raw[k] != '\\' then Prepend(raw[k], UnescapeFrom(raw, k + 1))
    else if k + 1 == |raw| then None
    else match raw[k + 1]
      case 'n' => Prepend('\n', UnescapeFrom(raw, k + 2))
      case 'r' => Prepend('\r', UnescapeFrom(raw, k + 2))
      case 't' => Prepend('\t', UnescapeFrom(raw, k + 2))
      case 'a' => Prepend(7 as char, UnescapeFrom(raw, k + 2))
      case 'b' => Prepend(8 as char, UnescapeFrom(raw, k + 2))
      case 'v' => Prepend(11 as char, UnescapeFrom(raw, k + 2))
      case 'f' => Prepend(12 as char, UnescapeFrom(raw, k + 2))
      case 'e' => Prepend(27 as char, UnescapeFrom(raw, k + 2))
      case c =>
        if c == 'x' || c == 'u' || c == 'U' || c == 'c' || '0' <= c <= '7' then None
        else Prepend(c, UnescapeFrom(raw, k + 2))
  }

  function Prepend(c: char, rest: Option<string>): Option<string> {
    if rest.None? then None else Some([c] + rest.value)
  }

  function Unescape(raw: string): Option<string> { UnescapeFrom(raw, 0) }

  datatype Built =
    | Interp(parts: seq<Part>)
    | PlainText(text: string)
    | Rejected(error: ScanError)
    | BadEscape

  function PartsOf(segments: seq<Segment>): Option<seq<Part>> {
    if segments == [] then Some([])
    else
      var text := if segments[0].isHole then Some(segments[0].text) else Unescape(segments[0].text);
      var rest := PartsOf(segments[1..]);
      if text.None? || rest.None? then None
      else Some([if segments[0].isHole then Hole(text.value) else Literal(text.value)] + rest.value)
  }

  predicate AnyHole(segments: seq<Segment>) {
    exists i :: 0 <= i < |segments| && segments[i].isHole
  }

  function Joined(segments: seq<Segment>): string {
    if segments == [] then "" else segments[0].text + Joined(segments[1..])
  }

  function Build(content: string): Built {
    match Scan(content)
    case Err(e) => Rejected(e)
    case Ok(segments) =>
      if AnyHole(segments) then
        var parts := PartsOf(segments);
        if parts.None? then BadEscape else Interp(parts.value)
      else
        var text := Unescape(Joined(segments));
        if text.None? then BadEscape else PlainText(text.value)
  }

  method BuildInterpolation(content: string) returns (r: Built)
    ensures r == Build(content)
  {
    var scanned := ScanInterpolation(content);
    if scanned.Err? {
      return Rejected(scanned.error);
    }
    var segments := scanned.value;
    var anyHole := false;
    var n := 0;
    while n < |segments| && !anyHole
      invariant n <= |segments|
      invariant anyHole ==> AnyHole(segments)
      invariant !anyHole ==> forall k | 0 <= k < n :: !segments[k].isHole
      decreases |segments| - n, !anyHole
    {
      anyHole := segments[n].isHole;
      n := n + 1;
    }
    var i := |segments|;
    if !anyHole {
      var joined := "";
      while i > 0
        invariant 0 <= i <= |segments|
        invariant joined == Joined(segments[i..])
      {
        i := i - 1;
        assert segments[i..][1..] == segments[i + 1..];
        joined := segments[i].text + joined;
      }
      assert segments[0..] == segments;
      var text := Unescape(joined);
      return if text.None? then BadEscape else PlainText(text.value);
    }
    var parts: seq<Part> := [];
    while i > 0
      invariant 0 <= i <= |segments|
      invariant PartsOf(segments[i..]) == Some(parts)
    {
      i := i - 1;
      assert segments[i..][1..] == segments[i + 1..];
      if segments[i].isHole {
        parts := [Hole(segments[i].text)] + parts;
      } else {
        var text := Unescape(segments[i].text);
        if text.None? {
          BadRunSpoilsAll(segments, i);
          return BadEscape;
        }
        parts := [Literal(text.value)] + parts;
      }
    }
    assert segments[0..] == segments;
    r := Interp(parts);
  }

  lemma {:induction false} BadRunSpoilsAll(segments: seq<Segment>, i: nat)
    requires i < |segments| && !segments[i].isHole && Unescape(segments[i].text).None?
    ensures PartsOf(segments).None?
    decreases i
  {
    if i > 0 {
      BadRunSpoilsAll(segments[1..], i - 1);
    }
  }

  // ---- What a printed text is read as ---------------------------------------------------------------

  /** Doubled closing braces are read as one. */
  function Collapse(text: string): (s: string)
    ensures |s| <= |text| && (text != "" ==> s != "")
  {
    if text == "" then ""
    else if text[0] == '}' && |text| > 1 && text[1] == '}' then "}" + Collapse(text[2..])
    else [text[0]] + Collapse(text[1..])
  }

  predicate DoubledBrace(text: string) {
    exists i :: 0 <= i < |text| - 1 && text[i] == '}' && text[i + 1] == '}'
  }

  lemma DoubledTail(text: string)
    requires text != "" && !StartsPair(text)
    ensures DoubledBrace(text) <==> DoubledBrace(text[1..])
  {
    var tail := text[1..];
    assert forall i {:trigger tail[i]} | 0 <= i < |tail| :: tail[i] == text[i + 1];
    if i :| 0 <= i < |text| - 1 && text[i] == '}' && text[i + 1] == '}' {
      assert tail[i - 1] == '}' && tail[i] == '}';
    }
    if i :| 0 <= i < |tail| - 1 && tail[i] == '}' && tail[i + 1] == '}' {
      assert text[i + 1] == '}' && text[i + 2] == '}';
    }
  }

  lemma {:induction false} CollapseKeepsIff(text: string)
    ensures DoubledBrace(text) ==> |Collapse(text)| < |text|
    ensures !DoubledBrace(text) ==> Collapse(text) == text
    decreases |text|
  {
    if text != "" {
      if StartsPair(text) {
        assert DoubledBrace(text);
      } else {
        DoubledTail(text);
        CollapseKeepsIff(text[1..]);
      }
    }
  }

  function RawChar(c: char): (s: string)
    ensures s != ""
  {
    if c == '{' then "{" else EscapeChar(c)
  }

  /** The run the scanner gathers for a text: braces bare, every other escape still there. */
  function Raw(text: string): (s: string)
    ensures text != "" <==> s != ""
  {
    if text == "" then "" else RawChar(text[0]) + Raw(text[1..])
  }

  predicate EndsRun(content: string, e: nat) {
    e == |content| || (e + 1 < |content| && content[e] == '{' && content[e + 1] != '{')
  }

  predicate StartsPair(text: string) { |text| > 1 && text[0] == '}' && text[1] == '}' }

  lemma CharScanned(content: string, i: nat, c: char)
    requires Written(content, i, EscapeChar(c))
    requires c == '}' && i + 1 < |content| ==> content[i + 1] != '}'
    ensures i < |content| && NextChunk(content, i) == Chunk(RawChar(c), i + |EscapeChar(c)|)
  {
    WrittenChar(content, i, EscapeChar(c));
  }

  lemma EscapeFirst(text: string)
    requires text != ""
    ensures Escape(text) == EscapeChar(text[0]) + Escape(text[1..])
    ensures Escape(text) != "" && (Escape(text)[0] == '}' <==> text[0] == '}')
  {
    assert EscapeChar(text[0])[0] == '}' <==> text[0] == '}';
  }

  lemma OneScanned(content: string, i: nat, text: string)
    requires Written(content, i, Escape(text)) && EndsRun(content, i + |Escape(text)|)
    requires text != "" && !StartsPair(text)
    ensures var next := i + |EscapeChar(text[0])|;
      i < |content| && NextChunk(content, i) == Chunk(RawChar(text[0]), next)
      && Written(content, next, Escape(text[1..])) && i + |Escape(text)| == next + |Escape(text[1..])|
  {
    EscapeFirst(text);
    var next := i + |EscapeChar(text[0])|;
    WrittenParts(content, i, EscapeChar(text[0]), Escape(text[1..]));
    if |text| > 1 {
      EscapeFirst(text[1..]);
      WrittenChar(content, next, Escape(text[1..]));
    }
    CharScanned(content, i, text[0]);
  }

  lemma PairScanned(content: string, i: nat, text: string)
    requires Written(content, i, Escape(text)) && StartsPair(text)
    ensures i + 1 < |content| && NextChunk(content, i) == Chunk("}", i + 2)
    ensures Written(content, i + 2, Escape(text[2..])) && |Escape(text)| == 2 + |Escape(text[2..])|
  {
    assert text[1..][1..] == text[2..];
    assert Escape(text) == "}" + ("}" + Escape(text[2..]));
    WrittenParts(content, i, "}", "}" + Escape(text[2..]));
    WrittenParts(content, i + 1, "}", Escape(text[2..]));
    WrittenChar(content, i, "}");
    WrittenChar(content, i + 1, "}");
  }

  lemma RawCons(c: char, text: string)
    ensures Raw([c] + text) == RawChar(c) + Raw(text)
  {
    assert ([c] + text)[1..] == text;
  }

  lemma RawOfPair(text: string)
    requires StartsPair(text)
    ensures Raw(Collapse(text)) == "}" + Raw(Collapse(text[2..]))
  {
    assert Collapse(text) == ['}'] + Collapse(text[2..]);
    RawCons('}', Collapse(text[2..]));
  }

  lemma RawOfOne(text: string)
    requires text != "" && !StartsPair(text)
    ensures Raw(Collapse(text)) == RawChar(text[0]) + Raw(Collapse(text[1..]))
  {
    assert Collapse(text) == [text[0]] + Collapse(text[1..]);
    RawCons(text[0], Collapse(text[1..]));
  }

  lemma {:induction false} TextScanned(content: string, i: nat, text: string, e: nat)
    requires Written(content, i, Escape(text)) && e == i + |Escape(text)| && EndsRun(content, e)
    ensures RunFrom(content, i) == Run(Raw(Collapse(text)), e)
    decreases |text|
  {
    if text == "" {
      RunEnds(content, i);
    } else {
      var n, next, piece := TextStep(content, i, text, e);
      TextScanned(content, next, text[n..], e);
    }
  }

  lemma RunEnds(content: string, e: nat)
    requires EndsRun(content, e)
    ensures RunFrom(content, e) == Run("", e)
  {
  }

  /** One step through a written text: n of its characters are taken. */
  lemma TextStep(content: string, i: nat, text: string, e: nat) returns (n: nat, next: nat, piece: string)
    requires text != "" && Written(content, i, Escape(text)) && e == i + |Escape(text)| && EndsRun(content, e)
    ensures 0 < n <= |text| && i < next <= |content|
    ensures Written(content, next, Escape(text[n..])) && e == next + |Escape(text[n..])|
    ensures Raw(Collapse(text)) == piece + Raw(Collapse(text[n..]))
    ensures var more := RunFrom(content, next);
      RunFrom(content, i) == Run(piece + more.text, more.next)
  {
    if StartsPair(text) {
      PairScanned(content, i, text);
      RawOfPair(text);
      n, next, piece := 2, i + 2, "}";
    } else {
      OneScanned(content, i, text);
      RawOfOne(text);
      n, next, piece := 1, i + |EscapeChar(text[0])|, RawChar(text[0]);
    }
    ChunkRuns(content, i, piece, next, RunFrom(content, next));
  }

  lemma ChunkRuns(content: string, i: nat, text: string, next: nat, more: Run)
    requires i < |content| && NextChunk(content, i) == Chunk(text, next) && RunFrom(content, next) == more
    ensures RunFrom(content, i) == Run(text + more.text, more.next)
  {
  }

  lemma {:induction false} RawUnescapes(raw: string, k: nat, text: string)
    requires Written(raw, k, Raw(text)) && k + |Raw(text)| == |raw|
    ensures UnescapeFrom(raw, k) == Some(text)
    decreases |text|
  {
    if text != "" {
      var first := RawChar(text[0]);
      WrittenParts(raw, k, first, Raw(text[1..]));
      WrittenChar(raw, k, first);
      RawUnescapes(raw, k + |first|, text[1..]);
      assert [text[0]] + text[1..] == text;
    }
  }

  lemma RawRoundTrip(text: string)
    ensures Unescape(Raw(text)) == Some(text)
  {
    WrittenIsSlice(Raw(text), 0, Raw(text));
    RawUnescapes(Raw(text), 0, text);
  }

  /** The parts that come back: runs next to one another are one run, empty runs are gone,
      doubled closing braces are single, and a placeholder that starts with a brace starts
      with a space. pending is the run gathered so far. */
  function Normal(parts: seq<Part>, pending: string): seq<Part> {
    if parts == [] then RunOf(pending)
    else match parts[0]
      case Literal(text) => Normal(parts[1..], pending + text)
      case Hole(src) => RunOf(pending) + [Hole(Spaced(src))] + Normal(parts[1..], "")
  }

  function RunOf(text: string): seq<Part> {
    if text == "" then [] else [Literal(Collapse(text))]
  }

  /** A placeholder that the scanner can take: in the grammar and not blank. */
  ghost predicate GoodHole(src: string) { IsHoleText(src) && !IsBlank(src) }

  ghost predicate GoodHoles(parts: seq<Part>) {
    forall i | 0 <= i < |parts| && parts[i].Hole? :: GoodHole(parts[i].src)
  }

  lemma SpacedIsGood(src: string)
    requires GoodHole(src)
    ensures GoodHole(Spaced(src)) && Spaced(src) != "" && Spaced(src)[0] != '{'
  {
    if src[0] == '{' {
      var tokens :| Text(tokens) == src && Balanced(tokens, 0);
      var t := HoleToken.Plain(' ');
      assert ([t] + tokens)[1..] == tokens;
      assert Text([t] + tokens) == " " + src;
      assert Spaced(src)[1..] == src;
    }
  }

  /** What the segments say, offsets aside. */
  function RawParts(segments: seq<Segment>): seq<Part> {
    seq(|segments|, i requires 0 <= i < |segments| =>
      if segments[i].isHole then Hole(segments[i].text) else Literal(segments[i].text))
  }

  function RawNormal(parts: seq<Part>): seq<Part> {
    seq(|parts|, i requires 0 <= i < |parts| =>
      if parts[i].Hole? then parts[i] else Literal(Raw(parts[i].text)))
  }

  predicate ToEnd(content: string, i: nat, rest: string) {
    Written(content, i, rest) && i + |rest| == |content|
  }

  lemma {:induction false} PartsScanned(content: string, i: nat, pending: string, parts: seq<Part>, rest: string)
    requires GoodHoles(parts) && rest == Escape(pending) + Render(parts) && ToEnd(content, i, rest)
    ensures i <= |content|
    ensures ScanFrom(content, i).Ok? && RawParts(ScanFrom(content, i).value) == RawNormal(Normal(parts, pending))
    decreases |parts|
  {
    WrittenInside(content, i, rest);
    if parts == [] {
      assert Escape(pending) + "" == Escape(pending);
      TextScanned(content, i, pending, |content|);
      LastRunScanned(content, i);
      RawPartsOfRun(pending, i);
    } else if parts[0].Literal? {
      JoinRuns(pending, parts);
      PartsScanned(content, i, pending + parts[0].text, parts[1..], rest);
    } else {
      var e, next := RunAndHoleScanned(content, i, pending, parts, rest);
      PartsScanned(content, next, "", parts[1..], Render(parts[1..]));
      RawPartsJoin(pending, i, Segment(true, Spaced(parts[0].src), e + 1),
                   ScanFrom(content, next).value, Normal(parts[1..], ""));
    }
  }

  lemma LastRunScanned(content: string, i: nat)
    requires i <= |content| && RunFrom(content, i).next == |content|
    ensures ScanFrom(content, i) == Ok(Flush(RunFrom(content, i).text, i))
  {
  }

  lemma JoinRuns(pending: string, parts: seq<Part>)
    requires parts != [] && parts[0].Literal?
    ensures Escape(pending) + Render(parts) == Escape(pending + parts[0].text) + Render(parts[1..])
  {
    EscapeJoins(pending, parts[0].text);
    Regroup(Escape(pending), Escape(parts[0].text), Render(parts[1..]));
  }

  lemma RunAndHoleScanned(content: string, i: nat, pending: string, parts: seq<Part>, rest: string)
    returns (e: nat, next: nat)
    requires i <= |content| && GoodHoles(parts) && parts != [] && parts[0].Hole?
    requires rest == Escape(pending) + Render(parts) && ToEnd(content, i, rest)
    ensures next <= |content| && ToEnd(content, next, Render(parts[1..]))
    ensures Render(parts[1..]) == Escape("") + Render(parts[1..])
    ensures ScanFrom(content, i)
      == Before(Flush(Raw(Collapse(pending)), i) + [Segment(true, Spaced(parts[0].src), e + 1)],
                ScanFrom(content, next))
  {
    RenderHole(parts);
    SpacedIsGood(parts[0].src);
    e, next := RunThenHole(content, i, pending, Spaced(parts[0].src), Render(parts[1..]), Render(parts));
  }

  lemma RunThenHole(content: string, i: nat, pending: string, src: string, tail: string, rest: string)
    returns (e: nat, next: nat)
    requires i <= |content| && GoodHole(src) && src[0] != '{' && rest == "{" + (src + ("}" + tail))
    requires ToEnd(content, i, Escape(pending) + rest)
    ensures next <= |content| && ToEnd(content, next, tail)
    ensures ScanFrom(content, i)
      == Before(Flush(Raw(Collapse(pending)), i) + [Segment(true, src, e + 1)], ScanFrom(content, next))
  {
    e := RunScanned(content, i, pending, src, tail, rest);
    next := HoleAfterRun(content, i, Run(Raw(Collapse(pending)), e), src, tail, rest);
  }

  lemma RunScanned(content: string, i: nat, pending: string, src: string, tail: string, rest: string)
    returns (e: nat)
    requires i <= |content| && GoodHole(src) && src[0] != '{' && rest == "{" + (src + ("}" + tail))
    requires ToEnd(content, i, Escape(pending) + rest)
    ensures ToEnd(content, e, rest) && RunFrom(content, i) == Run(Raw(Collapse(pending)), e)
  {
    e := i + |Escape(pending)|;
    WrittenParts(content, i, Escape(pending), rest);
    HoleScanned(content, e, src, tail, rest);
    TextScanned(content, i, pending, e);
  }

  lemma HoleAfterRun(content: string, i: nat, run: Run, src: string, tail: string, rest: string)
    returns (next: nat)
    requires i <= |content| && GoodHole(src) && src[0] != '{' && rest == "{" + (src + ("}" + tail))
    requires RunFrom(content, i) == run && ToEnd(content, run.next, rest)
    ensures next <= |content| && ToEnd(content, next, tail)
    ensures ScanFrom(content, i)
      == Before(Flush(run.text, i) + [Segment(true, src, run.next + 1)], ScanFrom(content, next))
  {
    next := run.next + |src| + 2;
    HoleScanned(content, run.next, src, tail, rest);
    HoleStepScans(content, i, run, next, src);
  }

  lemma HoleStepScans(content: string, i: nat, run: Run, next: nat, src: string)
    requires i <= |content| && RunFrom(content, i) == run
    requires run.next + 2 <= next <= |content| && FindClose(content, run.next + 1, 0) == Closed(next - 1)
    requires content[run.next + 1..next - 1] == src && !IsBlank(src)
    ensures ScanFrom(content, i)
      == Before(Flush(run.text, i) + [Segment(true, src, run.next + 1)], ScanFrom(content, next))
  {
    assert Finish(content, run, i) == AfterRun(content, run, i, Closed(next - 1));
  }

  lemma RawPartsOfRun(pending: string, start: nat)
    ensures RawParts(Flush(Raw(Collapse(pending)), start)) == RawNormal(RunOf(pending))
  {
  }

  lemma RawPartsJoin(pending: string, start: nat, hole: Segment, more: seq<Segment>, parts: seq<Part>)
    requires hole.isHole && RawParts(more) == RawNormal(parts)
    ensures RawParts(Flush(Raw(Collapse(pending)), start) + [hole] + more)
      == RawNormal(RunOf(pending) + [Hole(hole.text)] + parts)
  {
    RawPartsOfRun(pending, start);
    RawPartsAround(Flush(Raw(Collapse(pending)), start), hole, more);
    RawNormalAround(RunOf(pending), Hole(hole.text), parts);
  }

  lemma RawPartsAround(run: seq<Segment>, hole: Segment, more: seq<Segment>)
    requires hole.isHole
    ensures RawParts(run + [hole] + more) == RawParts(run) + [Hole(hole.text)] + RawParts(more)
  {
  }

  lemma RawNormalAround(run: seq<Part>, hole: Part, more: seq<Part>)
    requires hole.Hole?
    ensures RawNormal(run + [hole] + more) == RawNormal(run) + [hole] + RawNormal(more)
  {
  }

  lemma {:induction false} EscapeJoins(a: string, b: string)
    ensures Escape(a + b) == Escape(a) + Escape(b)
    decreases |a|
  {
    if a == "" {
      assert a + b == b;
    } else {
      EscapeJoins(a[1..], b);
      assert (a + b)[1..] == a[1..] + b;
      Regroup(EscapeChar(a[0]), Escape(a[1..]), Escape(b));
    }
  }

  lemma HoleScanned(content: string, e: nat, src: string, tail: string, rest: string)
    requires GoodHole(src) && src[0] != '{' && rest == "{" + (src + ("}" + tail)) && ToEnd(content, e, rest)
    ensures var next := e + |src| + 2;
      && EndsRun(content, e) && next <= |content| && FindClose(content, e + 1, 0) == Closed(next - 1)
      && content[e + 1..next - 1] == src && ToEnd(content, next, tail)
  {
    HoleIsWritten(content, e, src, tail);
    HoleClosesIffInGrammar(content, e + 1, src);
  }

  lemma RenderHole(parts: seq<Part>)
    requires parts != [] && parts[0].Hole?
    ensures Render(parts) == "{" + (Spaced(parts[0].src) + ("}" + Render(parts[1..])))
  {
    var src, rest := Spaced(parts[0].src), Render(parts[1..]);
    Regroup("{", src, "}");
    Regroup("{", src + "}", rest);
    Regroup(src, "}", rest);
  }

  lemma HoleIsWritten(content: string, e: nat, src: string, tail: string)
    requires ToEnd(content, e, "{" + (src + ("}" + tail))) && src != ""
    ensures e + 1 < |content| && content[e] == '{' && content[e + 1] == src[0]
    ensures Written(content, e + 1, src + "}")
    ensures e + |src| + 2 <= |content| && content[e + 1..e + 1 + |src|] == src
    ensures ToEnd(content, e + |src| + 2, tail)
  {
    WrittenParts(content, e, "{", src + ("}" + tail));
    WrittenParts(content, e + 1, src, "}" + tail);
    WrittenParts(content, e + 1 + |src|, "}", tail);
    WrittenParts(content, e + 1, src, "}");
    WrittenChar(content, e, "{");
    WrittenChar(content, e + 1, src);
    WrittenIsSlice(content, e + 1, src);
  }

  lemma {:induction false} RawNormalUnescapes(segments: seq<Segment>, parts: seq<Part>)
    requires RawParts(segments) == RawNormal(parts)
    ensures PartsOf(segments) == Some(parts)
    decreases |parts|
  {
    assert |segments| == |RawParts(segments)| == |parts|;
    if parts != [] {
      assert RawParts(segments)[0] == RawNormal(parts)[0];
      assert RawParts(segments[1..]) == RawParts(segments)[1..];
      assert RawNormal(parts[1..]) == RawNormal(parts)[1..];
      RawNormalUnescapes(segments[1..], parts[1..]);
      if parts[0].Literal? {
        RawRoundTrip(parts[0].text);
      }
      assert [parts[0]] + parts[1..] == parts;
    }
  }

  predicate HasHole(parts: seq<Part>) { exists i :: 0 <= i < |parts| && parts[i].Hole? }

  lemma {:induction false} NormalHasHole(parts: seq<Part>, pending: string)
    requires HasHole(parts)
    ensures HasHole(Normal(parts, pending))
    decreases |parts|
  {
    if parts[0].Literal? {
      var i :| 0 <= i < |parts| && parts[i].Hole?;
      assert parts[1..][i - 1].Hole?;
      NormalHasHole(parts[1..], pending + parts[0].text);
    } else {
      assert Normal(parts, pending)[|RunOf(pending)|].Hole?;
    }
  }

  /** Whatever parts with usable placeholders are printed, this is what is read back. */
  lemma PrintedPartsAreRead(parts: seq<Part>)
    requires GoodHoles(parts) && HasHole(parts)
    ensures Build(Render(parts)) == Interp(Normal(parts, ""))
  {
    var content := Render(parts);
    WholeIsWritten(content);
    assert Escape("") + content == content;
    PartsScanned(content, 0, "", parts, content);
    NormalHasHole(parts, "");
    RawNormalUnescapes(Scan(content).value, Normal(parts, ""));
    HolesStay(Scan(content).value, Normal(parts, ""));
  }

  lemma WholeIsWritten(content: string)
    ensures ToEnd(content, 0, content)
  {
    WrittenIsSlice(content, 0, content);
  }

  lemma HolesStay(segments: seq<Segment>, parts: seq<Part>)
    requires RawParts(segments) == RawNormal(parts) && HasHole(parts)
    ensures AnyHole(segments)
  {
    var i :| 0 <= i < |parts| && parts[i].Hole?;
    assert |segments| == |RawParts(segments)| == |parts|;
    assert RawParts(segments)[i] == RawNormal(parts)[i];
    assert segments[i].isHole;
  }

  /** A backslash and what it escapes, or a character that needs none. */
  predicate Written1(s: string) {
    || (|s| == 1 && s[0] != '"' && s[0] != '\\' && s[0] != '\n' && s[0] != '\r' && s[0] != '\t' && s[0] != '{')
    || (|s| == 2 && s[0] == '\\' && s[1] in {'\\', '"', '{', 'n', 'r', 't'})
  }

  predicate AllWritten(text: string)
    decreases |text|
  {
    text == ""
    || (|text| >= 1 && Written1(text[..1]) && AllWritten(text[1..]))
    || (|text| >= 2 && Written1(text[..2]) && AllWritten(text[2..]))
  }

  /** A printed run stays on one line and inside its quotes, and opens no placeholder. */
  lemma {:induction false} PrintedIsWritten(text: string)
    ensures AllWritten(Escape(text))
    decreases |text|
  {
    if text != "" {
      PrintedIsWritten(text[1..]);
      var one, whole := EscapeChar(text[0]), Escape(text);
      assert Written1(one);
      assert whole[..|one|] == one && whole[|one|..] == Escape(text[1..]);
    }
  }

  /** What the escapes stand for. */
  lemma EscapesStandFor(c: char)
    ensures Unescape(['\\', c]) ==
      if c in {'x', 'u', 'U', 'c', '0', '1', '2', '3', '4', '5', '6', '7'} then None
      else Some([if c == 'n' then '\n' else if c == 't' then '\t' else if c == 'r' then '\r'
                 else if c == 'a' then 7 as char else if c == 'b' then 8 as char else if c == 'v' then 11 as char
                 else if c == 'f' then 12 as char else if c == 'e' then 27 as char else c])
  {
    var raw := ['\\', c];
    assert UnescapeFrom(raw, 2) == Some("");
    assert forall x: char :: [x] + "" == [x];
  }

  // ---- Exactly when the parts come back ---------------------------------------------------------------

  predicate Tidy(parts: seq<Part>) {
    forall i | 0 <= i < |parts| :: TidyAt(parts, i)
  }

  /** No run is empty, has doubled closing braces or follows another run; no placeholder
      begins with a brace. */
  predicate TidyAt(parts: seq<Part>, i: nat)
    requires i < |parts|
  {
    match parts[i]
    case Literal(text) => text != "" && !DoubledBrace(text) && (i + 1 < |parts| ==> parts[i + 1].Hole?)
    case Hole(src) => src == "" || src[0] != '{'
  }

  lemma {:induction false} TidyIsNormal(parts: seq<Part>)
    requires Tidy(parts)
    ensures Normal(parts, "") == parts
    decreases |parts|
  {
    if parts != [] {
      assert TidyAt(parts, 0);
      TidyTail(parts);
      if parts[0].Hole? {
        TidyIsNormal(parts[1..]);
        assert [] + [parts[0]] + parts[1..] == parts;
      } else {
        var text := parts[0].text;
        CollapseKeepsIff(text);
        assert "" + text == text;
        if |parts| > 1 {
          assert TidyAt(parts, 1);
          TidyTail(parts[1..]);
          TidyIsNormal(parts[1..][1..]);
          assert [Literal(text)] + [parts[1]] + parts[1..][1..] == parts;
        } else {
          assert Normal(parts[1..], text) == [Literal(text)];
        }
      }
    }
  }

  lemma TidyTail(parts: seq<Part>)
    requires Tidy(parts) && parts != []
    ensures Tidy(parts[1..])
  {
    forall i | 0 <= i < |parts[1..]|
      ensures TidyAt(parts[1..], i)
    {
      assert TidyAt(parts, i + 1);
    }
  }

  /** The characters of all runs together, and the number of parts. */
  function Weight(parts: seq<Part>): nat {
    if parts == [] then 0
    else (if parts[0].Literal? then 1 + |parts[0].text| else 0) + Weight(parts[1..])
  }

  /** Reading back never adds runs or characters, and keeps their total only of tidy runs. */
  lemma {:induction false} NormalWeighsLess(parts: seq<Part>, pending: string)
    ensures Weight(Normal(parts, pending)) <= Weight(parts) + (if pending == "" then 0 else 1 + |pending|)
    ensures Weight(Normal(parts, pending)) == Weight(parts) + (if pending == "" then 0 else 1 + |pending|) ==>
      TidyRuns(parts) && !DoubledBrace(pending) && (pending != "" && parts != [] ==> parts[0].Hole?)
    decreases |parts|
  {
    CollapseKeepsIff(pending);
    RunWeight(pending);
    if parts != [] {
      if parts[0].Literal? {
        NormalWeighsLess(parts[1..], pending + parts[0].text);
        assert pending == "" ==> pending + parts[0].text == parts[0].text;
      } else {
        NormalWeighsLess(parts[1..], "");
        WeightJoins(RunOf(pending), [Hole(Spaced(parts[0].src))] + Normal(parts[1..], ""));
        assert RunOf(pending) + ([Hole(Spaced(parts[0].src))] + Normal(parts[1..], "")) == Normal(parts, pending);
        assert ([Hole(Spaced(parts[0].src))] + Normal(parts[1..], ""))[1..] == Normal(parts[1..], "");
      }
    }
  }

  lemma RunWeight(text: string)
    ensures Weight(RunOf(text)) == if text == "" then 0 else 1 + |Collapse(text)|
  {
    if text != "" {
      assert RunOf(text)[1..] == [];
    }
  }

  lemma {:induction false} WeightJoins(a: seq<Part>, b: seq<Part>)
    ensures Weight(a + b) == Weight(a) + Weight(b)
    decreases |a|
  {
    if a == [] {
      assert a + b == b;
    } else {
      WeightJoins(a[1..], b);
      assert (a + b)[1..] == a[1..] + b;
    }
  }

  predicate TidyRuns(parts: seq<Part>) {
    forall i | 0 <= i < |parts| && parts[i].Literal? :: TidyAt(parts, i)
  }

  /** Every placeholder that was scanned is usable and begins with no brace, and no run is
      empty or follows another. */
  lemma {:induction false} ScannedHolesAreGood(content: string, i: nat)
    requires i <= |content|
    ensures ScanFrom(content, i).Ok? ==> AllGood(ScanFrom(content, i).value)
    decreases |content| - i
  {
    if RunFrom(content, i).next == |content| {
      LastRunScanned(content, i);
    } else if ScanFrom(content, i).Ok? {
      var e, j, more := ScanOpens(content, i);
      ScannedHolesAreGood(content, j + 1);
      ScannedHoleIsGood(content, e, j, content[e + 1..j]);
      GoodJoins(RunFrom(content, i).text, i, Segment(true, content[e + 1..j], e + 1), more);
    }
  }

  lemma ScanOpens(content: string, i: nat) returns (e: nat, j: nat, more: seq<Segment>)
    requires i <= |content| && RunFrom(content, i).next < |content| && ScanFrom(content, i).Ok?
    ensures i <= e < j < |content| && NextChunk(content, e) == HoleOpens
    ensures FindClose(content, e + 1, 0) == Closed(j) && !IsBlank(content[e + 1..j])
    ensures ScanFrom(content, j + 1) == Ok(more)
    ensures ScanFrom(content, i)
      == Ok(Flush(RunFrom(content, i).text, i) + [Segment(true, content[e + 1..j], e + 1)] + more)
  {
    var run := RunFrom(content, i);
    RunStopsAtHole(content, i);
    e := run.next;
    var end := FindClose(content, e + 1, 0);
    assert Finish(content, run, i) == AfterRun(content, run, i, end);
    j := end.at;
    more := ScanFrom(content, j + 1).value;
  }

  lemma GoodJoins(text: string, start: nat, hole: Segment, more: seq<Segment>)
    requires hole.isHole && GoodHole(hole.text) && hole.text[0] != '{' && AllGood(more)
    ensures AllGood(Flush(text, start) + [hole] + more)
  {
    var run := Flush(text, start);
    var all := run + [hole] + more;
    assert all[|run|] == hole;
    assert forall k {:trigger all[k]} | |run| < k < |all| :: all[k] == more[k - |run| - 1];
    forall k | 0 <= k < |all|
      ensures GoodAt(all, k)
    {
      assert k > |run| ==> GoodAt(more, k - |run| - 1);
    }
  }

  ghost predicate AllGood(segments: seq<Segment>) {
    forall k | 0 <= k < |segments| :: GoodAt(segments, k)
  }

  /** A placeholder is usable and begins with no brace, and a run has text and is not
      followed by another run. */
  ghost predicate GoodAt(segments: seq<Segment>, k: nat)
    requires k < |segments|
  {
    if segments[k].isHole then GoodHole(segments[k].text) && segments[k].text[0] != '{'
    else segments[k].text != "" && (k + 1 < |segments| ==> segments[k + 1].isHole)
  }

  lemma {:induction false} RunStopsAtHole(content: string, i: nat)
    requires i <= |content|
    ensures var e := RunFrom(content, i).next;
      e < |content| ==> NextChunk(content, e) == HoleOpens
    decreases |content| - i
  {
    if i < |content| && NextChunk(content, i).Chunk? {
      RunStopsAtHole(content, NextChunk(content, i).next);
    }
  }

  lemma ScannedHoleIsGood(content: string, e: nat, j: nat, src: string)
    requires e < j < |content| && NextChunk(content, e) == HoleOpens && FindClose(content, e + 1, 0) == Closed(j)
    requires src == content[e + 1..j] && !IsBlank(src)
    ensures GoodHole(src) && src[0] != '{'
  {
    WrittenIsSlice(content, e + 1, src);
    WrittenIsSlice(content, j, "}");
    WrittenParts(content, e + 1, src, "}");
    HoleClosesIffInGrammar(content, e + 1, src);
  }

  predicate KeepsKinds(segments: seq<Segment>, parts: seq<Part>) {
    |parts| == |segments| && forall k | 0 <= k < |segments| :: KeepsKind(segments[k], parts[k])
  }

  predicate KeepsKind(s: Segment, p: Part) {
    match p
    case Hole(src) => s.isHole && s.text == src
    case Literal(text) => !s.isHole && (s.text != "" ==> text != "")
  }

  lemma {:induction false} PartsOfKeepsKinds(segments: seq<Segment>)
    ensures PartsOf(segments).Some? ==> KeepsKinds(segments, PartsOf(segments).value)
    decreases |segments|
  {
    if segments != [] {
      PartsOfKeepsKinds(segments[1..]);
    }
  }

  /** What was built is as tidy as can be, but for doubled braces in its runs. */
  lemma BuiltPartsAreGood(content: string)
    requires Build(content).Interp?
    ensures var parts := Build(content).parts;
      GoodHoles(parts) && HasHole(parts)
      && forall k | 0 <= k < |parts| :: TidyAt(parts, k) <==> !(parts[k].Literal? && DoubledBrace(parts[k].text))
  {
    var segments := Scan(content).value;
    var parts := Build(content).parts;
    ScannedHolesAreGood(content, 0);
    PartsOfKeepsKinds(segments);
    var hole :| 0 <= hole < |segments| && segments[hole].isHole;
    assert KeepsKind(segments[hole], parts[hole]);
    forall k | 0 <= k < |parts|
      ensures parts[k].Hole? ==> GoodHole(parts[k].src)
      ensures TidyAt(parts, k) <==> !(parts[k].Literal? && DoubledBrace(parts[k].text))
    {
      assert GoodAt(segments, k) && KeepsKind(segments[k], parts[k]);
      assert k + 1 < |parts| ==> KeepsKind(segments[k + 1], parts[k + 1]);
    }
  }

  /** Printed parts come back as they were exactly when there is a placeholder among them,
      every placeholder is usable and begins with no brace, and no run is empty, follows
      another run or has two closing braces in a row. */
  lemma PartsComeBackIff(parts: seq<Part>)
    ensures Build(Render(parts)) == Interp(parts) <==> HasHole(parts) && GoodHoles(parts) && Tidy(parts)
  {
    if HasHole(parts) && GoodHoles(parts) && Tidy(parts) {
      PrintedPartsAreRead(parts);
      TidyIsNormal(parts);
    }
    if Build(Render(parts)) == Interp(parts) {
      BuiltPartsAreGood(Render(parts));
      PrintedPartsAreRead(parts);
      NormalWeighsLess(parts, "");
      forall i | 0 <= i < |parts|
        ensures TidyAt(parts, i)
      {
      }
    }
  }

  /** What has been read once is read the same again, unless braces are still doubled. */
  lemma SecondReadIsExactIff(content: string)
    requires Build(content).Interp?
    ensures var parts := Build(content).parts;
      Build(Render(parts)) == Interp(parts)
      <==> forall k | 0 <= k < |parts| && parts[k].Literal? :: !DoubledBrace(parts[k].text)
  {
    BuiltPartsAreGood(content);
    PartsComeBackIff(Build(content).parts);
  }

  /** Each reading halves the closing braces of a run again. */
  lemma ClosingBracesAreHalved()
    ensures Build(Render([Literal("}}}}"), Hole("x")])) == Interp([Literal("}}"), Hole("x")])
    ensures Build(Render([Literal("}}"), Hole("x")])) == Interp([Literal("}"), Hole("x")])
  {
    NameIsGood();
    assert Collapse("}}}}") == "}}" && Collapse("}}") == "}";
    RunBeforeHole("}}}}", "x");
    RunBeforeHole("}}", "x");
  }

  lemma NameIsGood()
    ensures GoodHole("x")
  {
    var tokens := [HoleToken.Plain('x')];
    assert Text(tokens) == "x" && Balanced(tokens, 0);
  }

  lemma RunBeforeHole(text: string, src: string)
    requires text != "" && GoodHole(src) && src[0] != '{'
    ensures Build(Render([Literal(text), Hole(src)])) == Interp([Literal(Collapse(text)), Hole(src)])
  {
    var parts := [Literal(text), Hole(src)];
    assert parts[1..] == [Hole(src)] && parts[1..][1..] == [];
    assert parts[1].Hole?;
    PrintedPartsAreRead(parts);
    assert "" + text == text;
    assert Normal(parts, "") == Normal(parts[1..], text) == RunOf(text) + [Hole(src)] + [];
  }
}
