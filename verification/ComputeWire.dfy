/** Messages between compute client and server: frames, output events and remote calls. */
module ComputeWire {
  import opened Utils
  import opened WireBytes
  import opened CallBinding
  import opened CallSpecCode

  // ---- Output events -----------------------------------------------------------------------------------------

  datatype Source = Source(name: Bytes, line: nat, column: nat)

  /** Kind, severity, flush and presentation are given by their numbers. */
  datatype OutputEvent = OutputEvent(
    kind: Byte, severity: Byte, flush: bool, presentation: Byte,
    channel: Bytes, category: Bytes, text: Bytes, source: Option<Source>)

  const LastKind := 2
  const LastSeverity := 6
  const ChannelMaxBytes := 128

  predicate ValidEvent(e: OutputEvent) {
    && e.kind <= LastKind && e.severity <= LastSeverity && e.presentation <= 1
    && 0 < |e.channel| <= ChannelMaxBytes && FitsLength(e.category) && FitsLength(e.text)
    && (e.source.Some? ==>
          FitsLength(e.source.value.name) && e.source.value.line < Range(4) && e.source.value.column < Range(4))
  }

  function WriteSource(s: Source): Bytes {
    WriteString(s.name) + (WriteNumber(s.line, 4) + WriteNumber(s.column, 4))
  }

  function WriteHead(e: OutputEvent): Bytes {
    [e.kind, e.severity, if e.flush then 1 else 0, e.presentation]
  }

  function WriteTail(source: Option<Source>): Bytes {
    if source.Some? then [1] + WriteSource(source.value) else [0]
  }

  function WriteEvent(e: OutputEvent): Bytes {
    WriteHead(e) + (WriteString(e.channel) + (WriteString(e.category) + (WriteString(e.text) + WriteTail(e.source))))
  }

  function ReadSource(buf: Bytes, i: nat): Option<Got<Source>> {
    match ReadString(buf, i)
    case None => None
    case Some(name) =>
      match ReadNumber(buf, name.next, 4)
      case None => None
      case Some(line) =>
        match ReadNumber(buf, line.next, 4)
        case None => None
        case Some(column) => Some(Got(Source(name.value, line.value, column.value), column.next))
  }

  function ReadTail(buf: Bytes, i: nat): Option<Got<Option<Source>>> {
    if i >= |buf| || buf[i] > 1 then None
    else if buf[i] == 0 then Some(Got(None, i + 1))
    else match ReadSource(buf, i + 1)
      case None => None
      case Some(s) => Some(Got(Some(s.value), s.next))
  }

  /** None is any of the exceptions. */
  function ReadEvent(buf: Bytes, i: nat): Option<Got<OutputEvent>> {
    if i + 4 > |buf| then None
    else if buf[i] > LastKind || buf[i + 1] > LastSeverity || buf[i + 2] > 1 || buf[i + 3] > 1 then None
    else match ReadString(buf, i + 4)
      case None => None
      case Some(channel) =>
        if channel.value == [] || |channel.value| > ChannelMaxBytes then None
        else match ReadString(buf, channel.next)
          case None => None
          case Some(category) =>
            match ReadString(buf, category.next)
            case None => None
            case Some(text) =>
              match ReadTail(buf, text.next)
              case None => None
              case Some(source) =>
                Some(Got(OutputEvent(buf[i], buf[i + 1], buf[i + 2] != 0, buf[i + 3],
                                     channel.value, category.value, text.value, source.value), source.next))
  }

  /** Whatever a string is read as is what lies there. */
  lemma StringRead(buf: Bytes, i: nat)
    requires ReadString(buf, i).Some?
    ensures var r := ReadString(buf, i).value;
      FitsLength(r.value) && At(buf, i, WriteString(r.value)) && r.next == i + |WriteString(r.value)|
  {
    StringReadIff(buf, i, ReadString(buf, i).value.value, ReadString(buf, i).value.next);
  }

  lemma NumberRead(buf: Bytes, i: nat, size: nat)
    requires ReadNumber(buf, i, size).Some?
    ensures var r := ReadNumber(buf, i, size).value;
      r.value < Range(size) && At(buf, i, WriteNumber(r.value, size)) && r.next == i + size
  {
    NumberReadIff(buf, i, size, ReadNumber(buf, i, size).value.value, ReadNumber(buf, i, size).value.next);
  }

  predicate ValidSource(s: Source) { FitsLength(s.name) && s.line < Range(4) && s.column < Range(4) }

  lemma SourceReadIff(buf: Bytes, i: nat, s: Source, next: nat)
    ensures ReadSource(buf, i) == Some(Got(s, next)) <==>
            ValidSource(s) && At(buf, i, WriteSource(s)) && next == i + |WriteSource(s)|
  {
    var j := i + |WriteString(s.name)|;
    AtParts(buf, i, WriteString(s.name), WriteNumber(s.line, 4) + WriteNumber(s.column, 4));
    AtParts(buf, j, WriteNumber(s.line, 4), WriteNumber(s.column, 4));
    StringReadIff(buf, i, s.name, j);
    NumberReadIff(buf, j, 4, s.line, j + 4);
    NumberReadIff(buf, j + 4, 4, s.column, j + 8);
    if ReadSource(buf, i) == Some(Got(s, next)) {
      StringRead(buf, i);
      NumberRead(buf, ReadString(buf, i).value.next, 4);
    }
  }

  lemma TailReadIff(buf: Bytes, i: nat, source: Option<Source>, next: nat)
    ensures ReadTail(buf, i) == Some(Got(source, next)) <==>
            (source.Some? ==> ValidSource(source.value)) && At(buf, i, WriteTail(source))
            && next == i + |WriteTail(source)|
  {
    if source.Some? {
      AtParts(buf, i, [1], WriteSource(source.value));
      SourceReadIff(buf, i + 1, source.value, next);
      assert At(buf, i, [1]) <==> i < |buf| && buf[i] == 1;
    } else {
      assert At(buf, i, [0]) <==> i < |buf| && buf[i] == 0;
    }
  }

  lemma HeadAt(buf: Bytes, i: nat, e: OutputEvent)
    ensures At(buf, i, WriteHead(e)) <==>
      && i + 4 <= |buf| && buf[i] == e.kind && buf[i + 1] == e.severity
      && buf[i + 2] == (if e.flush then 1 else 0) && buf[i + 3] == e.presentation
  {
    AtIsSlice(buf, i, WriteHead(e));
    if i + 4 <= |buf| {
      assert buf[i..i + 4] == [buf[i], buf[i + 1], buf[i + 2], buf[i + 3]];
    }
  }

  lemma EventIsAt(buf: Bytes, i: nat, e: OutputEvent)
    ensures var channel := i + 4; var category := channel + 4 + |e.channel|;
      var text := category + 4 + |e.category|; var tail := text + 4 + |e.text|;
      At(buf, i, WriteEvent(e)) <==>
      && At(buf, i, WriteHead(e)) && At(buf, channel, WriteString(e.channel))
      && At(buf, category, WriteString(e.category))
      && At(buf, text, WriteString(e.text)) && At(buf, tail, WriteTail(e.source))
    ensures |WriteEvent(e)| == 16 + |e.channel| + |e.category| + |e.text| + |WriteTail(e.source)|
  {
    var channel := i + 4;
    var category := channel + 4 + |e.channel|;
    var text := category + 4 + |e.category|;
    AtParts(buf, i, WriteHead(e),
            WriteString(e.channel) + (WriteString(e.category) + (WriteString(e.text) + WriteTail(e.source))));
    AtParts(buf, channel, WriteString(e.channel),
            WriteString(e.category) + (WriteString(e.text) + WriteTail(e.source)));
    AtParts(buf, category, WriteString(e.category), WriteString(e.text) + WriteTail(e.source));
    AtParts(buf, text, WriteString(e.text), WriteTail(e.source));
  }

  predicate HeadIs(buf: Bytes, i: nat, e: OutputEvent) {
    && i + 4 <= |buf| && buf[i] == e.kind && buf[i + 1] == e.severity
    && buf[i + 2] == (if e.flush then 1 else 0) && buf[i + 3] == e.presentation
    && e.kind <= LastKind && e.severity <= LastSeverity && e.presentation <= 1
  }

  lemma EventAssembled(buf: Bytes, i: nat, e: OutputEvent, category: nat, text: nat, tail: nat, next: nat)
    requires HeadIs(buf, i, e) && 0 < |e.channel| <= ChannelMaxBytes
    requires ReadString(buf, i + 4) == Some(Got(e.channel, category))
    requires ReadString(buf, category) == Some(Got(e.category, text))
    requires ReadString(buf, text) == Some(Got(e.text, tail)) && ReadTail(buf, tail) == Some(Got(e.source, next))
    ensures ReadEvent(buf, i) == Some(Got(e, next))
  {
  }

  lemma EventTaken(buf: Bytes, i: nat, e: OutputEvent, next: nat) returns (category: nat, text: nat, tail: nat)
    requires ReadEvent(buf, i) == Some(Got(e, next))
    ensures HeadIs(buf, i, e) && 0 < |e.channel| <= ChannelMaxBytes
    ensures ReadString(buf, i + 4) == Some(Got(e.channel, category))
    ensures ReadString(buf, category) == Some(Got(e.category, text))
    ensures ReadString(buf, text) == Some(Got(e.text, tail)) && ReadTail(buf, tail) == Some(Got(e.source, next))
  {
    category := ReadString(buf, i + 4).value.next;
    text := ReadString(buf, category).value.next;
    tail := ReadString(buf, text).value.next;
  }

  lemma EventIsRead(buf: Bytes, i: nat, e: OutputEvent)
    requires ValidEvent(e) && At(buf, i, WriteEvent(e))
    ensures ReadEvent(buf, i) == Some(Got(e, i + |WriteEvent(e)|))
  {
    EventIsAt(buf, i, e);
    HeadAt(buf, i, e);
    RangeOfFour();
    var category := i + 8 + |e.channel|;
    var text := category + 4 + |e.category|;
    var tail := text + 4 + |e.text|;
    StringReadIff(buf, i + 4, e.channel, category);
    StringReadIff(buf, category, e.category, text);
    StringReadIff(buf, text, e.text, tail);
    TailReadIff(buf, tail, e.source, i + |WriteEvent(e)|);
    EventAssembled(buf, i, e, category, text, tail, i + |WriteEvent(e)|);
  }

  lemma EventWasThere(buf: Bytes, i: nat, e: OutputEvent, next: nat)
    requires ReadEvent(buf, i) == Some(Got(e, next))
    ensures ValidEvent(e) && At(buf, i, WriteEvent(e)) && next == i + |WriteEvent(e)|
  {
    var category, text, tail := EventTaken(buf, i, e, next);
    PiecesWereThere(buf, i, e, category, text, tail, next);
  }

  lemma PiecesWereThere(buf: Bytes, i: nat, e: OutputEvent, category: nat, text: nat, tail: nat, next: nat)
    requires HeadIs(buf, i, e) && 0 < |e.channel| <= ChannelMaxBytes
    requires ReadString(buf, i + 4) == Some(Got(e.channel, category))
    requires ReadString(buf, category) == Some(Got(e.category, text))
    requires ReadString(buf, text) == Some(Got(e.text, tail)) && ReadTail(buf, tail) == Some(Got(e.source, next))
    ensures ValidEvent(e) && At(buf, i, WriteEvent(e)) && next == i + |WriteEvent(e)|
  {
    StringReadIff(buf, i + 4, e.channel, category);
    StringReadIff(buf, category, e.category, text);
    StringReadIff(buf, text, e.text, tail);
    TailReadIff(buf, tail, e.source, next);
    HeadAt(buf, i, e);
    EventIsAt(buf, i, e);
  }

  /** An event is read exactly where the encoding of that event lies, if it is a valid one;
      the bytes taken are that encoding's. */
  lemma EventReadIff(buf: Bytes, i: nat, e: OutputEvent, next: nat)
    ensures ReadEvent(buf, i) == Some(Got(e, next)) <==>
            ValidEvent(e) && At(buf, i, WriteEvent(e)) && next == i + |WriteEvent(e)|
  {
    if ReadEvent(buf, i) == Some(Got(e, next)) {
      EventWasThere(buf, i, e, next);
    } else if ValidEvent(e) && At(buf, i, WriteEvent(e)) {
      EventIsRead(buf, i, e);
    }
  }

  /** The events the reader takes: print, log and diagnostic records of the seven severities,
      with or without an excerpt of the source, on a channel of 1 to 128 bytes. */
  lemma EventsInRange(e: OutputEvent)
    ensures ReadEvent(WriteEvent(e), 0) == Some(Got(e, |WriteEvent(e)|)) <==>
      && e.kind < 3 && e.severity < 7 && e.presentation < 2 && 1 <= |e.channel| <= 128
      && FitsLength(e.category) && FitsLength(e.text)
      && (e.source.Some? ==>
            FitsLength(e.source.value.name) && e.source.value.line < Range(4) && e.source.value.column < Range(4))
  {
    var buf := WriteEvent(e);
    EventReadIff(buf, 0, e, |buf|);
    AtIsSlice(buf, 0, buf);
    assert buf[0..] == buf;
  }

  // ---- Frames --------------------------------------------------------------------------------------------------

  datatype Frame = Frame(kind: Byte, payload: Bytes)

  function WriteFrame(f: Frame): Bytes {
    WriteNumber(|f.payload|, 4) + ([f.kind] + f.payload)
  }

  function ReadFrame(stream: Bytes, i: nat): Option<Got<Frame>> {
    match ReadNumber(stream, i, 4)
    case None => None
    case Some(length) =>
      if length.next >= |stream| || length.next + 1 + length.value > |stream| then None
      else Some(Got(Frame(stream[length.next], stream[length.next + 1..length.next + 1 + length.value]),
                    length.next + 1 + length.value))
  }

  lemma FrameReadIff(stream: Bytes, i: nat, f: Frame, next: nat)
    ensures ReadFrame(stream, i) == Some(Got(f, next)) <==>
            FitsLength(f.payload) && At(stream, i, WriteFrame(f)) && next == i + |WriteFrame(f)|
  {
    RangeOfFour();
    AtParts(stream, i, WriteNumber(|f.payload|, 4), [f.kind] + f.payload);
    AtParts(stream, i + 4, [f.kind], f.payload);
    AtIsSlice(stream, i + 5, f.payload);
    NumberReadIff(stream, i, 4, |f.payload|, i + 4);
    assert At(stream, i + 4, [f.kind]) <==> i + 4 < |stream| && stream[i + 4] == f.kind;
    if ReadNumber(stream, i, 4).Some? {
      NumberRead(stream, i, 4);
    }
  }

  function WriteFrames(frames: seq<Frame>): Bytes {
    if frames == [] then [] else WriteFrame(frames[0]) + WriteFrames(frames[1..])
  }

  /** Frames up to the end of the stream; false when it ends inside one. */
  method ReadFrames(stream: Bytes) returns (whole: bool, frames: seq<Frame>)
    ensures forall fs: seq<Frame> ::
      (whole && frames == fs) <==> stream == WriteFrames(fs) && AllFit(fs)
  {
    frames := [];
    var i := 0;
    StreamStarts(stream);
    while i < |stream|
      invariant i <= |stream|
      invariant forall fs: seq<Frame> ::
        IsStream(stream, 0, fs) <==> frames <= fs && IsStream(stream, i, fs[|frames|..])
    {
      var r := ReadFrame(stream, i);
      if r.None? {
        NoStream(stream, i);
        return false, frames;
      }
      StreamGoesOn(stream, i, r.value.value, r.value.next, frames);
      frames := frames + [r.value.value];
      i := r.value.next;
    }
    StreamEnds(stream, frames);
    whole := true;
  }

  predicate AllFit(fs: seq<Frame>) { forall k | 0 <= k < |fs| :: FitsLength(fs[k].payload) }

  /** From i on the stream is the encoding of exactly these frames. */
  predicate IsStream(stream: Bytes, i: nat, fs: seq<Frame>) {
    AllFit(fs) && At(stream, i, WriteFrames(fs)) && i + |WriteFrames(fs)| == |stream|
  }

  lemma StreamStarts(stream: Bytes)
    ensures forall fs: seq<Frame> :: IsStream(stream, 0, fs) <==> stream == WriteFrames(fs) && AllFit(fs)
    ensures forall fs: seq<Frame> :: fs[0..] == fs
  {
    forall fs: seq<Frame>
      ensures IsStream(stream, 0, fs) <==> stream == WriteFrames(fs) && AllFit(fs)
    {
      AtIsSlice(stream, 0, WriteFrames(fs));
      assert stream[0..|stream|] == stream;
    }
  }

  lemma StreamGoesOn(stream: Bytes, i: nat, f: Frame, next: nat, frames: seq<Frame>)
    requires i < |stream| && ReadFrame(stream, i) == Some(Got(f, next))
    ensures i < next <= |stream|
    ensures forall fs: seq<Frame> ::
      frames <= fs && IsStream(stream, i, fs[|frames|..]) <==>
      frames + [f] <= fs && IsStream(stream, next, fs[|frames| + 1..])
  {
    FrameReadIff(stream, i, f, next);
    AtInside(stream, i, WriteFrame(f));
    forall fs: seq<Frame> | frames <= fs
      ensures IsStream(stream, i, fs[|frames|..]) <==>
              frames + [f] <= fs && IsStream(stream, next, fs[|frames| + 1..])
    {
      var gs := fs[|frames|..];
      if gs != [] {
        assert gs[1..] == fs[|frames| + 1..];
        FirstFrame(stream, i, gs, f, next);
      }
    }
  }

  lemma FirstFrame(stream: Bytes, i: nat, gs: seq<Frame>, f: Frame, next: nat)
    requires gs != [] && ReadFrame(stream, i) == Some(Got(f, next))
    ensures IsStream(stream, i, gs) <==> gs[0] == f && IsStream(stream, next, gs[1..])
  {
    AtParts(stream, i, WriteFrame(gs[0]), WriteFrames(gs[1..]));
    FrameReadIff(stream, i, gs[0], i + |WriteFrame(gs[0])|);
    FrameReadIff(stream, i, f, next);
    assert AllFit(gs) <==> FitsLength(gs[0].payload) && AllFit(gs[1..]) by {
      assert gs == [gs[0]] + gs[1..];
    }
  }

  lemma NoStream(stream: Bytes, i: nat)
    requires i < |stream| && ReadFrame(stream, i).None?
    ensures forall gs: seq<Frame> :: !IsStream(stream, i, gs)
  {
    forall gs: seq<Frame>
      ensures !IsStream(stream, i, gs)
    {
      if gs != [] {
        AtParts(stream, i, WriteFrame(gs[0]), WriteFrames(gs[1..]));
        FrameReadIff(stream, i, gs[0], i + |WriteFrame(gs[0])|);
      }
    }
  }

  lemma StreamEnds(stream: Bytes, frames: seq<Frame>)
    ensures forall fs: seq<Frame> :: frames <= fs && IsStream(stream, |stream|, fs[|frames|..]) <==> fs == frames
  {
    forall fs: seq<Frame> | frames <= fs
      ensures IsStream(stream, |stream|, fs[|frames|..]) <==> fs == frames
    {
      var gs := fs[|frames|..];
      if gs != [] {
        assert |WriteFrames(gs)| >= |WriteFrame(gs[0])| > 0;
      }
    }
  }

  // ---- Remote calls ----------------------------------------------------------------------------------------------

  /** Values are given by their serialised bytes. */
  function WriteValues(vals: seq<Bytes>, k: nat): Bytes
    requires k <= |vals|
    decreases |vals| - k
  {
    if k == |vals| then [] else WriteString(vals[k]) + WriteValues(vals, k + 1)
  }

  function WriteValueList(vals: seq<Bytes>): Bytes { WriteNumber(|vals|, 4) + WriteValues(vals, 0) }

  function ReadValues(buf: Bytes, i: nat, n: nat): Option<Got<seq<Bytes>>>
    decreases n
  {
    if n == 0 then Some(Got([], i))
    else match ReadString(buf, i)
      case None => None
      case Some(first) =>
        match ReadValues(buf, first.next, n - 1)
        case None => None
        case Some(rest) => Some(Got([first.value] + rest.value, rest.next))
  }

  function ReadValueList(buf: Bytes, i: nat): Option<Got<seq<Bytes>>> {
    match ReadNumber(buf, i, 4) case None => None case Some(n) => ReadValues(buf, n.next, n.value)
  }

  lemma {:induction false} ValuesComeBack(buf: Bytes, i: nat, vals: seq<Bytes>, k: nat)
    requires k <= |vals| && At(buf, i, WriteValues(vals, k)) && forall j | 0 <= j < |vals| :: FitsLength(vals[j])
    ensures ReadValues(buf, i, |vals| - k) == Some(Got(vals[k..], i + |WriteValues(vals, k)|))
    decreases |vals| - k
  {
    if k < |vals| {
      AtParts(buf, i, WriteString(vals[k]), WriteValues(vals, k + 1));
      StringReadIff(buf, i, vals[k], i + |WriteString(vals[k])|);
      ValuesComeBack(buf, i + |WriteString(vals[k])|, vals, k + 1);
      assert vals[k..] == [vals[k]] + vals[k + 1..];
    }
  }

  method SerializeValues(vals: seq<Bytes>) returns (buf: Bytes)
    requires |vals| < 0x1_0000_0000
    ensures buf == WriteValueList(vals)
  {
    buf := WriteU32([], |vals|);
    assert [] + WriteNumber(|vals|, 4) == WriteNumber(|vals|, 4);
    var k := 0;
    while k < |vals|
      invariant k <= |vals| && buf + WriteValues(vals, k) == WriteValueList(vals)
    {
      assert buf + (WriteString(vals[k]) + WriteValues(vals, k + 1))
        == buf + WriteString(vals[k]) + WriteValues(vals, k + 1);
      buf := buf + WriteString(vals[k]);
      k := k + 1;
    }
    assert buf + [] == buf;
  }

  /** The cursor moves past one value after another. */
  method DeserializeValues(buf: Bytes, start: nat) returns (r: Option<Got<seq<Bytes>>>)
    ensures r == ReadValueList(buf, start)
  {
    var count := ReadNumber(buf, start, 4);
    if count.None? {
      return None;
    }
    var vals: seq<Bytes> := [];
    var i, n := count.value.next, count.value.value;
    NothingRead(ReadValues(buf, i, n));
    while n > 0
      invariant ReadValueList(buf, start) == ValuesBehind(vals, ReadValues(buf, i, n))
    {
      var v := ReadString(buf, i);
      if v.None? {
        return None;
      }
      ReadOneMore(vals, v.value.value, ReadValues(buf, v.value.next, n - 1));
      vals := vals + [v.value.value];
      i, n := v.value.next, n - 1;
    }
    assert vals + [] == vals;
    r := Some(Got(vals, i));
  }

  function ValuesBehind(vals: seq<Bytes>, r: Option<Got<seq<Bytes>>>): Option<Got<seq<Bytes>>> {
    if r.None? then None else Some(Got(vals + r.value.value, r.value.next))
  }

  lemma NothingRead(r: Option<Got<seq<Bytes>>>)
    ensures ValuesBehind([], r) == r
  {
    if r.Some? {
      assert [] + r.value.value == r.value.value;
    }
  }

  lemma ReadOneMore(vals: seq<Bytes>, v: Bytes, r: Option<Got<seq<Bytes>>>)
    ensures ValuesBehind(vals, ValuesBehind([v], r)) == ValuesBehind(vals + [v], r)
  {
    if r.Some? {
      assert vals + ([v] + r.value.value) == vals + [v] + r.value.value;
    }
  }

  type Int64 = x: int | -0x8000_0000_0000_0000 <= x < 0x8000_0000_0000_0000

  function ToUnsigned(x: Int64): nat { if x < 0 then x + 0x1_0000_0000_0000_0000 else x }

  function ToSigned(n: nat): int { if n < 0x8000_0000_0000_0000 then n else n - 0x1_0000_0000_0000_0000 }

  /** What the server knows of a call. */
  datatype Call = Call(id: nat, actor: int, name: Bytes, spec: CallSpec, args: seq<Bytes>)

  function WriteSpec(spec: CallSpec): Bytes
    requires ToBytes(spec).Some?
  {
    WriteString(ToBytes(spec).value)
  }

  function WriteCall(id: nat, actor: Int64, name: Bytes, spec: CallSpec, args: seq<Bytes>): Bytes
    requires ToBytes(spec).Some?
  {
    WriteNumber(id, 8)
    + (WriteNumber(ToUnsigned(actor), 8) + (WriteString(name) + (WriteSpec(spec) + WriteValueList(args))))
  }

  function ReadSpec(buf: Bytes, i: nat): Option<Got<CallSpec>> {
    match ReadString(buf, i)
    case None => None
    case Some(bytes) =>
      match Decode(bytes.value, 0)
      case None => None
      case Some(spec) => Some(Got(spec.value, bytes.next))
  }

  function ReadCall(buf: Bytes): Option<Call> {
    match ReadNumber(buf, 0, 8)
    case None => None
    case Some(id) =>
      match ReadNumber(buf, id.next, 8)
      case None => None
      case Some(actor) =>
        match ReadString(buf, actor.next)
        case None => None
        case Some(name) =>
          match ReadSpec(buf, name.next)
          case None => None
          case Some(spec) =>
            match ReadValueList(buf, spec.next)
            case None => None
            case Some(args) => Some(Call(id.value, ToSigned(actor.value), name.value, spec.value, args.value))
  }

  predicate Sendable(id: nat, name: Bytes, spec: CallSpec, args: seq<Bytes>) {
    && id < Range(8) && FitsLength(name) && Sound(spec) && spec.argCount <= 127
    && |args| < Range(4) && forall j | 0 <= j < |args| :: FitsLength(args[j])
  }

  lemma {:induction false} SpecIsShort(args: seq<ArgSpec>, k: nat)
    requires k <= |args|
    ensures |ArgsBytes(args, k)| <= 2 * (|args| - k)
    decreases |args| - k
  {
    if k < |args| {
      SpecIsShort(args, k + 1);
    }
  }

  lemma SpecIsRead(buf: Bytes, i: nat, spec: CallSpec)
    requires Sound(spec) && spec.argCount <= 127 && ToBytes(spec).Some? && At(buf, i, WriteSpec(spec))
    ensures ReadSpec(buf, i) == Some(Got(StoredSpec(spec), i + |WriteSpec(spec)|))
  {
    var bytes := ToBytes(spec).value;
    if !spec.allPositional {
      SpecIsShort(spec.args, 0);
    }
    StringReadIff(buf, i, bytes, i + |WriteSpec(spec)|);
    AtIsSlice(bytes, 0, bytes);
    assert bytes[0..|bytes|] == bytes;
    SpecComesBackIff(spec, bytes, 0);
  }

  /** The server gets the id, actor, method and argument bytes the client wrote, and a call
      shape that binds the same arguments. */
  lemma CallComesBack(id: nat, actor: Int64, name: Bytes, spec: CallSpec, args: seq<Bytes>)
    requires Sendable(id, name, spec, args) && ToBytes(spec).Some?
    ensures ReadCall(WriteCall(id, actor, name, spec, args)) == Some(Call(id, actor, name, StoredSpec(spec), args))
    ensures forall callee, strict :: Positions(StoredSpec(spec), callee, strict) == Positions(spec, callee, strict)
  {
    var buf := WriteCall(id, actor, name, spec, args);
    RangeOfFour();
    WholeAt(buf);
    SixPieces(buf, WriteNumber(id, 8), WriteNumber(ToUnsigned(actor), 8), WriteString(name), WriteSpec(spec),
              WriteNumber(|args|, 4), WriteValues(args, 0));
    CallIsRead(buf, id, actor, name, spec, args,
               16 + |WriteString(name)|, 16 + |WriteString(name)| + |WriteSpec(spec)|);
    forall callee, strict
      ensures Positions(StoredSpec(spec), callee, strict) == Positions(spec, callee, strict)
    {
      StoredBindsTheSame(spec, callee, strict);
    }
  }

  lemma WholeAt(buf: Bytes)
    ensures At(buf, 0, buf)
  {
    AtIsSlice(buf, 0, buf);
  }

  lemma CallIsRead(buf: Bytes, id: nat, actor: Int64, name: Bytes, spec: CallSpec, args: seq<Bytes>,
                   specAt: nat, argsAt: nat)
    requires Sendable(id, name, spec, args) && ToBytes(spec).Some? && id < 0x1_0000_0000_0000_0000
    requires At(buf, 0, WriteNumber(id, 8)) && At(buf, 8, WriteNumber(ToUnsigned(actor), 8))
    requires At(buf, 16, WriteString(name)) && specAt == 16 + |WriteString(name)|
    requires At(buf, specAt, WriteSpec(spec)) && argsAt == specAt + |WriteSpec(spec)|
    requires At(buf, argsAt, WriteNumber(|args|, 4)) && At(buf, argsAt + 4, WriteValues(args, 0))
    ensures ReadCall(buf) == Some(Call(id, actor, name, StoredSpec(spec), args))
  {
    WordIsRead(buf, 0, id);
    WordIsRead(buf, 8, ToUnsigned(actor));
    RangeOfFour();
    StringReadIff(buf, 16, name, specAt);
    SpecIsRead(buf, specAt, spec);
    ListIsRead(buf, argsAt, args);
    CallAssembled(buf, id, ToUnsigned(actor), name, StoredSpec(spec), args, specAt, argsAt);
  }

  lemma WordIsRead(buf: Bytes, i: nat, n: nat)
    requires n < 0x1_0000_0000_0000_0000 && At(buf, i, WriteNumber(n, 8))
    ensures ReadNumber(buf, i, 8) == Some(Got(n, i + 8))
  {
    RangeOfFour();
    NumberReadIff(buf, i, 8, n, i + 8);
  }

  lemma ListIsRead(buf: Bytes, i: nat, args: seq<Bytes>)
    requires |args| < Range(4) && forall j | 0 <= j < |args| :: FitsLength(args[j])
    requires At(buf, i, WriteNumber(|args|, 4)) && At(buf, i + 4, WriteValues(args, 0))
    ensures ReadValueList(buf, i) == Some(Got(args, i + 4 + |WriteValues(args, 0)|))
  {
    NumberReadIff(buf, i, 4, |args|, i + 4);
    ValuesComeBack(buf, i + 4, args, 0);
    assert args[0..] == args;
  }

  lemma CallAssembled(buf: Bytes, id: nat, actor: nat, name: Bytes, spec: CallSpec, args: seq<Bytes>,
                      specAt: nat, argsAt: nat)
    requires ReadNumber(buf, 0, 8) == Some(Got(id, 8)) && ReadNumber(buf, 8, 8) == Some(Got(actor, 16))
    requires ReadString(buf, 16) == Some(Got(name, specAt)) && ReadSpec(buf, specAt) == Some(Got(spec, argsAt))
    requires ReadValueList(buf, argsAt).Some? && ReadValueList(buf, argsAt).value.value == args
    ensures ReadCall(buf) == Some(Call(id, ToSigned(actor), name, spec, args))
  {
  }

  lemma SixPieces(buf: Bytes, a: Bytes, b: Bytes, c: Bytes, d: Bytes, e: Bytes, f: Bytes)
    requires At(buf, 0, a + (b + (c + (d + (e + f)))))
    ensures At(buf, 0, a) && At(buf, |a|, b) && At(buf, |a| + |b|, c) && At(buf, |a| + |b| + |c|, d)
    ensures At(buf, |a| + |b| + |c| + |d|, e) && At(buf, |a| + |b| + |c| + |d| + |e|, f)
  {
    AtParts(buf, 0, a, b + (c + (d + (e + f))));
    AtParts(buf, |a|, b, c + (d + (e + f)));
    AtParts(buf, |a| + |b|, c, d + (e + f));
    AtParts(buf, |a| + |b| + |c|, d, e + f);
    AtParts(buf, |a| + |b| + |c| + |d|, e, f);
  }
}
