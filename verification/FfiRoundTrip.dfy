/** What survives writing a struct and reading it back, and where its bytes lie. */
module FfiRoundTrip {
  import opened Utils
  import opened FfiLayout
  import opened FfiMarshal

  // ---- Offsets do not depend on values -------------------------------------------------------------

  datatype Pos = Pos(offset: nat, align: Alignment)

  /** Where a member laid out from a given position ends. */
  ghost function EndOf(f: Field, p: Pos): (r: Pos)
    ensures r.offset >= p.offset
    decreases f, 5
  {
    match f
    case Scalar(c, _) => AfterScalar(c, p)
    case Scalars(c, n) => EndOfScalars(c, n, p)
    case Nested(t, _) => var r := EndOfStruct(t, p.offset); r.(align := Max(p.align, r.align))
    case NestedArray(t, n) =>
      var r := EndOfStructs(t, n, RoundUp(p.offset, StructAlign(t)));
      Pos(r, Max(p.align, StructAlign(t)))
  }

  ghost function AfterScalar(c: CType, p: Pos): Pos {
    Pos(RoundUp(p.offset, ScalarSize(c)) + ScalarSize(c), Max(p.align, ScalarSize(c)))
  }

  ghost function EndOfScalars(c: CType, n: nat, p: Pos): (r: Pos)
    ensures r.offset >= p.offset
  {
    if n == 0 then p
    else EndOfScalars(c, n - 1, AfterScalar(c, p))
  }

  ghost function EndOfStruct(t: StructType, offset: nat): (r: Pos)
    ensures r.offset >= RoundUp(offset, StructAlign(t))
    decreases t, 3
  {
    var lead := RoundUp(offset, StructAlign(t));
    var body := EndOfFields(t.fields, Pos(lead, StructAlign(t)));
    body.(offset := body.offset + Pad(body.offset - lead, body.align))
  }

  ghost function EndOfFields(fields: seq<Field>, p: Pos): (r: Pos)
    ensures r.offset >= p.offset
    decreases fields, 2
  {
    if fields == [] then p else EndOfFields(fields[1..], EndOf(fields[0], p))
  }

  ghost function EndOfStructs(t: StructType, n: nat, offset: nat): (r: nat)
    ensures r >= offset
    decreases t, 4, n
  {
    if n == 0 then offset else EndOfStructs(t, n - 1, EndOfStruct(t, offset).offset)
  }

  ghost function SizeOf(t: StructType): nat {
    var p := EndOfFields(t.fields, Pos(0, 1));
    RoundUp(p.offset, p.align)
  }

  /** A writer only appends, keeps buffer and offset in step, and ends where the type says. */
  predicate Appended(out: Out, out': Out, end: Pos) {
    && out.buffer <= out'.buffer
    && |out'.buffer| - |out.buffer| == out'.offset - out.offset
    && Pos(out'.offset, out'.align) == end
  }

  lemma ScalarAppends(c: CType, annotated: bool, v: Value, out: Out)
    requires PutScalar(c, annotated, v, out).Some?
    ensures Appended(out, PutScalar(c, annotated, v, out).value, AfterScalar(c, Pos(out.offset, out.align)))
  {
  }

  lemma PutScalarsStep(c: CType, elems: seq<Value>, i: nat, n: nat, out: Out)
    requires i < n && PutScalars(c, elems, i, n, out).Some?
    ensures var r := PutScalar(c, true, ElementOr(elems, i, Missing(c)), out);
      r.Some? && PutScalars(c, elems, i, n, out) == PutScalars(c, elems, i + 1, n, r.value)
  {
  }

  lemma FirstScalarAppends(c: CType, elems: seq<Value>, i: nat, n: nat, out: Out) returns (next: Out)
    requires i < n && PutScalars(c, elems, i, n, out).Some?
    ensures PutScalars(c, elems, i + 1, n, next) == PutScalars(c, elems, i, n, out)
    ensures Appended(out, next, AfterScalar(c, Pos(out.offset, out.align)))
  {
    PutScalarsStep(c, elems, i, n, out);
    var v := ElementOr(elems, i, Missing(c));
    ScalarAppends(c, true, v, out);
    next := PutScalar(c, true, v, out).value;
  }

  lemma NoScalarsAppend(c: CType, elems: seq<Value>, n: nat, out: Out, end: Out)
    requires PutScalars(c, elems, n, n, out) == Some(end)
    ensures Appended(out, end, EndOfScalars(c, n - n, Pos(out.offset, out.align)))
  {
  }

  lemma {:induction false} ScalarsAppend(c: CType, elems: seq<Value>, i: nat, n: nat, out: Out, end: Out)
    requires i <= n && PutScalars(c, elems, i, n, out) == Some(end)
    ensures Appended(out, end, EndOfScalars(c, n - i, Pos(out.offset, out.align)))
    decreases n - i
  {
    if i == n {
      NoScalarsAppend(c, elems, n, out, end);
    } else {
      var p := Pos(out.offset, out.align);
      var next := FirstScalarAppends(c, elems, i, n, out);
      ScalarsAppend(c, elems, i + 1, n, next, end);
      EndOfScalarsStep(c, n - i, p);
      AppendedThen(out, next, end, AfterScalar(c, p), EndOfScalars(c, n - i, p));
    }
  }

  lemma AppendedThen(out: Out, mid: Out, out': Out, p: Pos, end: Pos)
    requires Appended(out, mid, p) && Appended(mid, out', end)
    ensures Appended(out, out', end)
  {
  }

  lemma SkipAppends(out: Out, n: nat)
    ensures Appended(out, Skip(out, n), Pos(out.offset + n, out.align))
  {
  }

  // One unfolding of each writer.

  lemma PutNested(t: StructType, annotated: bool, v: Value, out: Out)
    requires PutField(Nested(t, annotated), v, out).Some?
    ensures v.InstanceV? && v.t == t && PutStruct(t, v.members, out).Some?
    ensures var inner := PutStruct(t, v.members, out).value;
      PutField(Nested(t, annotated), v, out).value == inner.(align := Max(out.align, inner.align))
  {
  }

  lemma PutNestedArray(t: StructType, n: nat, v: Value, out: Out)
    requires PutField(NestedArray(t, n), v, out).Some?
    ensures v.ListV? && |v.elems| <= n
    ensures var r := PutStructs(t, v.elems, 0, n, Skip(out, Pad(out.offset, StructAlign(t))));
      r.Some? && PutField(NestedArray(t, n), v, out).value == r.value.(align := Max(out.align, StructAlign(t)))
  {
  }

  ghost function Lead(t: StructType, out: Out): Out {
    Skip(out, Pad(out.offset, StructAlign(t))).(align := StructAlign(t))
  }

  lemma PutStructStep(t: StructType, members: seq<Value>, out: Out)
    requires PutStruct(t, members, out).Some?
    ensures var r := PutFields(t.fields, members, Lead(t, out));
      r.Some? && r.value.offset >= Lead(t, out).offset
      && PutStruct(t, members, out).value
        == Skip(r.value, Pad(r.value.offset - Lead(t, out).offset, r.value.align))
  {
  }

  lemma PutFieldsStep(fields: seq<Field>, members: seq<Value>, out: Out)
    requires fields != [] && PutFields(fields, members, out).Some?
    ensures members != [] && PutField(fields[0], members[0], out).Some?
    ensures PutFields(fields[1..], members[1..], PutField(fields[0], members[0], out).value)
      == PutFields(fields, members, out)
  {
  }

  /** The members written for an element of an array of structs. */
  function ElementMembers(t: StructType, elems: seq<Value>, i: nat): seq<Value> {
    var elem := ElementOr(elems, i, NilV);
    if elem.InstanceV? then elem.members else t.initial
  }

  lemma PutStructsStep(t: StructType, elems: seq<Value>, i: nat, n: nat, out: Out)
    requires i < n && PutStructs(t, elems, i, n, out).Some?
    ensures PutStruct(t, ElementMembers(t, elems, i), out).Some?
    ensures PutStructs(t, elems, i + 1, n, PutStruct(t, ElementMembers(t, elems, i), out).value)
      == PutStructs(t, elems, i, n, out)
  {
  }

  lemma PaddedStruct(t: StructType, out: Out, body: Out)
    requires Appended(Lead(t, out), body, EndOfFields(t.fields, Pos(Lead(t, out).offset, StructAlign(t))))
    ensures body.offset >= Lead(t, out).offset
    ensures Appended(out, Skip(body, Pad(body.offset - Lead(t, out).offset, body.align)), EndOfStruct(t, out.offset))
  {
    var lead := Lead(t, out);
    assert lead.offset == RoundUp(out.offset, StructAlign(t));
    SkipAppends(out, Pad(out.offset, StructAlign(t)));
    SkipAppends(body, Pad(body.offset - lead.offset, body.align));
  }

  lemma {:induction false} FieldAppends(f: Field, v: Value, out: Out)
    requires PutField(f, v, out).Some?
    ensures Appended(out, PutField(f, v, out).value, EndOf(f, Pos(out.offset, out.align)))
    decreases f, 5
  {
    match f
    case Scalar(c, annotated) => ScalarAppends(c, annotated, v, out);
    case Scalars(c, n) => ScalarsAppend(c, v.elems, 0, n, out, PutField(f, v, out).value);
    case Nested(t, annotated) =>
      PutNested(t, annotated, v, out);
      StructAppends(t, v.members, out);
    case NestedArray(t, n) =>
      PutNestedArray(t, n, v, out);
      SkipAppends(out, Pad(out.offset, StructAlign(t)));
      StructsAppend(t, v.elems, 0, n, Skip(out, Pad(out.offset, StructAlign(t))));
  }

  lemma {:induction false} StructAppends(t: StructType, members: seq<Value>, out: Out)
    requires PutStruct(t, members, out).Some?
    ensures Appended(out, PutStruct(t, members, out).value, EndOfStruct(t, out.offset))
    decreases t, 3
  {
    PutStructStep(t, members, out);
    FieldsAppend(t.fields, members, Lead(t, out));
    PaddedStruct(t, out, PutFields(t.fields, members, Lead(t, out)).value);
  }

  lemma {:induction false} FieldsAppend(fields: seq<Field>, members: seq<Value>, out: Out)
    requires PutFields(fields, members, out).Some?
    ensures Appended(out, PutFields(fields, members, out).value, EndOfFields(fields, Pos(out.offset, out.align)))
    decreases fields, 2
  {
    if fields != [] {
      PutFieldsStep(fields, members, out);
      FieldAppends(fields[0], members[0], out);
      FieldsAppend(fields[1..], members[1..], PutField(fields[0], members[0], out).value);
    }
  }

  lemma {:induction false} StructsAppend(t: StructType, elems: seq<Value>, i: nat, n: nat, out: Out)
    requires i <= n && PutStructs(t, elems, i, n, out).Some?
    ensures var out' := PutStructs(t, elems, i, n, out).value;
      Appended(out, out', Pos(EndOfStructs(t, n - i, out.offset), out'.align))
    decreases t, 4, n - i
  {
    if i < n {
      PutStructsStep(t, elems, i, n, out);
      var next := PutStruct(t, ElementMembers(t, elems, i), out).value;
      StructAppends(t, ElementMembers(t, elems, i), out);
      StructsAppend(t, elems, i + 1, n, next);
      var out' := PutStructs(t, elems, i, n, out).value;
      EndOfStructsStep(t, n - i, out.offset);
      AppendedThen(out, next, out', EndOfStruct(t, out.offset), Pos(EndOfStructs(t, n - i, out.offset), out'.align));
    }
  }

  lemma EndOfStructsStep(t: StructType, n: nat, offset: nat)
    requires n > 0
    ensures EndOfStructs(t, n, offset) == EndOfStructs(t, n - 1, EndOfStruct(t, offset).offset)
  {
  }

  // ---- The value that comes back ---------------------------------------------------------------------

  /** Members a reader exists for: no 64-bit integers. */
  predicate Readable(f: Field)
    decreases f, 1
  {
    match f
    case Scalar(c, _) => c != CInt64 && c != CUInt64
    case Scalars(c, _) => c != CInt64 && c != CUInt64
    case Nested(t, _) => ReadableStruct(t)
    case NestedArray(t, _) => ReadableStruct(t)
  }

  predicate ReadableStruct(t: StructType)
    decreases t, 0
  {
    forall i | 0 <= i < |t.fields| :: Readable(t.fields[i])
  }

  function AsInt(v: Value): int {
    match v
    case IntV(i) => i
    case ByteV(b) => b
    case BoolV(flag) => if flag then 1 else 0
    case _ => 0
  }

  /** i reduced to a two's-complement number of the given modulus. */
  function Wrap(i: int, modulus: nat): int
    requires modulus > 0
  {
    (i + modulus / 2) % modulus - modulus / 2
  }

  /** A scalar reduced to the width of its member. */
  function ReduceScalar(c: CType, v: Value): Value {
    match c
    case CInt32 | CUInt32 => IntV(Wrap(AsInt(v), 0x1_0000_0000))
    case CInt16 => IntV(Wrap(AsInt(v), 0x1_0000))
    case CUInt16 => IntV(AsInt(v) % 0x1_0000)
    case CInt8 | CUInt8 => ByteV(AsInt(v) % 0x100)
    case CBool => BoolV(AsInt(v) != 0)
    case _ => v
  }

  /** The numbers a member holds without loss. */
  predicate FitsScalar(c: CType, v: Value) {
    match c
    case CInt32 | CUInt32 => v.IntV? && -0x8000_0000 <= v.i < 0x8000_0000
    case CInt16 => v.IntV? && -0x8000 <= v.i < 0x8000
    case CUInt16 => v.IntV? && 0 <= v.i < 0x1_0000
    case CInt8 | CUInt8 => v.ByteV?
    case CBool => v.BoolV?
    case _ => true
  }

  lemma ReduceKeepsWhatFits(c: CType, v: Value)
    ensures ReduceScalar(c, v) == v <==> FitsScalar(c, v)
  {
  }

  /** A stored scalar reads back as the value reduced to the member's width. */
  lemma ScalarComesBackReduced(c: CType, annotated: bool, v: Value)
    requires ToBits(c, annotated, v).Some? && c != CInt64 && c != CUInt64
    ensures ToBits(c, annotated, v).value < Modulus(c)
    ensures FromBits(c, ToBits(c, annotated, v).value) == Some(ReduceScalar(c, v))
  {
    BitsFit(c, annotated, v);
    if c == CInt32 || c == CUInt32 {
      Wrap32IsSigned(AsInt(v));
    } else if c == CInt16 {
      Wrap16IsSigned(AsInt(v));
    } else {
      OthersComeBack(c, annotated, v);
    }
  }

  lemma OthersComeBack(c: CType, annotated: bool, v: Value)
    requires ToBits(c, annotated, v).Some? && ToBits(c, annotated, v).value < Modulus(c)
    requires c == CUInt16 || c == CInt8 || c == CUInt8 || c == CBool || c == CFloat || c == CDouble
    ensures FromBits(c, ToBits(c, annotated, v).value) == Some(ReduceScalar(c, v))
  {
  }

  lemma Wrap32IsSigned(i: int)
    ensures Wrap(i, 0x1_0000_0000) == Signed(i % 0x1_0000_0000, 0x1_0000_0000)
  {
    var q := i / 0x1_0000_0000;
    var r := i % 0x1_0000_0000;
    assert i == 0x1_0000_0000 * q + r;
    if r < 0x8000_0000 {
      assert i + 0x8000_0000 == 0x1_0000_0000 * q + (r + 0x8000_0000);
      assert (i + 0x8000_0000) % 0x1_0000_0000 == r + 0x8000_0000;
    } else {
      assert i + 0x8000_0000 == 0x1_0000_0000 * (q + 1) + (r - 0x8000_0000);
      assert (i + 0x8000_0000) % 0x1_0000_0000 == r - 0x8000_0000;
    }
  }

  lemma Wrap16IsSigned(i: int)
    ensures Wrap(i, 0x1_0000) == Signed(i % 0x1_0000, 0x1_0000)
  {
    var q := i / 0x1_0000;
    var r := i % 0x1_0000;
    assert i == 0x1_0000 * q + r;
    if r < 0x8000 {
      assert i + 0x8000 == 0x1_0000 * q + (r + 0x8000);
      assert (i + 0x8000) % 0x1_0000 == r + 0x8000;
    } else {
      assert i + 0x8000 == 0x1_0000 * (q + 1) + (r - 0x8000);
      assert (i + 0x8000) % 0x1_0000 == r - 0x8000;
    }
  }

  function ReduceScalars(c: CType, elems: seq<Value>, i: nat, n: nat): seq<Value>
    requires i <= n
    decreases n - i
  {
    if i == n then []
    else [ReduceScalar(c, ElementOr(elems, i, Missing(c)))] + ReduceScalars(c, elems, i + 1, n)
  }

  /** A member value reduced to width, arrays filled up to their declared length. */
  function Reduce(f: Field, v: Value): Value
    decreases f, 5
  {
    match f
    case Scalar(c, _) => ReduceScalar(c, v)
    case Scalars(c, n) => if v.ListV? then ListV(ReduceScalars(c, v.elems, 0, n)) else v
    case Nested(t, _) => if v.InstanceV? then InstanceV(t, ReduceFields(t.fields, v.members)) else v
    case NestedArray(t, n) => if v.ListV? then ListV(ReduceStructs(t, v.elems, 0, n)) else v
  }

  function ReduceFields(fields: seq<Field>, members: seq<Value>): seq<Value>
    decreases fields, 2
  {
    if fields == [] || members == [] then []
    else [Reduce(fields[0], members[0])] + ReduceFields(fields[1..], members[1..])
  }

  function ReduceStructs(t: StructType, elems: seq<Value>, i: nat, n: nat): seq<Value>
    requires i <= n
    decreases t, 4, n - i
  {
    if i == n then []
    else
      [InstanceV(t, ReduceFields(t.fields, ElementMembers(t, elems, i)))]
      + ReduceStructs(t, elems, i + 1, n)
  }

  // ---- Reading what was written ----------------------------------------------------------------------

  lemma ScalarReadsBack(c: CType, annotated: bool, v: Value, out: Out, bytes: seq<Byte>)
    requires PutScalar(c, annotated, v, out).Some? && c != CInt64 && c != CUInt64
    requires |out.buffer| == out.offset && PutScalar(c, annotated, v, out).value.buffer <= bytes
    ensures var out' := PutScalar(c, annotated, v, out).value;
      GetScalar(c, bytes, out.offset, out.align) == Some(In(ReduceScalar(c, v), out'.offset, out'.align))
  {
    var n := ToBits(c, annotated, v).value;
    ScalarComesBackReduced(c, annotated, v);
    ModulusIsLimit(c);
    LeRoundTrip(n, ScalarSize(c));
    StoredIsRead(c, n, ReduceScalar(c, v), Le(n, ScalarSize(c)), out, bytes);
  }

  lemma StoredIsRead(c: CType, n: nat, v: Value, data: seq<Byte>, out: Out, bytes: seq<Byte>)
    requires |data| == ScalarSize(c) && UnLe(data) == n && n < Modulus(c) && FromBits(c, n) == Some(v)
    requires |out.buffer| == out.offset && AppendPadded(out, data, ScalarSize(c)).buffer <= bytes
    ensures var out' := AppendPadded(out, data, ScalarSize(c));
      GetScalar(c, bytes, out.offset, out.align) == Some(In(v, out'.offset, out'.align))
  {
    DataIsThere(out, data, ScalarSize(c), bytes);
  }

  lemma DataIsThere(out: Out, data: seq<Byte>, a: Alignment, bytes: seq<Byte>)
    requires |out.buffer| == out.offset && AppendPadded(out, data, a).buffer <= bytes
    ensures var start := RoundUp(out.offset, a);
      start + |data| <= |bytes| && bytes[start..start + |data|] == data
    ensures AppendPadded(out, data, a).offset == RoundUp(out.offset, a) + |data|
  {
    var buffer := AppendPadded(out, data, a).buffer;
    var start := RoundUp(out.offset, a);
    assert |buffer| == start + |data| && buffer[start..] == data;
    assert bytes[..|buffer|] == buffer;
    assert bytes[start..start + |data|] == bytes[..|buffer|][start..];
  }

  lemma GetScalarsStep(c: CType, n: nat, bytes: seq<Byte>, p: Pos, first: In<Value>)
    requires n > 0 && GetScalar(c, bytes, p.offset, p.align) == Some(first)
    ensures GetScalars(c, n - 1, bytes, first.offset, first.align).None? <==>
            GetScalars(c, n, bytes, p.offset, p.align).None?
    ensures var more := GetScalars(c, n - 1, bytes, first.offset, first.align);
      var r := GetScalars(c, n, bytes, p.offset, p.align);
      r.Some? ==> r.value == In([first.value] + more.value.value, more.value.offset, more.value.align)
  {
  }

  lemma ScalarsCons(c: CType, n: nat, bytes: seq<Byte>, p: Pos, first: In<Value>, more: In<seq<Value>>)
    requires n > 0 && GetScalar(c, bytes, p.offset, p.align) == Some(first)
    requires GetScalars(c, n - 1, bytes, first.offset, first.align) == Some(more)
    ensures GetScalars(c, n, bytes, p.offset, p.align)
      == Some(In([first.value] + more.value, more.offset, more.align))
  {
  }

  /** The first of several scalars is written in full before the rest, and reads back. */
  lemma FirstScalarReadsBack(c: CType, elems: seq<Value>, i: nat, n: nat, out: Out, bytes: seq<Byte>)
    returns (next: Out)
    requires i < n && PutScalars(c, elems, i, n, out).Some? && c != CInt64 && c != CUInt64
    requires |out.buffer| == out.offset && PutScalars(c, elems, i, n, out).value.buffer <= bytes
    ensures PutScalars(c, elems, i + 1, n, next) == PutScalars(c, elems, i, n, out)
    ensures |next.buffer| == next.offset
    ensures GetScalar(c, bytes, out.offset, out.align)
      == Some(In(ReduceScalar(c, ElementOr(elems, i, Missing(c))), next.offset, next.align))
  {
    PutScalarsStep(c, elems, i, n, out);
    var v := ElementOr(elems, i, Missing(c));
    next := PutScalar(c, true, v, out).value;
    ScalarAppends(c, true, v, out);
    ScalarsAppend(c, elems, i + 1, n, next, PutScalars(c, elems, i, n, out).value);
    ScalarReadsBack(c, true, v, out, bytes);
  }

  lemma ReduceScalarsStep(c: CType, elems: seq<Value>, i: nat, n: nat)
    requires i < n
    ensures ReduceScalars(c, elems, i, n)
      == [ReduceScalar(c, ElementOr(elems, i, Missing(c)))] + ReduceScalars(c, elems, i + 1, n)
  {
  }

  lemma ScalarsJoin(c: CType, elems: seq<Value>, i: nat, n: nat, out: Out, next: Out, end: Out, bytes: seq<Byte>)
    requires i < n
    requires GetScalar(c, bytes, out.offset, out.align)
      == Some(In(ReduceScalar(c, ElementOr(elems, i, Missing(c))), next.offset, next.align))
    requires GetScalars(c, n - (i + 1), bytes, next.offset, next.align)
      == Some(In(ReduceScalars(c, elems, i + 1, n), end.offset, end.align))
    ensures GetScalars(c, n - i, bytes, out.offset, out.align)
      == Some(In(ReduceScalars(c, elems, i, n), end.offset, end.align))
  {
    ScalarsCons(c, n - i, bytes, Pos(out.offset, out.align),
                In(ReduceScalar(c, ElementOr(elems, i, Missing(c))), next.offset, next.align),
                In(ReduceScalars(c, elems, i + 1, n), end.offset, end.align));
    ReduceScalarsStep(c, elems, i, n);
  }

  lemma NoScalars(c: CType, elems: seq<Value>, n: nat, out: Out, end: Out, bytes: seq<Byte>)
    requires PutScalars(c, elems, n, n, out) == Some(end)
    ensures GetScalars(c, n - n, bytes, out.offset, out.align)
      == Some(In(ReduceScalars(c, elems, n, n), end.offset, end.align))
  {
  }

  lemma {:induction false} ScalarsReadBack(c: CType, elems: seq<Value>, i: nat, n: nat, out: Out, end: Out,
                                           bytes: seq<Byte>)
    requires i <= n && PutScalars(c, elems, i, n, out) == Some(end) && c != CInt64 && c != CUInt64
    requires |out.buffer| == out.offset && end.buffer <= bytes
    ensures GetScalars(c, n - i, bytes, out.offset, out.align)
      == Some(In(ReduceScalars(c, elems, i, n), end.offset, end.align))
    decreases n - i
  {
    if i == n {
      NoScalars(c, elems, n, out, end, bytes);
    } else {
      var next := FirstScalarReadsBack(c, elems, i, n, out, bytes);
      ScalarsReadBack(c, elems, i + 1, n, next, end, bytes);
      ScalarsJoin(c, elems, i, n, out, next, end, bytes);
    }
  }

  lemma {:induction false} FieldReadsBack(f: Field, v: Value, out: Out, bytes: seq<Byte>)
    requires Readable(f) && PutField(f, v, out).Some?
    requires |out.buffer| == out.offset && PutField(f, v, out).value.buffer <= bytes
    ensures var out' := PutField(f, v, out).value;
      GetField(f, bytes, out.offset, out.align) == Some(In(Reduce(f, v), out'.offset, out'.align))
    decreases f, 5
  {
    match f
    case Scalar(c, annotated) => ScalarReadsBack(c, annotated, v, out, bytes);
    case Scalars(c, n) => ScalarsReadBack(c, v.elems, 0, n, out, PutField(f, v, out).value, bytes);
    case Nested(t, _) => StructReadsBack(t, v.members, out, bytes);
    case NestedArray(t, n) =>
      var lead := Skip(out, Pad(out.offset, StructAlign(t)));
      StructsAppend(t, v.elems, 0, n, lead);
      StructsReadBack(t, v.elems, 0, n, lead, PutStructs(t, v.elems, 0, n, lead).value, bytes);
  }

  lemma {:induction false} StructReadsBack(t: StructType, members: seq<Value>, out: Out, bytes: seq<Byte>)
    requires ReadableStruct(t) && PutStruct(t, members, out).Some?
    requires |out.buffer| == out.offset && PutStruct(t, members, out).value.buffer <= bytes
    ensures var out' := PutStruct(t, members, out).value;
      GetStruct(t, bytes, out.offset)
        == Some(In(InstanceV(t, ReduceFields(t.fields, members)), out'.offset, out'.align))
    decreases t, 3
  {
    var lead := Skip(out, Pad(out.offset, StructAlign(t))).(align := StructAlign(t));
    var body := PutFields(t.fields, members, lead).value;
    FieldsAppend(t.fields, members, lead);
    assert body.buffer <= bytes;
    FieldsReadBack(t.fields, members, lead, bytes);
  }

  lemma {:induction false} FieldsReadBack(fields: seq<Field>, members: seq<Value>, out: Out, bytes: seq<Byte>)
    requires (forall i | 0 <= i < |fields| :: Readable(fields[i])) && PutFields(fields, members, out).Some?
    requires |out.buffer| == out.offset && PutFields(fields, members, out).value.buffer <= bytes
    ensures var out' := PutFields(fields, members, out).value;
      GetFields(fields, bytes, out.offset, out.align)
        == Some(In(ReduceFields(fields, members), out'.offset, out'.align))
    decreases fields, 2
  {
    if fields != [] {
      var first := PutField(fields[0], members[0], out).value;
      FieldAppends(fields[0], members[0], out);
      FieldsAppend(fields[1..], members[1..], first);
      FieldReadsBack(fields[0], members[0], out, bytes);
      FieldsReadBack(fields[1..], members[1..], first, bytes);
    }
  }

  lemma GetStructsStep(t: StructType, n: nat, bytes: seq<Byte>, offset: nat)
    requires n > 0 && GetStruct(t, bytes, offset).Some?
    ensures var first := GetStruct(t, bytes, offset).value;
      var more := GetStructs(t, n - 1, bytes, first.offset);
      GetStructs(t, n, bytes, offset)
        == if more.None? then None else Some(In([first.value] + more.value.value, more.value.offset, 1))
  {
  }

  lemma ReduceStructsStep(t: StructType, elems: seq<Value>, i: nat, n: nat)
    requires i < n
    ensures ReduceStructs(t, elems, i, n)
      == [InstanceV(t, ReduceFields(t.fields, ElementMembers(t, elems, i)))] + ReduceStructs(t, elems, i + 1, n)
  {
  }

  lemma FirstElementWritten(t: StructType, elems: seq<Value>, i: nat, n: nat, out: Out, bytes: seq<Byte>)
    returns (next: Out)
    requires i < n && PutStructs(t, elems, i, n, out).Some?
    requires |out.buffer| == out.offset && PutStructs(t, elems, i, n, out).value.buffer <= bytes
    ensures PutStruct(t, ElementMembers(t, elems, i), out) == Some(next)
    ensures next.buffer <= bytes && |next.buffer| == next.offset
    ensures PutStructs(t, elems, i + 1, n, next) == PutStructs(t, elems, i, n, out)
  {
    PutStructsStep(t, elems, i, n, out);
    next := PutStruct(t, ElementMembers(t, elems, i), out).value;
    StructAppends(t, ElementMembers(t, elems, i), out);
    StructsAppend(t, elems, i + 1, n, next);
  }

  lemma StructsJoin(t: StructType, elems: seq<Value>, i: nat, n: nat, offset: nat, next: nat, end: nat,
                    bytes: seq<Byte>)
    requires i < n && GetStruct(t, bytes, offset).Some? && GetStruct(t, bytes, offset).value.offset == next
    requires GetStruct(t, bytes, offset).value.value
      == InstanceV(t, ReduceFields(t.fields, ElementMembers(t, elems, i)))
    requires GetStructs(t, n - (i + 1), bytes, next) == Some(In(ReduceStructs(t, elems, i + 1, n), end, 1))
    ensures GetStructs(t, n - i, bytes, offset) == Some(In(ReduceStructs(t, elems, i, n), end, 1))
  {
    GetStructsStep(t, n - i, bytes, offset);
    ReduceStructsStep(t, elems, i, n);
  }

  lemma {:induction false} StructsReadBack(t: StructType, elems: seq<Value>, i: nat, n: nat, out: Out, end: Out,
                                           bytes: seq<Byte>)
    requires i <= n && ReadableStruct(t) && PutStructs(t, elems, i, n, out) == Some(end)
    requires |out.buffer| == out.offset && end.buffer <= bytes
    ensures GetStructs(t, n - i, bytes, out.offset) == Some(In(ReduceStructs(t, elems, i, n), end.offset, 1))
    decreases t, 4, n - i
  {
    if i < n {
      var next := FirstElementWritten(t, elems, i, n, out, bytes);
      StructReadsBack(t, ElementMembers(t, elems, i), out, bytes);
      StructsReadBack(t, elems, i + 1, n, next, end, bytes);
      StructsJoin(t, elems, i, n, out.offset, next.offset, end.offset, bytes);
    }
  }

  /** An instance written and read back, from the written bytes or any longer buffer, has
      every member reduced to its width; the size written is the type's, whatever the
      values. */
  lemma ObjectReadsBack(t: StructType, members: seq<Value>, bytes: seq<Byte>)
    requires ReadableStruct(t) && PutObject(t, members).Some? && PutObject(t, members).value <= bytes
    ensures GetObject(t, bytes) == Some(ReduceFields(t.fields, members))
    ensures |PutObject(t, members).value| == SizeOf(t)
  {
    var out := Out([], 0, 1);
    FieldsAppend(t.fields, members, out);
    FieldsReadBack(t.fields, members, out, bytes);
  }

  /** Written bytes are determined by the type and the reduced values' sizes: two instances
      of a type always take the same space. */
  lemma SizeIsTheTypes(t: StructType, members: seq<Value>)
    requires PutObject(t, members).Some?
    ensures |PutObject(t, members).value| == SizeOf(t)
  {
    FieldsAppend(t.fields, members, Out([], 0, 1));
  }

  // ---- A reader succeeds exactly on long enough buffers --------------------------------------------

  lemma ScalarGot(c: CType, bytes: seq<Byte>, p: Pos)
    requires c != CInt64 && c != CUInt64
    ensures var r := GetScalar(c, bytes, p.offset, p.align);
      && (r.Some? <==> AfterScalar(c, p).offset <= |bytes|)
      && (r.Some? ==> Pos(r.value.offset, r.value.align) == AfterScalar(c, p))
  {
  }

  lemma EndOfScalarsStep(c: CType, n: nat, p: Pos)
    requires n > 0
    ensures EndOfScalars(c, n, p) == EndOfScalars(c, n - 1, AfterScalar(c, p))
  {
  }

  lemma {:induction false} ScalarsGot(c: CType, n: nat, bytes: seq<Byte>, p: Pos)
    requires c != CInt64 && c != CUInt64 && p.offset <= |bytes|
    ensures GetScalars(c, n, bytes, p.offset, p.align).Some? <==> EndOfScalars(c, n, p).offset <= |bytes|
    ensures var r := GetScalars(c, n, bytes, p.offset, p.align);
      r.Some? ==> Pos(r.value.offset, r.value.align) == EndOfScalars(c, n, p)
    decreases n
  {
    if n > 0 {
      ScalarGot(c, bytes, p);
      EndOfScalarsStep(c, n, p);
      var next := AfterScalar(c, p);
      if next.offset <= |bytes| {
        ScalarsGot(c, n - 1, bytes, next);
        GetScalarsStep(c, n, bytes, p, GetScalar(c, bytes, p.offset, p.align).value);
      }
    }
  }

  lemma {:induction false} FieldGot(f: Field, bytes: seq<Byte>, p: Pos)
    requires Readable(f) && p.offset <= |bytes|
    ensures GetField(f, bytes, p.offset, p.align).Some? <==> EndOf(f, p).offset <= |bytes|
    ensures var r := GetField(f, bytes, p.offset, p.align);
      r.Some? ==> Pos(r.value.offset, r.value.align) == EndOf(f, p)
    decreases f, 5
  {
    match f
    case Scalar(c, _) => ScalarGot(c, bytes, p);
    case Scalars(c, n) => ScalarsGot(c, n, bytes, p);
    case Nested(t, _) => StructGot(t, bytes, p.offset);
    case NestedArray(t, n) =>
      if RoundUp(p.offset, StructAlign(t)) <= |bytes| {
        StructsGot(t, n, bytes, RoundUp(p.offset, StructAlign(t)));
      }
  }

  lemma {:induction false} StructGot(t: StructType, bytes: seq<Byte>, offset: nat)
    requires ReadableStruct(t) && offset <= |bytes|
    ensures GetStruct(t, bytes, offset).Some? <==> EndOfStruct(t, offset).offset <= |bytes|
    ensures var r := GetStruct(t, bytes, offset);
      r.Some? ==> Pos(r.value.offset, r.value.align) == EndOfStruct(t, offset)
    decreases t, 3
  {
    var lead := RoundUp(offset, StructAlign(t));
    GetStructStep(t, bytes, offset);
    if lead <= |bytes| {
      FieldsGot(t.fields, bytes, Pos(lead, StructAlign(t)));
    }
  }

  lemma GetStructStep(t: StructType, bytes: seq<Byte>, offset: nat)
    ensures var lead := RoundUp(offset, StructAlign(t));
      lead > |bytes| ==> GetStruct(t, bytes, offset).None?
    ensures var lead := RoundUp(offset, StructAlign(t));
      var body := GetFields(t.fields, bytes, lead, StructAlign(t));
      lead <= |bytes| ==>
        GetStruct(t, bytes, offset) == if body.None? then None else Finish(t, body.value, lead, |bytes|)
  {
  }

  lemma {:induction false} FieldsGot(fields: seq<Field>, bytes: seq<Byte>, p: Pos)
    requires (forall i | 0 <= i < |fields| :: Readable(fields[i])) && p.offset <= |bytes|
    ensures GetFields(fields, bytes, p.offset, p.align).Some? <==> EndOfFields(fields, p).offset <= |bytes|
    ensures var r := GetFields(fields, bytes, p.offset, p.align);
      r.Some? ==> Pos(r.value.offset, r.value.align) == EndOfFields(fields, p)
    decreases fields, 2
  {
    if fields != [] {
      FieldGot(fields[0], bytes, p);
      if EndOf(fields[0], p).offset <= |bytes| {
        FieldsGot(fields[1..], bytes, EndOf(fields[0], p));
      }
    }
  }

  lemma {:induction false} StructsGot(t: StructType, n: nat, bytes: seq<Byte>, offset: nat)
    requires ReadableStruct(t) && offset <= |bytes|
    ensures GetStructs(t, n, bytes, offset).Some? <==> EndOfStructs(t, n, offset) <= |bytes|
    ensures var r := GetStructs(t, n, bytes, offset); r.Some? ==> r.value.offset == EndOfStructs(t, n, offset)
    decreases t, 4, n
  {
    if n > 0 {
      StructGot(t, bytes, offset);
      EndOfStructsStep(t, n, offset);
      if EndOfStruct(t, offset).offset <= |bytes| {
        StructsGot(t, n - 1, bytes, EndOfStruct(t, offset).offset);
        GetStructsStep(t, n, bytes, offset);
      }
    }
  }

  // ---- No reader for 64-bit integers ----------------------------------------------------------------

  lemma {:induction false} FieldUnread(f: Field, bytes: seq<Byte>, offset: nat, align: Alignment)
    requires WellFormedField(f) && !Readable(f)
    ensures GetField(f, bytes, offset, align).None?
    decreases f, 5
  {
    match f
    case Scalar(_, _) =>
    case Scalars(c, n) => assert GetScalar(c, bytes, offset, align).None?;
    case Nested(t, _) => StructUnread(t, bytes, offset);
    case NestedArray(t, _) => StructUnread(t, bytes, RoundUp(offset, StructAlign(t)));
  }

  lemma {:induction false} StructUnread(t: StructType, bytes: seq<Byte>, offset: nat)
    requires WellFormed(t) && !ReadableStruct(t)
    ensures GetStruct(t, bytes, offset).None?
    decreases t, 3
  {
    FieldsUnread(t.fields, bytes, RoundUp(offset, StructAlign(t)), StructAlign(t));
  }

  lemma {:induction false} FieldsUnread(fields: seq<Field>, bytes: seq<Byte>, offset: nat, align: Alignment)
    requires forall i | 0 <= i < |fields| :: WellFormedField(fields[i])
    requires exists i :: 0 <= i < |fields| && !Readable(fields[i])
    ensures GetFields(fields, bytes, offset, align).None?
    decreases fields, 2
  {
    if !Readable(fields[0]) {
      FieldUnread(fields[0], bytes, offset, align);
    } else if GetField(fields[0], bytes, offset, align).Some? {
      var next := GetField(fields[0], bytes, offset, align).value;
      var i :| 0 <= i < |fields| && !Readable(fields[i]);
      assert fields[i] == fields[1..][i - 1];
      FieldsUnread(fields[1..], bytes, next.offset, next.align);
    }
  }

  /** A buffer is read as an instance exactly when it is at least as long as the type and no
      64-bit integer is anywhere inside, whatever bytes it holds. */
  lemma ReaderSucceedsIff(t: StructType, bytes: seq<Byte>)
    requires WellFormed(t)
    ensures GetObject(t, bytes).Some? <==> ReadableStruct(t) && |bytes| >= SizeOf(t)
  {
    if ReadableStruct(t) {
      FieldsGot(t.fields, bytes, Pos(0, 1));
    } else {
      FieldsUnread(t.fields, bytes, 0, 1);
    }
  }

  /** What was written can be read back exactly when the type has no 64-bit integer. */
  lemma WrittenIsReadIff(t: StructType, members: seq<Value>)
    requires WellFormed(t) && PutObject(t, members).Some?
    ensures GetObject(t, PutObject(t, members).value).Some? <==> ReadableStruct(t)
  {
    SizeIsTheTypes(t, members);
    ReaderSucceedsIff(t, PutObject(t, members).value);
  }

  /** A 64-bit member can be written. */
  lemma Int64HasNoReader(members: seq<Value>)
    requires |members| == 1 && members[0].IntV?
    ensures var t := StructType([Scalar(CInt64, true)], [IntV(0)]);
      PutObject(t, members).Some? && GetObject(t, PutObject(t, members).value).None?
  {
    var t := StructType([Scalar(CInt64, true)], [IntV(0)]);
    assert t.fields[1..] == [];
    assert PutField(t.fields[0], members[0], Out([], 0, 1)).Some?;
    assert !Readable(t.fields[0]);
    WrittenIsReadIff(t, members);
  }
}
