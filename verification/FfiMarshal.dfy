/** Writing struct instances to bytes and reading them back. */
module FfiMarshal {
  import opened Utils
  import opened FfiLayout

  // ---- Scalars -----------------------------------------------------------------------------------

  function Limit(size: nat): (limit: nat)
    ensures limit > 0
  {
    if size == 0 then 1 else 0x100 * Limit(size - 1)
  }

  /** The bytes of a number, least significant first. */
  function Le(n: nat, size: nat): (bs: seq<Byte>)
    ensures |bs| == size
  {
    if size == 0 then [] else [n % 0x100] + Le(n / 0x100, size - 1)
  }

  function UnLe(bs: seq<Byte>): nat {
    if bs == [] then 0 else bs[0] + 0x100 * UnLe(bs[1..])
  }

  lemma {:induction false} LeRoundTrip(n: nat, size: nat)
    requires n < Limit(size)
    ensures UnLe(Le(n, size)) == n
    decreases size
  {
    if size > 0 {
      LeRoundTrip(n / 0x100, size - 1);
      assert Le(n, size)[1..] == Le(n / 0x100, size - 1);
    }
  }

  /** How many numbers a scalar can store. */
  function Modulus(c: CType): nat {
    match ScalarSize(c)
    case 1 => 0x100
    case 2 => 0x1_0000
    case 4 => 0x1_0000_0000
    case _ => 0x1_0000_0000_0000_0000
  }

  lemma ModulusIsLimit(c: CType)
    ensures Limit(ScalarSize(c)) == Modulus(c)
  {
    assert Limit(1) == 0x100 * Limit(0);
    assert Limit(2) == 0x100 * Limit(1);
    assert Limit(3) == 0x100 * Limit(2);
    assert Limit(4) == 0x100 * Limit(3);
    assert Limit(5) == 0x100 * Limit(4);
    assert Limit(6) == 0x100 * Limit(5);
    assert Limit(7) == 0x100 * Limit(6);
    assert Limit(8) == 0x100 * Limit(7);
  }

  function Signed(n: nat, limit: nat): int {
    if n < limit / 2 then n else n - limit
  }

  predicate Integral(c: CType) {
    c == CInt32 || c == CUInt32 || c == CInt16 || c == CUInt16 || c == CInt64 || c == CUInt64
  }

  predicate ByteSized(c: CType) { c == CInt8 || c == CUInt8 }

  /** The number stored for a value, reduced to the width of the member; None when the
      conversion is refused. Members known only by their builtin type convert strictly. */
  function ToBits(c: CType, annotated: bool, v: Value): Option<nat> {
    match v
    case IntV(i) =>
      if Integral(c) then Some(i % Modulus(c))
      else if ByteSized(c) && annotated then Some(i % 0x100)
      else if c == CBool && annotated then Some(if i != 0 then 1 else 0)
      else None
    case ByteV(b) =>
      if Integral(c) || ByteSized(c) then Some(b)
      else if c == CBool && annotated then Some(if b != 0 then 1 else 0)
      else None
    case BoolV(flag) => if c == CFloat || c == CDouble then None else Some(if flag then 1 else 0)
    case SingleV(bits) => if c == CFloat then Some(bits) else None
    case DoubleV(bits) => if c == CDouble then Some(bits) else None
    case _ => None
  }

  /** The value read from a stored number. 64-bit integers have no reader, and a 32-bit
      unsigned one comes back signed. */
  function FromBits(c: CType, n: nat): Option<Value>
    requires n < Modulus(c)
  {
    match c
    case CInt32 | CUInt32 => Some(IntV(Signed(n, 0x1_0000_0000)))
    case CInt16 => Some(IntV(Signed(n, 0x1_0000)))
    case CUInt16 => Some(IntV(n))
    case CInt8 | CUInt8 => Some(ByteV(n))
    case CBool => Some(BoolV(n != 0))
    case CFloat => Some(SingleV(n))
    case CDouble => Some(DoubleV(n))
    case CInt64 | CUInt64 => None
  }

  /** What stands in for an array element the list does not have. */
  function Missing(c: CType): Value {
    if c == CFloat then SingleV(0) else if c == CDouble then DoubleV(0) else IntV(0)
  }

  lemma BitsFit(c: CType, annotated: bool, v: Value)
    ensures ToBits(c, annotated, v).Some? ==> ToBits(c, annotated, v).value < Modulus(c)
    ensures ToBits(c, true, Missing(c)).Some?
  {
  }

  // ---- Writing -------------------------------------------------------------------------------------

  /** The growing buffer, the running offset and the alignment accumulated so far. */
  datatype Out = Out(buffer: seq<Byte>, offset: nat, align: Alignment)

  function Zeros(n: nat): (bs: seq<Byte>)
    ensures |bs| == n
  {
    seq(n, i => 0)
  }

  function Skip(out: Out, n: nat): Out {
    out.(buffer := out.buffer + Zeros(n), offset := out.offset + n)
  }

  ghost function AppendPadded(out: Out, data: seq<Byte>, a: Alignment): Out
  {
    var padded := Skip(out, Pad(out.offset, a));
    Out(padded.buffer + data, padded.offset + |data|, Max(out.align, a))
  }

  ghost function PutScalar(c: CType, annotated: bool, v: Value, out: Out): (r: Option<Out>)
    ensures r.Some? ==> r.value.offset >= out.offset
  {
    match ToBits(c, annotated, v)
    case None => None
    case Some(n) => Some(AppendPadded(out, Le(n, ScalarSize(c)), ScalarSize(c)))
  }

  function ElementOr(elems: seq<Value>, i: nat, missing: Value): Value {
    if i < |elems| then elems[i] else missing
  }

  ghost function PutScalars(c: CType, elems: seq<Value>, i: nat, n: nat, out: Out): (r: Option<Out>)
    ensures r.Some? ==> r.value.offset >= out.offset
    requires i <= n
    decreases n - i
  {
    if i == n then Some(out)
    else match PutScalar(c, true, ElementOr(elems, i, Missing(c)), out)
      case None => None
      case Some(out') => PutScalars(c, elems, i + 1, n, out')
  }

  ghost function PutField(f: Field, v: Value, out: Out): (r: Option<Out>)
    ensures r.Some? ==> r.value.offset >= out.offset
    decreases f, 5
  {
    match f
    case Scalar(c, annotated) => PutScalar(c, annotated, v, out)
    case Scalars(c, n) =>
      if !v.ListV? || |v.elems| > n then None else PutScalars(c, v.elems, 0, n, out)
    case Nested(t, _) => (
      if !v.InstanceV? || v.t != t then None
      else match PutStruct(t, v.members, out)
        case None => None
        case Some(inner) => Some(inner.(align := Max(out.align, inner.align))))
    case NestedArray(t, n) =>
      if !v.ListV? || |v.elems| > n then None
      else match PutStructs(t, v.elems, 0, n, Skip(out, Pad(out.offset, StructAlign(t))))
        case None => None
        case Some(after) => Some(after.(align := Max(out.align, StructAlign(t))))
  }

  /** One struct: padded to its static alignment, then its members, then padded to what the
      members have accumulated. The result's align is the struct's own. */
  ghost function PutStruct(t: StructType, members: seq<Value>, out: Out): (r: Option<Out>)
    ensures r.Some? ==> r.value.offset >= out.offset
    decreases t, 3
  {
    var lead := Skip(out, Pad(out.offset, StructAlign(t))).(align := StructAlign(t));
    match PutFields(t.fields, members, lead)
    case None => None
    case Some(body) => Some(Skip(body, Pad(body.offset - lead.offset, body.align)))
  }

  ghost function PutFields(fields: seq<Field>, members: seq<Value>, out: Out): (r: Option<Out>)
    ensures r.Some? ==> r.value.offset >= out.offset
    decreases fields, 2
  {
    if fields == [] then Some(out)
    else if members == [] then None
    else match PutField(fields[0], members[0], out)
      case None => None
      case Some(out') => PutFields(fields[1..], members[1..], out')
  }

  /** Elements of an array of structs; an absent or nil one is a new instance of the type. */
  ghost function PutStructs(t: StructType, elems: seq<Value>, i: nat, n: nat, out: Out): (r: Option<Out>)
    ensures r.Some? ==> r.value.offset >= out.offset
    requires i <= n
    decreases t, 4, n - i
  {
    if i == n then Some(out)
    else
      var elem := ElementOr(elems, i, NilV);
      if !elem.NilV? && !(elem.InstanceV? && elem.t == t) then None
      else match PutStruct(t, if elem.NilV? then t.initial else elem.members, out)
        case None => None
        case Some(out') => PutStructs(t, elems, i + 1, n, out')
  }

  /** objectToCStruct. */
  ghost function PutObject(t: StructType, members: seq<Value>): Option<seq<Byte>> {
    match PutFields(t.fields, members, Out([], 0, 1))
    case None => None
    case Some(out) => Some(out.buffer + Zeros(Pad(|out.buffer|, out.align)))
  }

  // ---- Reading --------------------------------------------------------------------------------------

  /** What a reader returns: the value, the offset after it and the accumulated alignment. */
  datatype In<+T> = In(value: T, offset: nat, align: Alignment)

  ghost function GetScalar(c: CType, bytes: seq<Byte>, offset: nat, align: Alignment): (r: Option<In<Value>>)
    ensures r.Some? ==> r.value.offset >= offset
  {
    var size := ScalarSize(c);
    var start := offset + Pad(offset, size);
    if start + size > |bytes| then None
    else
      UnLeFits(bytes[start..start + size]);
      ModulusIsLimit(c);
      match FromBits(c, UnLe(bytes[start..start + size]))
      case None => None
      case Some(v) => Some(In(v, start + size, Max(align, size)))
  }

  lemma {:induction false} UnLeFits(bs: seq<Byte>)
    ensures UnLe(bs) < Limit(|bs|)
    decreases |bs|
  {
    if bs != [] {
      UnLeFits(bs[1..]);
    }
  }

  ghost function GetScalars(c: CType, n: nat, bytes: seq<Byte>, offset: nat, align: Alignment)
    : (r: Option<In<seq<Value>>>)
    ensures r.Some? ==> r.value.offset >= offset
  {
    if n == 0 then Some(In([], offset, align))
    else match GetScalar(c, bytes, offset, align)
      case None => None
      case Some(first) =>
        match GetScalars(c, n - 1, bytes, first.offset, first.align)
        case None => None
        case Some(more) => Some(In([first.value] + more.value, more.offset, more.align))
  }

  ghost function GetField(f: Field, bytes: seq<Byte>, offset: nat, align: Alignment): (r: Option<In<Value>>)
    ensures r.Some? ==> r.value.offset >= offset
    decreases f, 5
  {
    match f
    case Scalar(c, _) => GetScalar(c, bytes, offset, align)
    case Scalars(c, n) => (
      match GetScalars(c, n, bytes, offset, align)
      case None => None
      case Some(r) => Some(In(ListV(r.value), r.offset, r.align)))
    case Nested(t, _) => (
      match GetStruct(t, bytes, offset)
      case None => None
      case Some(r) => Some(r.(align := Max(align, r.align))))
    case NestedArray(t, n) =>
      var lead := offset + Pad(offset, StructAlign(t));
      if lead > |bytes| then None
      else match GetStructs(t, n, bytes, lead)
        case None => None
        case Some(r) => Some(In(ListV(r.value), r.offset, Max(align, StructAlign(t))))
  }

  ghost function GetStruct(t: StructType, bytes: seq<Byte>, offset: nat): (r: Option<In<Value>>)
    ensures r.Some? ==> r.value.offset >= offset
    decreases t, 3
  {
    var lead := offset + Pad(offset, StructAlign(t));
    if lead > |bytes| then None
    else match GetFields(t.fields, bytes, lead, StructAlign(t))
      case None => None
      case Some(r) => Finish(t, r, lead, |bytes|)
  }

  /** A struct whose members have been read, closed by its trailing padding. */
  ghost function Finish(t: StructType, body: In<seq<Value>>, lead: nat, length: nat): (r: Option<In<Value>>)
    requires lead <= body.offset
    ensures r.Some? ==> r.value.offset >= body.offset
  {
    var end := body.offset + Pad(body.offset - lead, body.align);
    if end > length then None else Some(In(InstanceV(t, body.value), end, body.align))
  }

  ghost function GetFields(fields: seq<Field>, bytes: seq<Byte>, offset: nat, align: Alignment)
    : (r: Option<In<seq<Value>>>)
    ensures r.Some? ==> r.value.offset >= offset
    decreases fields, 2
  {
    if fields == [] then Some(In([], offset, align))
    else match GetField(fields[0], bytes, offset, align)
      case None => None
      case Some(first) =>
        match GetFields(fields[1..], bytes, first.offset, first.align)
        case None => None
        case Some(more) => Some(In([first.value] + more.value, more.offset, more.align))
  }

  ghost function GetStructs(t: StructType, n: nat, bytes: seq<Byte>, offset: nat): (r: Option<In<seq<Value>>>)
    ensures r.Some? ==> r.value.offset >= offset
    decreases t, 4, n
  {
    if n == 0 then Some(In([], offset, 1))
    else match GetStruct(t, bytes, offset)
      case None => None
      case Some(first) =>
        match GetStructs(t, n - 1, bytes, first.offset)
        case None => None
        case Some(more) => Some(In([first.value] + more.value, more.offset, 1))
  }

  /** objectFromCStruct. */
  ghost function GetObject(t: StructType, bytes: seq<Byte>): Option<seq<Value>> {
    match GetFields(t.fields, bytes, 0, 1)
    case None => None
    case Some(r) =>
      if r.offset + Pad(r.offset, r.align) <= |bytes| then Some(r.value) else None
  }
}
