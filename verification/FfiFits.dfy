/** Which values a member takes, what number it stores for them, and which instances come back
    as they were. */
module FfiFits {
  import opened Utils
  import opened FfiLayout
  import opened FfiMarshal
  import opened FfiRoundTrip
  import opened FfiZeroFill

  // ---- Scalars ------------------------------------------------------------------------------------------

  predicate Real(c: CType) { c == CFloat || c == CDouble }

  predicate OneByte(c: CType) { c == CInt8 || c == CUInt8 || c == CBool }

  /** The kinds of value a C type takes. Truth values go into any integer; bytes into any
      integer, and integers into any that is wider than a byte; what the annotation adds is
      integers in one byte and bytes in truth values. A real takes a real of its precision. */
  predicate Converts(c: CType, annotated: bool, v: Value) {
    match v
    case BoolV(_) => !Real(c)
    case ByteV(_) => !Real(c) && (c == CBool ==> annotated)
    case IntV(_) => !Real(c) && (OneByte(c) ==> annotated)
    case SingleV(_) => c == CFloat
    case DoubleV(_) => c == CDouble
    case _ => false
  }

  lemma ScalarIsWrittenIff(c: CType, annotated: bool, v: Value, out: Out)
    ensures PutScalar(c, annotated, v, out).Some? <==> Converts(c, annotated, v)
  {
  }

  /** The width that the name of a C type tells. */
  function BitsOf(c: CType): nat {
    match c
    case CInt8 | CUInt8 | CBool => 8
    case CInt16 | CUInt16 => 16
    case CInt32 | CUInt32 | CFloat => 32
    case CInt64 | CUInt64 | CDouble => 64
  }

  lemma SizeIsTheNames(c: CType)
    ensures 8 * ScalarSize(c) == BitsOf(c)
  {
  }

  /** The number that represents a value: its bit pattern, whether it is true, or itself
      reduced to as many bytes as there are. */
  function Represented(c: CType, v: Value): int {
    if v.SingleV? then v.single
    else if v.DoubleV? then v.double
    else if c == CBool then if AsInt(v) != 0 then 1 else 0
    else AsInt(v) % Limit(ScalarSize(c))
  }

  lemma BitsAreRepresented(c: CType, annotated: bool, v: Value)
    requires Converts(c, annotated, v)
    ensures ToBits(c, annotated, v) == Some(Represented(c, v))
  {
    ModulusIsLimit(c);
  }

  /** The last bytes written are that number, the least significant one first. */
  lemma StoredIsRepresented(c: CType, annotated: bool, v: Value, out: Out)
    requires Converts(c, annotated, v)
    ensures var r := PutScalar(c, annotated, v, out);
      && r.Some? && |r.value.buffer| >= |out.buffer| + ScalarSize(c)
      && UnLe(r.value.buffer[|r.value.buffer| - ScalarSize(c)..]) == Represented(c, v)
  {
    BitsAreRepresented(c, annotated, v);
    BitsFit(c, annotated, v);
    ModulusIsLimit(c);
    var data := Le(Represented(c, v), ScalarSize(c));
    LeRoundTrip(Represented(c, v), ScalarSize(c));
    LastBytes(out, data, ScalarSize(c));
  }

  lemma LastBytes(out: Out, data: seq<Byte>, a: Alignment)
    ensures var buffer := AppendPadded(out, data, a).buffer;
      |buffer| >= |out.buffer| + |data| && buffer[|buffer| - |data|..] == data
  {
  }

  // ---- What comes back as it was --------------------------------------------------------------------------

  /** The values of which a member loses nothing. */
  predicate Fits(f: Field, v: Value)
    decreases f, 5
  {
    match f
    case Scalar(c, _) => FitsExactly(c, v)
    case Scalars(c, n) => v.ListV? && |v.elems| == n && AllFit(c, v.elems)
    case Nested(t, _) => v.InstanceV? && v.t == t && FitsFields(t.fields, v.members)
    case NestedArray(t, n) => v.ListV? && |v.elems| == n && FitsStructs(t, v.elems)
  }

  predicate FitsExactly(c: CType, v: Value) {
    FitsScalar(c, v)
    && (c == CFloat ==> v.SingleV?) && (c == CDouble ==> v.DoubleV?) && (c == CInt64 || c == CUInt64 ==> v.IntV?)
  }

  predicate AllFit(c: CType, elems: seq<Value>) {
    elems == [] || (FitsExactly(c, elems[0]) && AllFit(c, elems[1..]))
  }

  predicate FitsFields(fields: seq<Field>, members: seq<Value>)
    decreases fields, 2
  {
    if fields == [] then members == []
    else members != [] && Fits(fields[0], members[0]) && FitsFields(fields[1..], members[1..])
  }

  predicate FitsStructs(t: StructType, elems: seq<Value>)
    decreases t, 4, |elems|
  {
    elems == []
    || (elems[0].InstanceV? && elems[0].t == t && FitsFields(t.fields, elems[0].members) && FitsStructs(t, elems[1..]))
  }

  lemma ExactlyIff(c: CType, annotated: bool, v: Value)
    requires annotated || c == CBool || c == CUInt8 || c == CInt32 || c == CDouble
    ensures FitsExactly(c, v) ==> ToBits(c, annotated, v).Some?
    ensures c != CInt64 && c != CUInt64 ==>
      (FitsExactly(c, v) <==> ToBits(c, annotated, v).Some? && ReduceScalar(c, v) == v)
  {
    ReduceKeepsWhatFits(c, v);
  }

  /** Whatever number is read from a buffer gives a value that fits and is written as that
      number again; truth values read any number but zero as true. */
  lemma ReadIsWrittenBack(c: CType, annotated: bool, n: nat)
    requires n < Modulus(c) && c != CInt64 && c != CUInt64
    requires annotated || c == CBool || c == CUInt8 || c == CInt32 || c == CDouble
    ensures FromBits(c, n).Some? && FitsExactly(c, FromBits(c, n).value)
    ensures c != CBool ==> ToBits(c, annotated, FromBits(c, n).value) == Some(n)
    ensures c == CBool ==> FromBits(c, n) == Some(BoolV(n != 0))
  {
  }

  lemma {:induction false} AllFitIff(c: CType, elems: seq<Value>, i: nat, n: nat)
    requires i <= |elems| <= n
    ensures |elems| == n && AllFit(c, elems[i..]) ==> AllStored(c, elems, i, n)
    ensures c != CInt64 && c != CUInt64 ==>
      (|elems| == n && AllFit(c, elems[i..])
       <==> AllStored(c, elems, i, n) && ReduceScalars(c, elems, i, n) == elems[i..])
    decreases |elems| - i
  {
    if i < |elems| {
      ExactlyIff(c, true, elems[i]);
      assert elems[i..][1..] == elems[i + 1..];
      AllFitIff(c, elems, i + 1, n);
      StoredStep(c, elems, i, n);
      ReduceScalarsStep(c, elems, i, n);
      ConsSame(ReduceScalar(c, elems[i]), ReduceScalars(c, elems, i + 1, n), elems[i..]);
    } else if i < n {
      ReduceScalarsStep(c, elems, i, n);
    }
  }

  lemma ConsSame(x: Value, more: seq<Value>, all: seq<Value>)
    requires all != []
    ensures [x] + more == all <==> x == all[0] && more == all[1..]
  {
    assert ([x] + more)[0] == x && ([x] + more)[1..] == more;
    assert all == [all[0]] + all[1..];
  }

  /** A value that fits is written; where there are readers, a value is written and reduced to
      itself exactly when it fits. */
  lemma {:induction false} FitsIff(f: Field, v: Value)
    requires WellFormedField(f)
    ensures Fits(f, v) ==> Writable(f, v)
    ensures Readable(f) ==> (Fits(f, v) <==> Writable(f, v) && Reduce(f, v) == v)
    decreases f, 5
  {
    match f
    case Scalar(c, annotated) => ExactlyIff(c, annotated, v);
    case Scalars(c, n) =>
      if v.ListV? && |v.elems| <= n {
        AllFitIff(c, v.elems, 0, n);
        GivenOrMissing(c, v.elems, n);
        assert v.elems[0..] == v.elems;
      }
    case Nested(t, _) =>
      if v.InstanceV? && v.t == t {
        FitsFieldsIff(t.fields, v.members);
        assert Readable(f) <==> ReadableStruct(t);
        assert v == InstanceV(t, v.members);
        assert Reduce(f, v) == InstanceV(t, ReduceFields(t.fields, v.members));
      }
    case NestedArray(t, n) =>
      if v.ListV? && |v.elems| <= n {
        FitsStructsIff(t, v.elems, 0, n);
        assert v.elems[0..] == v.elems;
      }
  }

  lemma {:induction false} FitsFieldsIff(fields: seq<Field>, members: seq<Value>)
    requires forall i | 0 <= i < |fields| :: WellFormedField(fields[i])
    ensures FitsFields(fields, members) ==> WritableFields(fields, members)
    ensures (forall i | 0 <= i < |fields| :: Readable(fields[i])) ==>
      (FitsFields(fields, members) <==> WritableFields(fields, members) && ReduceFields(fields, members) == members)
    decreases fields, 2
  {
    if fields != [] && members != [] {
      FitsIff(fields[0], members[0]);
      FitsFieldsIff(fields[1..], members[1..]);
      ConsSame(Reduce(fields[0], members[0]), ReduceFields(fields[1..], members[1..]), members);
    }
  }

  lemma {:induction false} FitsStructsIff(t: StructType, elems: seq<Value>, i: nat, n: nat)
    requires WellFormed(t) && i <= |elems| <= n
    ensures |elems| == n && FitsStructs(t, elems[i..]) ==> WritableElements(t, elems, i, n)
    ensures ReadableStruct(t) ==>
      (|elems| == n && FitsStructs(t, elems[i..])
       <==> WritableElements(t, elems, i, n) && ReduceStructs(t, elems, i, n) == elems[i..])
    decreases t, 4, n - i
  {
    if i < |elems| {
      assert elems[i..][1..] == elems[i + 1..];
      FitsFieldsIff(t.fields, ElementMembers(t, elems, i));
      FitsStructsIff(t, elems, i + 1, n);
      ReduceStructsStep(t, elems, i, n);
      ConsSame(InstanceV(t, ReduceFields(t.fields, ElementMembers(t, elems, i))), ReduceStructs(t, elems, i + 1, n),
               elems[i..]);
    } else if i < n {
      ReduceStructsStep(t, elems, i, n);
    }
  }

  /** An instance whose members all fit is written. If the type has no 64-bit integer, an
      instance is written and read back as it was exactly when its members all fit. */
  lemma UnchangedIffFits(t: StructType, members: seq<Value>)
    requires WellFormed(t)
    ensures FitsFields(t.fields, members) ==> PutObject(t, members).Some?
    ensures ReadableStruct(t) ==>
      (FitsFields(t.fields, members)
       <==> PutObject(t, members).Some? && GetObject(t, PutObject(t, members).value) == Some(members))
  {
    FitsFieldsIff(t.fields, members);
    ObjectIsZeroIff(t, members);
    if ReadableStruct(t) && PutObject(t, members).Some? {
      ObjectReadsBack(t, members, PutObject(t, members).value);
    }
  }
}
