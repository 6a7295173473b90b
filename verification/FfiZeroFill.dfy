/** When the bytes of a value are all zero, and when it can be written at all: what becomes of
    the elements that a list does not give to an array. */
module FfiZeroFill {
  import opened Utils
  import opened FfiLayout
  import opened FfiMarshal
  import opened FfiRoundTrip
  import opened FfiOffsets

  // ---- What can be written ----------------------------------------------------------------------------

  /** The values a member takes, wherever it is placed. */
  predicate Writable(f: Field, v: Value)
    decreases f, 5
  {
    match f
    case Scalar(c, annotated) => ToBits(c, annotated, v).Some?
    case Scalars(c, n) =>
      v.ListV? && |v.elems| <= n && forall i | 0 <= i < |v.elems| :: ToBits(c, true, v.elems[i]).Some?
    case Nested(t, _) => v.InstanceV? && v.t == t && WritableFields(t.fields, v.members)
    case NestedArray(t, n) => v.ListV? && |v.elems| <= n && WritableElements(t, v.elems, 0, n)
  }

  predicate WritableFields(fields: seq<Field>, members: seq<Value>)
    decreases fields, 2
  {
    fields == [] || (members != [] && Writable(fields[0], members[0]) && WritableFields(fields[1..], members[1..]))
  }

  /** An element that is absent or nil stands for a new instance. */
  predicate WritableElements(t: StructType, elems: seq<Value>, i: nat, n: nat)
    requires i <= n
    decreases t, 4, n - i
  {
    i == n
    || (IsElement(t, ElementOr(elems, i, NilV)) && WritableFields(t.fields, ElementMembers(t, elems, i))
        && WritableElements(t, elems, i + 1, n))
  }

  predicate IsElement(t: StructType, elem: Value) { elem.NilV? || (elem.InstanceV? && elem.t == t) }

  /** What is stored for an element of an array of scalars, given or missing. */
  function Stored(c: CType, elems: seq<Value>, k: nat): Option<nat> {
    ToBits(c, true, ElementOr(elems, k, Missing(c)))
  }

  lemma PutScalarsUnfolds(c: CType, elems: seq<Value>, i: nat, n: nat, out: Out)
    requires i < n
    ensures Stored(c, elems, i).None? ==> PutScalars(c, elems, i, n, out).None?
    ensures Stored(c, elems, i).Some? ==>
      var next := PutScalar(c, true, ElementOr(elems, i, Missing(c)), out);
      next.Some? && PutScalars(c, elems, i, n, out) == PutScalars(c, elems, i + 1, n, next.value)
  {
  }

  predicate AllStored(c: CType, elems: seq<Value>, i: nat, n: nat) {
    forall k | i <= k < n :: Stored(c, elems, k).Some?
  }

  lemma StoredStep(c: CType, elems: seq<Value>, i: nat, n: nat)
    requires i < n
    ensures AllStored(c, elems, i, n) <==> Stored(c, elems, i).Some? && AllStored(c, elems, i + 1, n)
  {
  }

  lemma {:induction false} ScalarsWrittenIff(c: CType, elems: seq<Value>, i: nat, n: nat, out: Out)
    requires i <= n
    ensures PutScalars(c, elems, i, n, out).Some? <==> AllStored(c, elems, i, n)
    decreases n - i
  {
    if i < n {
      PutScalarsUnfolds(c, elems, i, n, out);
      StoredStep(c, elems, i, n);
      if Stored(c, elems, i).Some? {
        ScalarsWrittenIff(c, elems, i + 1, n, PutScalar(c, true, ElementOr(elems, i, Missing(c)), out).value);
      }
    }
  }

  lemma StoredGivenOrMissing(c: CType, elems: seq<Value>)
    ensures forall k | 0 <= k < |elems| :: Stored(c, elems, k) == ToBits(c, true, elems[k])
    ensures forall k | |elems| <= k :: Stored(c, elems, k) == ToBits(c, true, Missing(c))
  {
  }

  lemma GivenOrMissing(c: CType, elems: seq<Value>, n: nat)
    requires |elems| <= n
    ensures AllStored(c, elems, 0, n)
      <==> forall k | 0 <= k < |elems| :: ToBits(c, true, elems[k]).Some?
  {
    BitsFit(c, true, Missing(c));
    StoredGivenOrMissing(c, elems);
    assert forall k | 0 <= k < |elems| && Stored(c, elems, k).Some? :: ToBits(c, true, elems[k]).Some?;
  }

  /** Whether a value can be written depends on it and the member's type alone. */
  lemma {:induction false} WrittenIff(f: Field, v: Value, out: Out)
    ensures PutField(f, v, out).Some? <==> Writable(f, v)
    decreases f, 5
  {
    match f
    case Scalar(_, _) =>
    case Scalars(c, n) =>
      if v.ListV? && |v.elems| <= n {
        ScalarsWrittenIff(c, v.elems, 0, n, out);
        GivenOrMissing(c, v.elems, n);
      }
    case Nested(t, _) =>
      if v.InstanceV? && v.t == t {
        StructWrittenIff(t, v.members, out);
      }
    case NestedArray(t, n) =>
      if v.ListV? && |v.elems| <= n {
        StructsWrittenIff(t, v.elems, 0, n, Skip(out, Pad(out.offset, StructAlign(t))));
      }
  }

  lemma {:induction false} StructWrittenIff(t: StructType, members: seq<Value>, out: Out)
    ensures PutStruct(t, members, out).Some? <==> WritableFields(t.fields, members)
    decreases t, 3
  {
    FieldsWrittenIff(t.fields, members, Lead(t, out));
  }

  lemma {:induction false} FieldsWrittenIff(fields: seq<Field>, members: seq<Value>, out: Out)
    ensures PutFields(fields, members, out).Some? <==> WritableFields(fields, members)
    decreases fields, 2
  {
    if fields != [] && members != [] {
      WrittenIff(fields[0], members[0], out);
      if Writable(fields[0], members[0]) {
        FieldsWrittenIff(fields[1..], members[1..], PutField(fields[0], members[0], out).value);
      }
    }
  }

  lemma {:induction false} StructsWrittenIff(t: StructType, elems: seq<Value>, i: nat, n: nat, out: Out)
    requires i <= n
    ensures PutStructs(t, elems, i, n, out).Some? <==> WritableElements(t, elems, i, n)
    decreases t, 4, n - i
  {
    if i < n {
      StructWrittenIff(t, ElementMembers(t, elems, i), out);
      if IsElement(t, ElementOr(elems, i, NilV)) && WritableFields(t.fields, ElementMembers(t, elems, i)) {
        StructsWrittenIff(t, elems, i + 1, n, PutStruct(t, ElementMembers(t, elems, i), out).value);
      }
    }
  }

  // ---- What is written as zeros -----------------------------------------------------------------------

  /** Every number stored for the value is zero. */
  predicate Zero(f: Field, v: Value)
    decreases f, 5
  {
    match f
    case Scalar(c, annotated) => ToBits(c, annotated, v) == Some(0)
    case Scalars(c, n) => v.ListV? && forall i | 0 <= i < |v.elems| :: ToBits(c, true, v.elems[i]) == Some(0)
    case Nested(t, _) => v.InstanceV? && ZeroFields(t.fields, v.members)
    case NestedArray(t, n) => v.ListV? && ZeroElements(t, v.elems, 0, n)
  }

  predicate ZeroFields(fields: seq<Field>, members: seq<Value>)
    decreases fields, 2
  {
    fields == [] || (members != [] && Zero(fields[0], members[0]) && ZeroFields(fields[1..], members[1..]))
  }

  predicate ZeroElements(t: StructType, elems: seq<Value>, i: nat, n: nat)
    decreases t, 4, n - i
  {
    i >= n || (ZeroFields(t.fields, ElementMembers(t, elems, i)) && ZeroElements(t, elems, i + 1, n))
  }

  /** What has been appended, padding included, is all zeros. */
  predicate Zeroed(out: Out, out': Out) {
    forall k | |out.buffer| <= k < |out'.buffer| :: out'.buffer[k] == 0
  }

  lemma ZeroedThen(out: Out, mid: Out, out': Out)
    requires out.buffer <= mid.buffer <= out'.buffer
    ensures Zeroed(out, out') <==> Zeroed(out, mid) && Zeroed(mid, out')
  {
    assert forall k | 0 <= k < |mid.buffer| :: out'.buffer[k] == mid.buffer[k];
  }

  lemma SkipIsZeroed(out: Out, n: nat)
    ensures out.buffer <= Skip(out, n).buffer && Zeroed(out, Skip(out, n))
  {
  }

  predicate AllZero(bs: seq<Byte>) { forall k | 0 <= k < |bs| :: bs[k] == 0 }

  lemma {:induction false} LeZeroIff(n: nat, size: nat)
    requires n < Limit(size)
    ensures AllZero(Le(n, size)) <==> n == 0
    decreases size
  {
    if size > 0 {
      LeZeroIff(n / 0x100, size - 1);
      ConsZero(n % 0x100, Le(n / 0x100, size - 1));
    }
  }

  lemma ConsZero(b: Byte, bs: seq<Byte>)
    ensures AllZero([b] + bs) <==> b == 0 && AllZero(bs)
  {
    var all := [b] + bs;
    assert all[0] == b;
    assert forall k | 0 <= k < |bs| :: bs[k] == all[k + 1];
    assert forall k | 1 <= k < |all| :: all[k] == bs[k - 1];
  }

  lemma AppendedZeroIff(out: Out, data: seq<Byte>, a: Alignment)
    ensures out.buffer <= AppendPadded(out, data, a).buffer
    ensures Zeroed(out, AppendPadded(out, data, a)) <==> AllZero(data)
  {
    var padded := Skip(out, Pad(out.offset, a));
    var out' := AppendPadded(out, data, a);
    SkipIsZeroed(out, Pad(out.offset, a));
    ZeroedThen(out, padded, out');
    assert forall k | 0 <= k < |data| :: out'.buffer[|padded.buffer| + k] == data[k];
    assert forall k | |padded.buffer| <= k < |out'.buffer| :: out'.buffer[k] == data[k - |padded.buffer|];
  }

  lemma ScalarZeroedIff(c: CType, annotated: bool, v: Value, out: Out)
    requires PutScalar(c, annotated, v, out).Some?
    ensures var out' := PutScalar(c, annotated, v, out).value;
      out.buffer <= out'.buffer && (Zeroed(out, out') <==> ToBits(c, annotated, v) == Some(0))
  {
    var n := ToBits(c, annotated, v).value;
    BitsFit(c, annotated, v);
    ModulusIsLimit(c);
    LeZeroIff(n, ScalarSize(c));
    AppendedZeroIff(out, Le(n, ScalarSize(c)), ScalarSize(c));
  }

  predicate AllStoredZero(c: CType, elems: seq<Value>, i: nat, n: nat) {
    forall k | i <= k < n :: Stored(c, elems, k) == Some(0)
  }

  lemma StoredZeroStep(c: CType, elems: seq<Value>, i: nat, n: nat)
    requires i < n
    ensures AllStoredZero(c, elems, i, n) <==> Stored(c, elems, i) == Some(0) && AllStoredZero(c, elems, i + 1, n)
  {
  }

  lemma {:induction false} ScalarsZeroedIff(c: CType, elems: seq<Value>, i: nat, n: nat, out: Out)
    requires i <= n && PutScalars(c, elems, i, n, out).Some?
    ensures Zeroed(out, PutScalars(c, elems, i, n, out).value) <==> AllStoredZero(c, elems, i, n)
    decreases n - i
  {
    if i < n {
      var next := FirstScalarZeroedIff(c, elems, i, n, out);
      StoredZeroStep(c, elems, i, n);
      ScalarsZeroedIff(c, elems, i + 1, n, next);
    }
  }

  lemma FirstScalarZeroedIff(c: CType, elems: seq<Value>, i: nat, n: nat, out: Out) returns (next: Out)
    requires i < n && PutScalars(c, elems, i, n, out).Some?
    ensures PutScalars(c, elems, i + 1, n, next) == PutScalars(c, elems, i, n, out)
    ensures Zeroed(out, PutScalars(c, elems, i, n, out).value)
      <==> Stored(c, elems, i) == Some(0) && Zeroed(next, PutScalars(c, elems, i, n, out).value)
  {
    var v := ElementOr(elems, i, Missing(c));
    PutScalarsStep(c, elems, i, n, out);
    next := PutScalar(c, true, v, out).value;
    ScalarZeroedIff(c, true, v, out);
    ScalarsAppend(c, elems, i + 1, n, next, PutScalars(c, elems, i, n, out).value);
    ZeroedThen(out, next, PutScalars(c, elems, i, n, out).value);
  }

  lemma MissingIsZero(c: CType)
    ensures ToBits(c, true, Missing(c)) == Some(0)
  {
  }

  lemma GivenAreZeroIff(c: CType, elems: seq<Value>, n: nat)
    requires |elems| <= n
    ensures AllStoredZero(c, elems, 0, n)
      <==> forall k | 0 <= k < |elems| :: ToBits(c, true, elems[k]) == Some(0)
  {
    MissingIsZero(c);
    StoredGivenOrMissing(c, elems);
    assert forall k | 0 <= k < |elems| && Stored(c, elems, k) == Some(0) :: ToBits(c, true, elems[k]) == Some(0);
  }

  /** A written value is all zeros exactly when every number stored for it is. */
  lemma {:induction false} ZeroedIff(f: Field, v: Value, out: Out)
    requires PutField(f, v, out).Some?
    ensures Zeroed(out, PutField(f, v, out).value) <==> Zero(f, v)
    decreases f, 5
  {
    match f
    case Scalar(c, annotated) => ScalarZeroedIff(c, annotated, v, out);
    case Scalars(c, n) =>
      ScalarsZeroedIff(c, v.elems, 0, n, out);
      GivenAreZeroIff(c, v.elems, n);
    case Nested(t, annotated) =>
      PutNested(t, annotated, v, out);
      StructZeroedIff(t, v.members, out);
    case NestedArray(t, n) =>
      PutNestedArray(t, n, v, out);
      var lead := Skip(out, Pad(out.offset, StructAlign(t)));
      SkipIsZeroed(out, Pad(out.offset, StructAlign(t)));
      StructsAppend(t, v.elems, 0, n, lead);
      ZeroedThen(out, lead, PutStructs(t, v.elems, 0, n, lead).value);
      StructsZeroedIff(t, v.elems, 0, n, lead);
  }

  lemma {:induction false} StructZeroedIff(t: StructType, members: seq<Value>, out: Out)
    requires PutStruct(t, members, out).Some?
    ensures Zeroed(out, PutStruct(t, members, out).value) <==> ZeroFields(t.fields, members)
    decreases t, 3
  {
    var lead := Lead(t, out);
    PutStructStep(t, members, out);
    var body := PutFields(t.fields, members, lead).value;
    FieldsAppend(t.fields, members, lead);
    FieldsZeroedIff(t.fields, members, lead);
    PaddingIsZeroed(out, lead, Pad(out.offset, StructAlign(t)), body, Pad(body.offset - lead.offset, body.align));
  }

  /** Padding before and after does not matter. */
  lemma PaddingIsZeroed(out: Out, lead: Out, before: nat, body: Out, after: nat)
    requires lead.buffer == Skip(out, before).buffer && lead.buffer <= body.buffer
    ensures Zeroed(out, Skip(body, after)) <==> Zeroed(lead, body)
  {
    SkipIsZeroed(out, before);
    SkipIsZeroed(body, after);
    ZeroedThen(out, lead, body);
    ZeroedThen(out, body, Skip(body, after));
  }

  lemma {:induction false} FieldsZeroedIff(fields: seq<Field>, members: seq<Value>, out: Out)
    requires PutFields(fields, members, out).Some?
    ensures Zeroed(out, PutFields(fields, members, out).value) <==> ZeroFields(fields, members)
    decreases fields, 2
  {
    if fields != [] {
      PutFieldsStep(fields, members, out);
      var next := PutField(fields[0], members[0], out).value;
      FieldAppends(fields[0], members[0], out);
      FieldsAppend(fields[1..], members[1..], next);
      ZeroedThen(out, next, PutFields(fields, members, out).value);
      ZeroedIff(fields[0], members[0], out);
      FieldsZeroedIff(fields[1..], members[1..], next);
    }
  }

  lemma {:induction false} StructsZeroedIff(t: StructType, elems: seq<Value>, i: nat, n: nat, out: Out)
    requires i <= n && PutStructs(t, elems, i, n, out).Some?
    ensures Zeroed(out, PutStructs(t, elems, i, n, out).value) <==> ZeroElements(t, elems, i, n)
    decreases t, 4, n - i
  {
    if i < n {
      PutStructsStep(t, elems, i, n, out);
      var next := PutStruct(t, ElementMembers(t, elems, i), out).value;
      StructAppends(t, ElementMembers(t, elems, i), out);
      StructsAppend(t, elems, i + 1, n, next);
      ZeroedThen(out, next, PutStructs(t, elems, i, n, out).value);
      StructZeroedIff(t, ElementMembers(t, elems, i), out);
      StructsZeroedIff(t, elems, i + 1, n, next);
    }
  }

  // ---- Elements that are not given ---------------------------------------------------------------------

  /** The scalars that a list does not give are written, as zeros. */
  lemma AbsentScalarsAreZero(c: CType, elems: seq<Value>, n: nat, out: Out)
    requires |elems| <= n
    ensures var r := PutScalars(c, elems, |elems|, n, out); r.Some? && Zeroed(out, r.value)
  {
    MissingIsZero(c);
    ScalarsWrittenIff(c, elems, |elems|, n, out);
    ScalarsZeroedIff(c, elems, |elems|, n, out);
  }

  /** The structs that a list does not give are written exactly when the type's initial values
      can be, and as zeros exactly when these are all stored as zero. */
  lemma AbsentStructsAreZeroIff(t: StructType, elems: seq<Value>, n: nat, out: Out)
    requires |elems| < n
    ensures var r := PutStructs(t, elems, |elems|, n, out);
      && (r.Some? <==> WritableFields(t.fields, t.initial))
      && (r.Some? ==> (Zeroed(out, r.value) <==> ZeroFields(t.fields, t.initial)))
  {
    AbsentAreInitial(t, elems, |elems|, n);
    StructsWrittenIff(t, elems, |elems|, n, out);
    if PutStructs(t, elems, |elems|, n, out).Some? {
      StructsZeroedIff(t, elems, |elems|, n, out);
    }
  }

  lemma {:induction false} AbsentAreInitial(t: StructType, elems: seq<Value>, i: nat, n: nat)
    requires |elems| <= i < n
    ensures WritableElements(t, elems, i, n) <==> WritableFields(t.fields, t.initial)
    ensures ZeroElements(t, elems, i, n) <==> ZeroFields(t.fields, t.initial)
    decreases n - i
  {
    if i + 1 < n {
      AbsentAreInitial(t, elems, i + 1, n);
    }
  }

  /** The bytes of an instance exist exactly when all its values can be written, and are all
      zero exactly when all its values are stored as zero. */
  lemma ObjectIsZeroIff(t: StructType, members: seq<Value>)
    ensures PutObject(t, members).Some? <==> WritableFields(t.fields, members)
    ensures PutObject(t, members).Some? ==> (AllZero(PutObject(t, members).value) <==> ZeroFields(t.fields, members))
  {
    FieldsWrittenIff(t.fields, members, Out([], 0, 1));
    if PutObject(t, members).Some? {
      FieldsZeroedIff(t.fields, members, Out([], 0, 1));
      var out := PutFields(t.fields, members, Out([], 0, 1)).value;
      TrailingZeros(out.buffer, Pad(|out.buffer|, out.align));
    }
  }

  lemma TrailingZeros(bs: seq<Byte>, n: nat)
    ensures AllZero(bs + Zeros(n)) <==> AllZero(bs)
  {
    assert forall k | 0 <= k < |bs| :: (bs + Zeros(n))[k] == bs[k];
  }

  // ---- Types whose absent elements are not zeros, or are refused ----------------------------------------

  predicate HoldsOne(o: StructType, t: StructType) {
    |o.fields| == 1 && o.fields[0].NestedArray? && o.fields[0].t == t && o.fields[0].count == 1
  }

  /** The value v is stored as n in the one scalar of t. */
  predicate StoredAs(t: StructType, size: Alignment, v: Value, n: nat) {
    HoldsScalar(t, size) && ToBits(t.fields[0].c, true, v) == Some(n)
  }

  lemma NoSkip(out: Out, a: Alignment)
    requires IsMultiple(out.offset, a)
    ensures Skip(out, Pad(out.offset, a)) == out
  {
    MultipleStays(out.offset, a);
    NoZeros(out.buffer);
  }

  lemma NoZeros(bs: seq<Byte>)
    ensures bs + Zeros(0) == bs
  {
  }

  lemma ScalarBytes(t: StructType, size: Alignment, v: Value, n: nat, out: Out)
    requires StoredAs(t, size, v, n) && IsMultiple(out.offset, size)
    ensures PutField(t.fields[0], v, out)
      == Some(Out(out.buffer + Le(n, size), out.offset + size, Max(out.align, size)))
  {
    NoSkip(out, size);
  }

  lemma ScalarAligns(t: StructType, size: Alignment)
    requires HoldsScalar(t, size)
    ensures StructAlign(t) == size
  {
    OneField(t.fields, Pos(1, 1));
  }

  lemma ScalarStructBytes(t: StructType, size: Alignment, v: Value, n: nat, out: Out)
    requires StoredAs(t, size, v, n) && IsMultiple(out.offset, size)
    ensures PutStruct(t, [v], out) == Some(Out(out.buffer + Le(n, size), out.offset + size, size))
  {
    var lead := out.(align := size);
    ScalarAligns(t, size);
    NoLead(t, out);
    ScalarBytes(t, size, v, n, lead);
    OneFieldWritten(t.fields, v, lead);
    MultipleOfItself(size);
    StructFromBody(t, v, out, lead, Out(out.buffer + Le(n, size), out.offset + size, size), size);
  }

  lemma MultipleOfItself(a: Alignment)
    ensures IsMultiple(a, a)
  {
    AlignedToItself(a);
  }

  lemma NoLead(t: StructType, out: Out)
    requires IsMultiple(out.offset, StructAlign(t))
    ensures Lead(t, out) == out.(align := StructAlign(t))
  {
    NoSkip(out, StructAlign(t));
  }

  lemma StructFromBody(t: StructType, v: Value, out: Out, lead: Out, body: Out, length: nat)
    requires lead == Lead(t, out) && PutFields(t.fields, [v], lead) == Some(body)
    requires body.offset == lead.offset + length && IsMultiple(length, body.align)
    ensures PutStruct(t, [v], out) == Some(body)
  {
    NoSkip(body.(offset := length), body.align);
    SkipMoves(body, body.(offset := length), Pad(length, body.align));
  }

  lemma SkipMoves(out: Out, moved: Out, n: nat)
    requires Skip(moved, n) == moved && moved.buffer == out.buffer
    ensures Skip(out, n) == out
  {
  }

  /** An absent element is written as its initial value. */
  lemma AbsentIsInitial(o: StructType, t: StructType, size: Alignment, n: nat)
    requires HoldsOne(o, t) && |t.initial| == 1 && StoredAs(t, size, t.initial[0], n)
    ensures PutObject(o, [ListV([])]) == Some(Le(n, size))
  {
    var start := Out([], 0, 1);
    var next := Out(Le(n, size), size, size);
    TimesIsMultiple(0, size);
    ScalarAligns(t, size);
    NoSkip(start, size);
    assert t.initial == [t.initial[0]] && [] + Le(n, size) == Le(n, size);
    ScalarStructBytes(t, size, t.initial[0], n, start);
    AbsentOne(t, 1, start, next);
    OneFieldWritten(o.fields, ListV([]), start);
    MultipleOfItself(size);
    NoSkip(next, size);
    assert PutField(o.fields[0], ListV([]), start) == Some(next);
  }

  lemma AbsentOne(t: StructType, n: nat, out: Out, next: Out)
    requires n == 1 && PutStruct(t, t.initial, out) == Some(next)
    ensures PutStructs(t, [], 0, n, out) == Some(next)
  {
    assert PutStructs(t, [], n, n, next) == Some(next);
  }

  lemma LeOfFive()
    ensures Le(5, 4) == [5, 0, 0, 0]
  {
    assert Le(0, 0) == [] && Le(0, 1) == [0] && Le(0, 2) == [0, 0] && Le(0, 3) == [0, 0, 0];
  }

  /** Where the type of the elements sets a 32-bit member to 5, an empty list for an array of
      one is written as 5, 0, 0, 0. */
  lemma AbsentElementIsFive(o: StructType, t: StructType)
    requires HoldsOne(o, t) && |t.fields| == 1 && t.fields[0] == Scalar(CInt32, true) && t.initial == [IntV(5)]
    ensures PutObject(o, [ListV([])]) == Some([5, 0, 0, 0])
  {
    AbsentIsInitial(o, t, 4, 5);
    LeOfFive();
  }

  /** Where the elements have a struct member that is nil at first, an empty list for an array
      of them is refused. */
  lemma AbsentElementIsRefused(o: StructType, t: StructType)
    requires HoldsOne(o, t) && t.fields != [] && t.fields[0].Nested? && t.initial != [] && t.initial[0].NilV?
    ensures PutObject(o, [ListV([])]) == None
  {
    ObjectIsZeroIff(o, [ListV([])]);
    AbsentAreInitial(t, [], 0, o.fields[0].count);
    assert !Writable(t.fields[0], t.initial[0]);
    assert !Writable(o.fields[0], ListV([]));
  }
}
