/** Struct types as the foreign-function interface lays them out, and the C layout they are
    meant to have. Only by-value members: pointers are not part of this model. */
module FfiLayout {

  datatype CType =
    | CFloat | CDouble
    | CInt32 | CUInt32 | CInt16 | CUInt16 | CInt8 | CUInt8 | CBool
    | CInt64 | CUInt64

  /** A member: a scalar, named by a C annotation or only by its builtin type; an array of
      scalars; a struct by value, whose annotation is optional; or an array of structs. */
  datatype Field =
    | Scalar(c: CType, annotated: bool)
    | Scalars(c: CType, count: nat)
    | Nested(t: StructType, annotated: bool)
    | NestedArray(t: StructType, count: nat)

  /** initial holds the value each member of a new instance starts with. */
  datatype StructType = StructType(fields: seq<Field>, initial: seq<Value>)

  type Byte = x: nat | x < 0x100
  type Bits32 = x: nat | x < 0x1_0000_0000
  type Bits64 = x: nat | x < 0x1_0000_0000_0000_0000
  type Int64 = x: int | -0x8000_0000_0000_0000 <= x < 0x8000_0000_0000_0000

  /** Script values. A real number is given by its bit pattern: DoubleV as it is, SingleV
      for one that has been rounded to single precision. */
  datatype Value =
    | NilV
    | IntV(i: Int64)
    | ByteV(b: Byte)
    | BoolV(flag: bool)
    | SingleV(single: Bits32)
    | DoubleV(double: Bits64)
    | ListV(elems: seq<Value>)
    | InstanceV(t: StructType, members: seq<Value>)

  type Alignment = a: nat | a > 0 witness 1

  /** Scalars align to their size. */
  function ScalarSize(c: CType): Alignment {
    match c
    case CFloat => 4
    case CDouble => 8
    case CInt32 | CUInt32 => 4
    case CInt16 | CUInt16 => 2
    case CInt8 | CUInt8 | CBool => 1
    case CInt64 | CUInt64 => 8
  }

  function Max(a: Alignment, b: Alignment): Alignment { if a < b then b else a }

  /** Array lengths are positive, as a declared T[N] has them, and a scalar without an
      annotation has one of the builtin types bool, byte, int and real. */
  predicate WellFormed(t: StructType)
    decreases t, 0
  {
    forall i | 0 <= i < |t.fields| :: WellFormedField(t.fields[i])
  }

  predicate WellFormedField(f: Field)
    decreases f, 1
  {
    match f
    case Scalar(c, annotated) => annotated || c == CBool || c == CUInt8 || c == CInt32 || c == CDouble
    case Scalars(_, n) => n > 0
    case Nested(t, _) => WellFormed(t)
    case NestedArray(t, n) => n > 0 && WellFormed(t)
  }

  // ---- The static alignments -------------------------------------------------------------------

  /** A struct member without annotation is not looked into: it counts as 1. */
  function PropertyAlign(f: Field): Alignment
    decreases f, 1
  {
    match f
    case Scalar(c, _) => ScalarSize(c)
    case Scalars(c, _) => ScalarSize(c)
    case Nested(t, annotated) => if annotated then StructAlign(t) else 1
    case NestedArray(t, _) => StructAlign(t)
  }

  function StructAlign(t: StructType): Alignment
    decreases t, 0
  {
    FieldsAlign(t.fields)
  }

  function FieldsAlign(fields: seq<Field>): Alignment
    decreases fields, 0
  {
    if fields == [] then 1 else Max(PropertyAlign(fields[0]), FieldsAlign(fields[1..]))
  }

  /** The static alignment as the code computes it, walking the members. */
  method ComputeStructAlign(t: StructType) returns (align: Alignment)
    ensures align == StructAlign(t)
    decreases t, 0
  {
    align := 1;
    var i := |t.fields|;
    while i > 0
      invariant 0 <= i <= |t.fields|
      invariant align == FieldsAlign(t.fields[i..])
    {
      i := i - 1;
      assert t.fields[i..][1..] == t.fields[i + 1..];
      var a := ComputePropertyAlign(t.fields[i]);
      align := Max(a, align);
    }
    assert t.fields[0..] == t.fields;
  }

  method ComputePropertyAlign(f: Field) returns (align: Alignment)
    ensures align == PropertyAlign(f)
    decreases f, 1
  {
    match f
    case Scalar(c, _) => align := ScalarSize(c);
    case Scalars(c, _) => align := ScalarSize(c);
    case Nested(t, annotated) =>
      if annotated {
        align := ComputeStructAlign(t);
      } else {
        align := 1;
      }
    case NestedArray(t, _) => align := ComputeStructAlign(t);
  }

  // ---- C's own layout ----------------------------------------------------------------------------

  function Times(k: nat, a: nat): nat {
    if k == 0 then 0 else a + Times(k - 1, a)
  }

  predicate IsRemainder(r: nat, x: nat, a: Alignment) { r == x % a }

  /** No remainder but zero is left. */
  ghost predicate IsMultiple(x: nat, a: Alignment) {
    forall r: nat :: IsRemainder(r, x, a) ==> r == 0
  }

  lemma MultipleIsDivisible(x: nat, a: Alignment)
    ensures IsMultiple(x, a) <==> x % a == 0
  {
    assert IsRemainder(x % a, x, a);
  }

  lemma HasFactor(x: nat, a: Alignment) returns (k: nat)
    requires IsMultiple(x, a)
    ensures x == Times(k, a)
  {
    MultipleIsDivisible(x, a);
    k := x / a;
    TimesIsProduct(k, a);
  }

  lemma TimesIsMultiple(k: nat, a: Alignment)
    ensures IsMultiple(Times(k, a), a)
  {
    DivisionIsUnique(Times(k, a), a, k, 0);
    MultipleIsDivisible(Times(k, a), a);
  }

  predicate Between(y: nat, from: nat, to: nat) { from <= y < to }

  /** x is the first multiple from offset on. */
  ghost predicate IsNext(x: nat, offset: nat, a: Alignment) {
    offset <= x && IsMultiple(x, a)
    && forall y: nat {:trigger Between(y, offset, x)} | Between(y, offset, x) :: !IsMultiple(y, a)
  }

  ghost function RoundUp(offset: nat, a: Alignment): (r: nat)
    ensures offset <= r
  {
    SomeNext(offset, a);
    var x: nat :| IsNext(x, offset, a);
    x
  }

  /** The padding before something aligned to a: what is missing to the next multiple. */
  ghost function Pad(offset: nat, a: Alignment): nat {
    RoundUp(offset, a) - offset
  }

  lemma {:induction false} TimesIsProduct(k: nat, a: nat)
    ensures Times(k, a) == k * a
    decreases k
  {
    if k > 0 {
      TimesIsProduct(k - 1, a);
      assert k * a == (k - 1) * a + a;
    }
  }

  lemma {:induction false} MultiplesAreApart(a: nat, j: nat, k: nat)
    requires j < k
    ensures Times(j, a) + a <= Times(k, a)
    decreases k
  {
    if j < k - 1 {
      MultiplesAreApart(a, j, k - 1);
    }
  }

  lemma DivisionIsUnique(x: nat, a: Alignment, q: nat, r: nat)
    requires x == Times(q, a) + r && r < a
    ensures x / a == q && x % a == r
  {
    var q' := x / a;
    TimesIsProduct(q', a);
    assert x == Times(q', a) + x % a;
    if q' > q {
      MultiplesAreApart(a, q, q');
    } else if q' < q {
      MultiplesAreApart(a, q', q);
    }
  }

  lemma SomeMultiple(offset: nat, a: Alignment)
    ensures (a - offset % a) % a < a && IsMultiple(offset + (a - offset % a) % a, a)
  {
    var q, r := offset / a, offset % a;
    TimesIsProduct(q, a);
    assert offset == Times(q, a) + r;
    if r == 0 {
      assert Times(1, a) == a + Times(0, a);
      DivisionIsUnique(a, a, 1, 0);
      TimesIsMultiple(q, a);
    } else {
      DivisionIsUnique(a - r, a, 0, a - r);
      assert offset + (a - r) == Times(q + 1, a);
      TimesIsMultiple(q + 1, a);
    }
  }

  lemma CloseMultiples(x: nat, y: nat, a: Alignment)
    requires IsMultiple(x, a) && IsMultiple(y, a) && x <= y < x + a
    ensures x == y
  {
    var j := HasFactor(x, a);
    var k := HasFactor(y, a);
    if j < k {
      MultiplesAreApart(a, j, k);
    } else if k < j {
      MultiplesAreApart(a, k, j);
    }
  }

  lemma MultipleIsNext(offset: nat, a: Alignment, x: nat)
    requires offset <= x < offset + a && IsMultiple(x, a)
    ensures IsNext(x, offset, a)
  {
    forall y: nat | Between(y, offset, x)
      ensures !IsMultiple(y, a)
    {
      if IsMultiple(y, a) {
        CloseMultiples(y, x, a);
      }
    }
  }

  lemma SomeNext(offset: nat, a: Alignment)
    ensures IsNext(offset + (a - offset % a) % a, offset, a)
  {
    SomeMultiple(offset, a);
    MultipleIsNext(offset, a, offset + (a - offset % a) % a);
  }

  /** There is one multiple in reach. */
  lemma RoundsTo(offset: nat, a: Alignment, x: nat)
    requires offset <= x < offset + a && IsMultiple(x, a)
    ensures RoundUp(offset, a) == x
  {
    MultipleIsNext(offset, a, x);
    var least := RoundUp(offset, a);
    assert !Between(least, offset, x) && !Between(x, offset, least);
  }

  /** The formula the code pads with is the distance to the next multiple. */
  lemma PadIsFormula(offset: nat, a: Alignment)
    ensures Pad(offset, a) == (a - offset % a) % a
  {
    SomeMultiple(offset, a);
    RoundsTo(offset, a, offset + (a - offset % a) % a);
  }

  /** Padding reaches the least multiple of the alignment that is not below the offset. */
  lemma RoundUpIsLeast(offset: nat, a: Alignment, x: nat)
    ensures offset <= RoundUp(offset, a) < offset + a
    ensures IsMultiple(RoundUp(offset, a), a)
    ensures x >= offset && IsMultiple(x, a) ==> RoundUp(offset, a) <= x
  {
    SomeMultiple(offset, a);
    RoundsTo(offset, a, offset + (a - offset % a) % a);
    assert IsMultiple(x, a) ==> !Between(x, offset, RoundUp(offset, a));
  }

  /** Alignment of a member in C: every struct counts with its strictest member. */
  function CAlign(f: Field): Alignment
    decreases f, 1
  {
    match f
    case Scalar(c, _) => ScalarSize(c)
    case Scalars(c, _) => ScalarSize(c)
    case Nested(t, _) => CStructAlign(t)
    case NestedArray(t, _) => CStructAlign(t)
  }

  function CStructAlign(t: StructType): Alignment
    decreases t, 0
  {
    CFieldsAlign(t.fields)
  }

  function CFieldsAlign(fields: seq<Field>): Alignment
    decreases fields, 0
  {
    if fields == [] then 1 else Max(CAlign(fields[0]), CFieldsAlign(fields[1..]))
  }

  /** n elements of the given size, back to back. */
  function Span(n: nat, size: nat): nat {
    if n == 0 then 0 else size + Span(n - 1, size)
  }

  ghost function CSize(f: Field): nat
    decreases f, 1
  {
    match f
    case Scalar(c, _) => ScalarSize(c)
    case Scalars(c, n) => Span(n, ScalarSize(c))
    case Nested(t, _) => CStructSize(t)
    case NestedArray(t, n) => Span(n, CStructSize(t))
  }

  ghost function CStructSize(t: StructType): nat
    decreases t, 0
  {
    RoundUp(CFieldsEnd(t.fields, 0), CStructAlign(t))
  }

  /** Where the members end when laid out from the given offset in the struct. */
  ghost function CFieldsEnd(fields: seq<Field>, offset: nat): nat
    decreases fields, 0
  {
    if fields == [] then offset
    else CFieldsEnd(fields[1..], RoundUp(offset, CAlign(fields[0])) + CSize(fields[0]))
  }

  // ---- When the static alignment is C's ------------------------------------------------------------

  /** Some strictest member is one the static alignment looks into. */
  predicate StrictestIsSeen(t: StructType)
    decreases t, 0
  {
    CStructAlign(t) == 1
    || exists i :: 0 <= i < |t.fields| && CAlign(t.fields[i]) == CStructAlign(t) && FieldIsSeen(t.fields[i])
  }

  predicate FieldIsSeen(f: Field)
    decreases f, 1
  {
    match f
    case Scalar(_, _) => true
    case Scalars(_, _) => true
    case Nested(t, annotated) => annotated && StrictestIsSeen(t)
    case NestedArray(t, _) => StrictestIsSeen(t)
  }

  lemma {:induction false} StaticNeverExceedsC(f: Field)
    ensures PropertyAlign(f) <= CAlign(f)
    decreases f, 1
  {
    match f
    case Nested(t, _) => FieldsNeverExceedC(t.fields);
    case NestedArray(t, _) => FieldsNeverExceedC(t.fields);
    case _ =>
  }

  lemma {:induction false} FieldsNeverExceedC(fields: seq<Field>)
    ensures FieldsAlign(fields) <= CFieldsAlign(fields)
    decreases fields, 0
  {
    if fields != [] {
      StaticNeverExceedsC(fields[0]);
      FieldsNeverExceedC(fields[1..]);
    }
  }

  lemma {:induction false} MemberBounds(fields: seq<Field>, i: nat)
    requires i < |fields|
    ensures PropertyAlign(fields[i]) <= FieldsAlign(fields) && CAlign(fields[i]) <= CFieldsAlign(fields)
    decreases i
  {
    if i > 0 {
      MemberBounds(fields[1..], i - 1);
    }
  }

  lemma {:induction false} AttainedStatic(fields: seq<Field>) returns (i: nat)
    requires FieldsAlign(fields) > 1
    ensures i < |fields| && PropertyAlign(fields[i]) == FieldsAlign(fields)
    decreases |fields|
  {
    if PropertyAlign(fields[0]) >= FieldsAlign(fields[1..]) {
      i := 0;
    } else {
      i := AttainedStatic(fields[1..]);
      i := i + 1;
    }
  }

  lemma {:induction false} FieldSeenIff(f: Field)
    ensures FieldIsSeen(f) ==> PropertyAlign(f) == CAlign(f)
    ensures PropertyAlign(f) == CAlign(f) && CAlign(f) > 1 ==> FieldIsSeen(f)
    decreases f, 1
  {
    match f
    case Nested(t, _) => StaticAlignIffSeen(t);
    case NestedArray(t, _) => StaticAlignIffSeen(t);
    case _ =>
  }

  /** The static alignment of a struct is its C alignment exactly when it looks into one of
      the strictest members. */
  lemma {:induction false} StaticAlignIffSeen(t: StructType)
    ensures StructAlign(t) == CStructAlign(t) <==> StrictestIsSeen(t)
    decreases t, 0
  {
    FieldsNeverExceedC(t.fields);
    if StrictestIsSeen(t) && CStructAlign(t) > 1 {
      var i :| 0 <= i < |t.fields| && CAlign(t.fields[i]) == CStructAlign(t) && FieldIsSeen(t.fields[i]);
      FieldSeenIff(t.fields[i]);
      MemberBounds(t.fields, i);
    } else if StructAlign(t) == CStructAlign(t) && CStructAlign(t) > 1 {
      var i := AttainedStatic(t.fields);
      MemberBounds(t.fields, i);
      StaticNeverExceedsC(t.fields[i]);
      FieldSeenIff(t.fields[i]);
    }
  }

  /** A struct member without annotation hides its alignment: the struct around it is
      placed on any offset. */
  lemma HiddenAlignment()
    ensures var inner := StructType([Scalar(CDouble, true)], [DoubleV(0)]);
      var outer := StructType([Nested(inner, false)], [NilV]);
      StructAlign(outer) == 1 && CStructAlign(outer) == 8
  {
    var inner := StructType([Scalar(CDouble, true)], [DoubleV(0)]);
    var outer := StructType([Nested(inner, false)], [NilV]);
    assert inner.fields[1..] == [] && outer.fields[1..] == [];
    assert CFieldsAlign([]) == 1 && FieldsAlign([]) == 1;
    assert CFieldsAlign(inner.fields) == 8;
    assert CStructAlign(inner) == 8;
    assert PropertyAlign(outer.fields[0]) == 1 && CAlign(outer.fields[0]) == 8;
  }
}
