/** Written structs have the C layout, and every instance of a type takes the same space. */
module FfiOffsets {
  import opened Utils
  import opened FfiLayout
  import opened FfiMarshal
  import opened FfiRoundTrip

  // ---- Multiples and powers of two ------------------------------------------------------------------

  predicate PowerOfTwo(a: nat) { a == 1 || a == 2 || a == 4 || a == 8 }

  lemma {:induction false} TimesAdds(j: nat, k: nat, a: nat)
    ensures Times(j + k, a) == Times(j, a) + Times(k, a)
    decreases j
  {
    if j > 0 {
      TimesAdds(j - 1, k, a);
      assert Times(j + k, a) == a + Times(j - 1 + k, a);
    }
  }

  lemma MultiplesAdd(x: nat, y: nat, a: Alignment)
    requires IsMultiple(x, a) && IsMultiple(y, a)
    ensures IsMultiple(x + y, a)
  {
    var j := HasFactor(x, a);
    var k := HasFactor(y, a);
    TimesAdds(j, k, a);
    TimesIsMultiple(j + k, a);
  }

  lemma {:induction false} DivisorsCompose(k: nat, b: Alignment, a: Alignment)
    requires IsMultiple(b, a)
    ensures IsMultiple(Times(k, b), a)
    decreases k
  {
    if k == 0 {
      TimesIsMultiple(0, a);
    } else {
      DivisorsCompose(k - 1, b, a);
      MultiplesAdd(b, Times(k - 1, b), a);
    }
  }

  lemma StricterDivides(base: nat, b: Alignment, a: Alignment)
    requires IsMultiple(base, b) && PowerOfTwo(a) && PowerOfTwo(b) && a <= b
    ensures IsMultiple(base, a)
  {
    assert b % a == 0 by {
      if a == 2 {
        assert b % 2 == 0;
      } else if a == 4 {
        assert b % 4 == 0;
      }
    }
    MultipleIsDivisible(b, a);
    var k := HasFactor(base, b);
    DivisorsCompose(k, b, a);
  }

  lemma RoundUpShifts(base: nat, offset: nat, a: Alignment)
    requires IsMultiple(base, a)
    ensures RoundUp(base + offset, a) == base + RoundUp(offset, a)
  {
    RoundUpIsLeast(offset, a, 0);
    MultiplesAdd(base, RoundUp(offset, a), a);
    RoundsTo(base + offset, a, base + RoundUp(offset, a));
  }

  lemma RoundUpIsAligned(offset: nat, a: Alignment)
    ensures offset <= RoundUp(offset, a) && IsMultiple(RoundUp(offset, a), a)
  {
    RoundUpIsLeast(offset, a, 0);
  }

  lemma MultipleStays(offset: nat, a: Alignment)
    requires IsMultiple(offset, a)
    ensures RoundUp(offset, a) == offset
  {
    RoundUpIsLeast(offset, a, offset);
  }

  lemma {:induction false} AlignIsPower(f: Field)
    ensures PowerOfTwo(CAlign(f))
    decreases f, 1
  {
    match f
    case Nested(t, _) => FieldsAlignIsPower(t.fields);
    case NestedArray(t, _) => FieldsAlignIsPower(t.fields);
    case _ =>
  }

  lemma {:induction false} FieldsAlignIsPower(fields: seq<Field>)
    ensures PowerOfTwo(CFieldsAlign(fields))
    decreases fields, 0
  {
    if fields != [] {
      AlignIsPower(fields[0]);
      FieldsAlignIsPower(fields[1..]);
    }
  }

  // ---- The C layout ------------------------------------------------------------------------------------

  /** Every struct type met inside has the alignment C gives it. */
  ghost predicate Honest(f: Field)
    decreases f, 1
  {
    match f
    case Nested(t, _) => HonestStruct(t)
    case NestedArray(t, _) => HonestStruct(t)
    case _ => true
  }

  ghost predicate HonestStruct(t: StructType)
    decreases t, 0
  {
    StrictestIsSeen(t) && forall i | 0 <= i < |t.fields| :: Honest(t.fields[i])
  }

  lemma HonestAlign(t: StructType)
    requires HonestStruct(t)
    ensures StructAlign(t) == CStructAlign(t)
  {
    StaticAlignIffSeen(t);
  }

  /** Members keep their distances when the struct is moved by a multiple of its alignment. */
  lemma {:induction false} FieldsEndShifts(fields: seq<Field>, base: nat, offset: nat)
    requires IsMultiple(base, CFieldsAlign(fields))
    ensures CFieldsEnd(fields, base + offset) == base + CFieldsEnd(fields, offset)
    decreases |fields|
  {
    if fields != [] {
      AlignIsPower(fields[0]);
      FieldsAlignIsPower(fields);
      FieldsAlignIsPower(fields[1..]);
      StricterDivides(base, CFieldsAlign(fields), CAlign(fields[0]));
      StricterDivides(base, CFieldsAlign(fields), CFieldsAlign(fields[1..]));
      RoundUpShifts(base, offset, CAlign(fields[0]));
      FieldsEndShifts(fields[1..], base, RoundUp(offset, CAlign(fields[0])) + CSize(fields[0]));
    }
  }

  lemma {:induction false} ScalarsLaidOut(c: CType, n: nat, p: Pos)
    requires n > 0
    ensures EndOfScalars(c, n, p)
      == Pos(RoundUp(p.offset, ScalarSize(c)) + Span(n, ScalarSize(c)), Max(p.align, ScalarSize(c)))
    decreases n
  {
    var size := ScalarSize(c);
    EndOfScalarsStep(c, n, p);
    SpanStep(n, size);
    if n > 1 {
      NextIsAligned(p.offset, size);
      ScalarsLaidOut(c, n - 1, AfterScalar(c, p));
    }
  }

  lemma SpanStep(n: nat, size: nat)
    requires n > 0
    ensures Span(n, size) == size + Span(n - 1, size)
  {
  }

  lemma NextIsAligned(offset: nat, size: Alignment)
    ensures RoundUp(RoundUp(offset, size) + size, size) == RoundUp(offset, size) + size
  {
    RoundUpIsAligned(offset, size);
    MultipleIsDivisible(size, size);
    MultiplesAdd(RoundUp(offset, size), size, size);
    MultipleStays(RoundUp(offset, size) + size, size);
  }

  /** A member starts at the lowest sufficiently aligned offset after its predecessor and
      takes its C size. */
  lemma {:induction false} FieldLaidOut(f: Field, p: Pos)
    requires WellFormedField(f) && Honest(f)
    ensures EndOf(f, p) == Pos(RoundUp(p.offset, CAlign(f)) + CSize(f), Max(p.align, CAlign(f)))
    decreases f, 5
  {
    match f
    case Scalar(_, _) =>
    case Scalars(c, n) => ScalarsLaidOut(c, n, p);
    case Nested(t, _) => StructLaidOut(t, p.offset);
    case NestedArray(t, n) =>
      HonestAlign(t);
      RoundUpIsAligned(p.offset, CStructAlign(t));
      StructsLaidOut(t, n, RoundUp(p.offset, CStructAlign(t)));
  }

  lemma {:induction false} FieldsLaidOut(fields: seq<Field>, p: Pos)
    requires forall i | 0 <= i < |fields| :: WellFormedField(fields[i]) && Honest(fields[i])
    ensures EndOfFields(fields, p) == Pos(CFieldsEnd(fields, p.offset), Max(p.align, CFieldsAlign(fields)))
    decreases fields, 2
  {
    if fields != [] {
      FieldLaidOut(fields[0], p);
      FieldsLaidOut(fields[1..], EndOf(fields[0], p));
    }
  }

  /** A struct is placed at a multiple of its strictest member's alignment and its size is
      such a multiple. */
  lemma {:induction false} StructLaidOut(t: StructType, offset: nat)
    requires WellFormed(t) && HonestStruct(t)
    ensures EndOfStruct(t, offset) == Pos(RoundUp(offset, CStructAlign(t)) + CStructSize(t), CStructAlign(t))
    ensures IsMultiple(CStructSize(t), CStructAlign(t))
    decreases t, 3
  {
    HonestAlign(t);
    var align := CStructAlign(t);
    var lead := RoundUp(offset, align);
    RoundUpIsAligned(offset, align);
    RoundUpIsAligned(CFieldsEnd(t.fields, 0), align);
    FieldsLaidOut(t.fields, Pos(lead, align));
    FieldsEndShifts(t.fields, lead, 0);
    StructEnd(t, offset, CFieldsEnd(t.fields, 0), align);
  }

  lemma StructEnd(t: StructType, offset: nat, length: nat, align: Alignment)
    requires var lead := RoundUp(offset, StructAlign(t));
      EndOfFields(t.fields, Pos(lead, StructAlign(t))) == Pos(lead + length, align)
    ensures EndOfStruct(t, offset) == Pos(RoundUp(offset, StructAlign(t)) + RoundUp(length, align), align)
  {
  }

  /** Elements of an array of structs are back to back. */
  lemma {:induction false} StructsLaidOut(t: StructType, n: nat, offset: nat)
    requires WellFormed(t) && HonestStruct(t) && IsMultiple(offset, CStructAlign(t))
    ensures EndOfStructs(t, n, offset) == offset + Span(n, CStructSize(t))
    decreases t, 4, n
  {
    if n > 0 {
      ElementLaidOut(t, offset);
      StructsLaidOut(t, n - 1, offset + CStructSize(t));
      EndOfStructsStep(t, n, offset);
      SpanStep(n, CStructSize(t));
    }
  }

  lemma ElementLaidOut(t: StructType, offset: nat)
    requires WellFormed(t) && HonestStruct(t) && IsMultiple(offset, CStructAlign(t))
    ensures EndOfStruct(t, offset).offset == offset + CStructSize(t)
    ensures IsMultiple(offset + CStructSize(t), CStructAlign(t))
    decreases t, 4, 0
  {
    StructLaidOut(t, offset);
    MultipleStays(offset, CStructAlign(t));
    MultiplesAdd(offset, CStructSize(t), CStructAlign(t));
  }

  /** The bytes of an instance are as many as sizeof says in C. Only the struct types inside
      have to be honest: the outermost one is padded to what its members accumulated. */
  lemma ObjectHasCSize(t: StructType, members: seq<Value>)
    requires WellFormed(t) && (forall i | 0 <= i < |t.fields| :: Honest(t.fields[i]))
    requires PutObject(t, members).Some?
    ensures |PutObject(t, members).value| == CStructSize(t)
  {
    SizeIsTheTypes(t, members);
    FieldsLaidOut(t.fields, Pos(0, 1));
  }

  lemma {:induction false} PrefixIsWrittenFirst(fields: seq<Field>, members: seq<Value>, i: nat, out: Out)
    requires i < |fields| && PutFields(fields, members, out).Some?
    ensures i < |members|
    ensures var r := PutFields(fields[..i], members, out);
      r.Some? && PutField(fields[i], members[i], r.value).Some?
      && PutField(fields[i], members[i], r.value).value.buffer <= PutFields(fields, members, out).value.buffer
    decreases i
  {
    PutFieldsStep(fields, members, out);
    var next := PutField(fields[0], members[0], out).value;
    if i == 0 {
      FieldsAppend(fields[1..], members[1..], next);
    } else {
      PrefixIsWrittenFirst(fields[1..], members[1..], i - 1, next);
      assert fields[..i][1..] == fields[1..][..i - 1];
    }
  }

  /** Every member is found in the written bytes at the place C gives it: looking there, and
      nowhere else, yields its value reduced to width. */
  lemma MemberIsAtItsOffset(t: StructType, members: seq<Value>, i: nat)
    requires WellFormed(t) && ReadableStruct(t) && (forall j | 0 <= j < |t.fields| :: Honest(t.fields[j]))
    requires i < |t.fields| && PutObject(t, members).Some?
    ensures i < |members|
    ensures var r := GetField(t.fields[i], PutObject(t, members).value, CFieldsEnd(t.fields[..i], 0), 1);
      r.Some? && r.value.value == Reduce(t.fields[i], members[i])
      && r.value.offset == RoundUp(CFieldsEnd(t.fields[..i], 0), CAlign(t.fields[i])) + CSize(t.fields[i])
  {
    var bytes := PutObject(t, members).value;
    PrefixIsWrittenFirst(t.fields, members, i, Out([], 0, 1));
    var before := PutFields(t.fields[..i], members, Out([], 0, 1)).value;
    FieldsAppend(t.fields[..i], members, Out([], 0, 1));
    FieldsLaidOut(t.fields[..i], Pos(0, 1));
    var start := before.(align := 1);
    FieldIgnoresAlign(t.fields[i], members[i], before, 1);
    FieldReadsBack(t.fields[i], members[i], start, bytes);
    FieldAppends(t.fields[i], members[i], start);
    FieldLaidOut(t.fields[i], Pos(start.offset, 1));
  }

  lemma PutScalarsCons(c: CType, elems: seq<Value>, i: nat, n: nat, out: Out, next: Out)
    requires i < n && PutScalar(c, true, ElementOr(elems, i, Missing(c)), out) == Some(next)
    ensures PutScalars(c, elems, i, n, out) == PutScalars(c, elems, i + 1, n, next)
  {
  }

  lemma ScalarIgnoresAlign(c: CType, annotated: bool, v: Value, out: Out, next: Out, a: Alignment)
    requires PutScalar(c, annotated, v, out) == Some(next)
    ensures PutScalar(c, annotated, v, out.(align := a)) == Some(next.(align := Max(a, ScalarSize(c))))
  {
  }

  lemma {:induction false} ScalarsIgnoreAlign(c: CType, elems: seq<Value>, i: nat, n: nat, out: Out, a: Alignment)
    requires i <= n && PutScalars(c, elems, i, n, out).Some?
    ensures var r := PutScalars(c, elems, i, n, out.(align := a));
      r.Some? && r.value.buffer == PutScalars(c, elems, i, n, out).value.buffer
    decreases n - i
  {
    if i < n {
      var v := ElementOr(elems, i, Missing(c));
      PutScalarsStep(c, elems, i, n, out);
      var next := PutScalar(c, true, v, out).value;
      ScalarIgnoresAlign(c, true, v, out, next, a);
      PutScalarsCons(c, elems, i, n, out.(align := a), next.(align := Max(a, ScalarSize(c))));
      ScalarsIgnoreAlign(c, elems, i + 1, n, next, Max(a, ScalarSize(c)));
    }
  }

  /** The accumulated alignment has no influence on the bytes of a member. */
  lemma FieldIgnoresAlign(f: Field, v: Value, out: Out, a: Alignment)
    requires PutField(f, v, out).Some?
    ensures var r := PutField(f, v, out.(align := a));
      r.Some? && r.value.buffer == PutField(f, v, out).value.buffer
  {
    match f
    case Scalar(_, _) =>
    case Scalars(c, n) => ScalarsIgnoreAlign(c, v.elems, 0, n, out, a);
    case Nested(t, annotated) =>
      PutNested(t, annotated, v, out);
      assert Lead(t, out) == Lead(t, out.(align := a));
    case NestedArray(t, n) =>
      PutNestedArray(t, n, v, out);
      var lead := Skip(out, Pad(out.offset, StructAlign(t)));
      StructsIgnoreAlign(t, v.elems, 0, n, lead, a);
  }

  lemma {:induction false} StructsIgnoreAlign(t: StructType, elems: seq<Value>, i: nat, n: nat, out: Out, a: Alignment)
    requires i <= n && PutStructs(t, elems, i, n, out).Some?
    ensures var r := PutStructs(t, elems, i, n, out.(align := a));
      r.Some? && r.value.buffer == PutStructs(t, elems, i, n, out).value.buffer
  {
    if i < n {
      assert Lead(t, out) == Lead(t, out.(align := a));
      PutStructsStep(t, elems, i, n, out);
    }
  }

  // ---- Exactly when the layout is C's ---------------------------------------------------------------

  /** From whatever offset, an instance is placed at the next multiple of its C alignment,
      takes its C size, and reports its C alignment. */
  ghost predicate LaidOutAsC(t: StructType) { forall o: nat :: PlacedAsC(t, o) }

  ghost predicate PlacedAsC(t: StructType, o: nat) {
    EndOfStruct(t, o) == Pos(RoundUp(o, CStructAlign(t)) + CStructSize(t), CStructAlign(t))
  }

  /** The same of t and of every struct type met inside it. */
  ghost predicate AllLaidOutAsC(t: StructType)
    decreases t, 0
  {
    LaidOutAsC(t) && forall i | 0 <= i < |t.fields| :: MemberLaidOutAsC(t.fields[i])
  }

  ghost predicate MemberLaidOutAsC(f: Field)
    decreases f, 1
  {
    match f
    case Nested(t, _) => AllLaidOutAsC(t)
    case NestedArray(t, _) => AllLaidOutAsC(t)
    case _ => true
  }

  lemma PastMultiple(x: nat, y: nat, a: Alignment)
    requires IsMultiple(y, a) && 0 < x < a
    ensures !IsMultiple(x + y, a)
  {
    var k := HasFactor(y, a);
    DivisionIsUnique(x + y, a, k, x);
    MultipleIsDivisible(x + y, a);
  }

  lemma AlignedToItself(a: Alignment)
    ensures IsMultiple(a, a) && RoundUp(a, a) == a
  {
    assert Times(1, a) == a + Times(0, a);
    TimesIsMultiple(1, a);
    MultipleStays(a, a);
  }

  /** A struct that is laid out as in C starts at its static alignment, were it there. */
  lemma LaidOutIsSeen(t: StructType)
    requires LaidOutAsC(t)
    ensures StrictestIsSeen(t)
  {
    var a, c := StructAlign(t), CStructAlign(t);
    FieldsNeverExceedC(t.fields);
    StaticAlignIffSeen(t);
    if a < c {
      EndsPastStart(t, a);
      EndsAligned(t, a);
      StartIsOff(a, EndOfFields(t.fields, Pos(a, a)).offset - a, c);
    }
  }

  lemma StartIsOff(a: nat, length: nat, c: Alignment)
    requires 0 < a < c
    ensures !IsMultiple(a + RoundUp(length, c), c)
  {
    RoundUpIsAligned(length, c);
    PastMultiple(a, RoundUp(length, c), c);
  }

  lemma EndsPastStart(t: StructType, a: Alignment)
    requires a == StructAlign(t)
    ensures var body := EndOfFields(t.fields, Pos(a, a));
      EndOfStruct(t, a) == Pos(a + RoundUp(body.offset - a, body.align), body.align)
  {
    AlignedToItself(a);
  }

  lemma EndsAligned(t: StructType, o: nat)
    requires LaidOutAsC(t)
    ensures EndOfStruct(t, o).align == CStructAlign(t) && IsMultiple(EndOfStruct(t, o).offset, CStructAlign(t))
  {
    assert PlacedAsC(t, o);
    RoundedSum(o, CFieldsEnd(t.fields, 0), CStructAlign(t));
  }

  lemma RoundedSum(x: nat, y: nat, a: Alignment)
    ensures IsMultiple(RoundUp(x, a) + RoundUp(y, a), a)
  {
    RoundUpIsAligned(x, a);
    RoundUpIsAligned(y, a);
    MultiplesAdd(RoundUp(x, a), RoundUp(y, a), a);
  }

  lemma {:induction false} HonestIsLaidOut(t: StructType)
    requires WellFormed(t) && HonestStruct(t)
    ensures AllLaidOutAsC(t)
    decreases t
  {
    forall o: nat
      ensures PlacedAsC(t, o)
    {
      StructLaidOut(t, o);
    }
    forall i | 0 <= i < |t.fields|
      ensures MemberLaidOutAsC(t.fields[i])
    {
      assert WellFormedField(t.fields[i]) && Honest(t.fields[i]);
      match t.fields[i]
      case Nested(inner, _) => HonestIsLaidOut(inner);
      case NestedArray(inner, _) => HonestIsLaidOut(inner);
      case _ =>
    }
  }

  lemma {:induction false} LaidOutIsHonest(t: StructType)
    requires AllLaidOutAsC(t)
    ensures HonestStruct(t)
    decreases t
  {
    LaidOutIsSeen(t);
    forall i | 0 <= i < |t.fields|
      ensures Honest(t.fields[i])
    {
      assert MemberLaidOutAsC(t.fields[i]);
      match t.fields[i]
      case Nested(inner, _) => LaidOutIsHonest(inner);
      case NestedArray(inner, _) => LaidOutIsHonest(inner);
      case _ =>
    }
  }

  /** A struct type and all inside it are laid out as in C, wherever they start, exactly when
      each of them has a strictest member that the static alignment looks into. */
  lemma LayoutIffHonest(t: StructType)
    requires WellFormed(t)
    ensures AllLaidOutAsC(t) <==> HonestStruct(t)
  {
    if HonestStruct(t) {
      HonestIsLaidOut(t);
    }
    if AllLaidOutAsC(t) {
      LaidOutIsHonest(t);
    }
  }

  // ---- A struct with another size than in C ----------------------------------------------------------

  lemma NoPadding(offset: nat, a: Alignment)
    requires a == 1
    ensures RoundUp(offset, a) == offset
  {
    RoundUpIsLeast(offset, a, offset);
  }

  lemma OneField(fields: seq<Field>, p: Pos)
    requires |fields| == 1
    ensures EndOfFields(fields, p) == EndOf(fields[0], p)
    ensures CFieldsEnd(fields, p.offset) == RoundUp(p.offset, CAlign(fields[0])) + CSize(fields[0])
    ensures CFieldsAlign(fields) == CAlign(fields[0]) && FieldsAlign(fields) == PropertyAlign(fields[0])
  {
    assert fields[1..] == [];
  }

  lemma TwoFields(fields: seq<Field>, p: Pos)
    requires |fields| == 2
    ensures EndOfFields(fields, p) == EndOf(fields[1], EndOf(fields[0], p))
    ensures var next := RoundUp(p.offset, CAlign(fields[0])) + CSize(fields[0]);
      CFieldsEnd(fields, p.offset) == RoundUp(next, CAlign(fields[1])) + CSize(fields[1])
    ensures CFieldsAlign(fields) == Max(CAlign(fields[0]), CAlign(fields[1]))
  {
    OneField(fields[1..], EndOf(fields[0], p));
    OneField(fields[1..], Pos(RoundUp(p.offset, CAlign(fields[0])) + CSize(fields[0]), 1));
  }

  lemma ArrayOfOne(f: Field, p: Pos)
    requires f.NestedArray? && f.count == 1
    ensures CSize(f) == CStructSize(f.t)
    ensures EndOf(f, p)
      == Pos(EndOfStruct(f.t, RoundUp(p.offset, StructAlign(f.t))).offset, Max(p.align, StructAlign(f.t)))
  {
    SpanStep(f.count, CStructSize(f.t));
    EndOfStructsStep(f.t, f.count, RoundUp(p.offset, StructAlign(f.t)));
  }

  lemma OneFieldWritten(fields: seq<Field>, v: Value, out: Out)
    requires |fields| == 1 && PutField(fields[0], v, out).Some?
    ensures PutFields(fields, [v], out) == PutField(fields[0], v, out)
  {
    assert fields[1..] == [] && [v][1..] == [];
  }

  lemma StructOfOne(t: StructType, v: Value, out: Out)
    requires |t.fields| == 1 && PutField(t.fields[0], v, Lead(t, out)).Some?
    ensures PutStruct(t, [v], out).Some?
  {
    OneFieldWritten(t.fields, v, Lead(t, out));
  }

  predicate HoldsScalar(inner: StructType, size: Alignment) {
    |inner.fields| == 1 && inner.fields[0].Scalar? && inner.fields[0].annotated && ScalarSize(inner.fields[0].c) == size
  }

  /** The one member of middle is an inner struct without annotation. */
  predicate HidesScalar(middle: StructType, inner: StructType, size: Alignment) {
    HoldsScalar(inner, size)
    && |middle.fields| == 1 && middle.fields[0].Nested? && middle.fields[0].t == inner && !middle.fields[0].annotated
  }

  /** Some bytes, fewer than the hidden scalar has, then an array of one middle struct. */
  predicate HidesBehindBytes(t: StructType, middle: StructType, inner: StructType, size: Alignment) {
    HidesScalar(middle, inner, size)
    && |t.fields| == 2 && t.fields[0].Scalars? && t.fields[0].c.CUInt8? && 0 < t.fields[0].count < size
    && t.fields[1].NestedArray? && t.fields[1].t == middle && t.fields[1].count == 1
  }

  lemma ScalarInside(inner: StructType, size: Alignment, at: nat)
    requires HoldsScalar(inner, size)
    ensures CStructAlign(inner) == StructAlign(inner) == size && CStructSize(inner) == size
    ensures EndOfStruct(inner, at) == Pos(RoundUp(at, size) + size, size)
  {
    OneField(inner.fields, Pos(0, 1));
    assert FieldIsSeen(inner.fields[0]) && CAlign(inner.fields[0]) == CStructAlign(inner);
    StructLaidOut(inner, at);
    StaticAlignIffSeen(inner);
    AlignedToItself(size);
    TimesIsMultiple(0, size);
    RoundsTo(0, size, 0);
  }

  lemma ScalarHidden(middle: StructType, inner: StructType, size: Alignment, base: nat, at: nat)
    requires HidesScalar(middle, inner, size) && IsMultiple(base, size) && base < at < base + size
    ensures StructAlign(middle) == 1 && CStructAlign(middle) == size && CStructSize(middle) == size
    ensures EndOfStruct(middle, at) == Pos(at + 2 * size, size)
  {
    ScalarInside(inner, size, at);
    OneField(middle.fields, Pos(at, 1));
    OneField(middle.fields, Pos(0, 1));
    NoPadding(at, StructAlign(middle));
    TimesIsMultiple(0, size);
    AlignedToItself(size);
    MultiplesAdd(base, size, size);
    MultiplesAdd(size, size, size);
    RoundsTo(0, size, 0);
    RoundsTo(at, size, base + size);
    RoundsTo(base + 2 * size - at, size, 2 * size);
    assert EndOf(middle.fields[0], Pos(at, 1)) == Pos(base + 2 * size, Max(1, size));
  }

  lemma {:induction false} SpanOfBytes(n: nat)
    ensures Span(n, 1) == n
  {
    if n > 0 {
      SpanOfBytes(n - 1);
    }
  }

  lemma BytesEnd(bytes: Field, start: Pos)
    requires bytes.Scalars? && bytes.c.CUInt8? && bytes.count > 0 && start.align == 1
    ensures EndOf(bytes, start) == Pos(start.offset + bytes.count, 1)
    ensures RoundUp(start.offset, CAlign(bytes)) + CSize(bytes) == start.offset + bytes.count && CAlign(bytes) == 1
  {
    FieldLaidOut(bytes, start);
    SpanOfBytes(bytes.count);
    NoPadding(start.offset, CAlign(bytes));
  }

  lemma StructsEnd(structs: Field, inner: StructType, size: Alignment, base: nat, at: Pos)
    requires structs.NestedArray? && structs.count == 1 && HidesScalar(structs.t, inner, size)
    requires IsMultiple(base, size) && base < at.offset < base + size && at.align == 1
    ensures EndOf(structs, at) == Pos(at.offset + 2 * size, 1)
    ensures RoundUp(at.offset, CAlign(structs)) + CSize(structs) == base + 2 * size && CAlign(structs) == size
  {
    ScalarHidden(structs.t, inner, size, base, at.offset);
    NoPadding(at.offset, StructAlign(structs.t));
    ArrayOfOne(structs, at);
    AlignedToItself(size);
    MultiplesAdd(base, size, size);
    RoundsTo(at.offset, size, base + size);
  }

  lemma HiddenEnds(t: StructType, middle: StructType, inner: StructType, size: Alignment, start: Pos)
    requires HidesBehindBytes(t, middle, inner, size) && IsMultiple(start.offset, size) && start.align == 1
    ensures EndOfFields(t.fields, start) == Pos(start.offset + t.fields[0].count + 2 * size, 1)
    ensures CFieldsEnd(t.fields, start.offset) == start.offset + 2 * size && CStructAlign(t) == size
  {
    BytesEnd(t.fields[0], start);
    StructsEnd(t.fields[1], inner, size, start.offset, Pos(start.offset + t.fields[0].count, 1));
    TwoFields(t.fields, start);
  }

  lemma HiddenSizes(t: StructType, middle: StructType, inner: StructType, size: Alignment)
    requires HidesBehindBytes(t, middle, inner, size)
    ensures SizeOf(t) == t.fields[0].count + 2 * size && CStructSize(t) == 2 * size
  {
    TimesIsMultiple(0, size);
    HiddenEnds(t, middle, inner, size, Pos(0, 1));
    NoPadding(t.fields[0].count + 2 * size, 1);
    AlignedToItself(size);
    MultiplesAdd(size, size, size);
    MultipleStays(2 * size, size);
  }

  lemma OneElement(t: StructType, elems: seq<Value>, out: Out)
    requires |elems| == 1 && elems[0].InstanceV? && elems[0].t == t && PutStruct(t, elems[0].members, out).Some?
    ensures PutStructs(t, elems, 0, |elems|, out).Some?
  {
    var next := PutStruct(t, elems[0].members, out).value;
    assert PutStructs(t, elems, |elems|, |elems|, next) == Some(next);
  }

  lemma {:induction false} MissingAreWritten(c: CType, i: nat, n: nat, out: Out)
    requires i <= n
    ensures PutScalars(c, [], i, n, out).Some?
    decreases n - i
  {
    if i < n {
      BitsFit(c, true, Missing(c));
      MissingAreWritten(c, i + 1, n, PutScalar(c, true, Missing(c), out).value);
    }
  }

  lemma TwoFieldsWritten(fields: seq<Field>, v: Value, w: Value, out: Out)
    requires |fields| == 2 && PutField(fields[0], v, out).Some?
    requires PutField(fields[1], w, PutField(fields[0], v, out).value).Some?
    ensures PutFields(fields, [v, w], out).Some?
  {
    assert [v, w][1..] == [w];
    OneFieldWritten(fields[1..], w, PutField(fields[0], v, out).value);
  }

  lemma InnerWritten(inner: StructType, size: Alignment, v: Value, out: Out)
    requires HoldsScalar(inner, size) && ToBits(inner.fields[0].c, true, v).Some?
    ensures PutStruct(inner, [v], out).Some?
  {
    StructOfOne(inner, v, out);
  }

  lemma MiddleWritten(middle: StructType, inner: StructType, size: Alignment, v: Value, out: Out)
    requires HidesScalar(middle, inner, size) && ToBits(inner.fields[0].c, true, v).Some?
    ensures PutStruct(middle, [InstanceV(inner, [v])], out).Some?
  {
    InnerWritten(inner, size, v, Lead(middle, out));
    StructOfOne(middle, InstanceV(inner, [v]), out);
  }

  lemma StructsWritten(structs: Field, inner: StructType, size: Alignment, v: Value, out: Out)
    requires structs.NestedArray? && structs.count == 1 && HidesScalar(structs.t, inner, size)
    requires ToBits(inner.fields[0].c, true, v).Some?
    ensures PutField(structs, ListV([InstanceV(structs.t, [InstanceV(inner, [v])])]), out).Some?
  {
    var lead := Skip(out, Pad(out.offset, StructAlign(structs.t)));
    MiddleWritten(structs.t, inner, size, v, lead);
    OneElement(structs.t, [InstanceV(structs.t, [InstanceV(inner, [v])])], lead);
  }

  /** Such instances can be written: one with no byte given and v for the scalar. */
  lemma HiddenIsWritten(t: StructType, middle: StructType, inner: StructType, size: Alignment, v: Value)
    requires HidesBehindBytes(t, middle, inner, size) && ToBits(inner.fields[0].c, true, v).Some?
    ensures PutObject(t, [ListV([]), ListV([InstanceV(middle, [InstanceV(inner, [v])])])]).Some?
  {
    var start := Out([], 0, 1);
    MissingAreWritten(t.fields[0].c, 0, t.fields[0].count, start);
    StructsWritten(t.fields[1], inner, size, v, PutField(t.fields[0], ListV([]), start).value);
    TwoFieldsWritten(t.fields, ListV([]), ListV([InstanceV(middle, [InstanceV(inner, [v])])]), start);
  }

  /** A struct hidden two levels down starts where C does not put it: behind fewer bytes than
      its scalar has, it is written without the padding before it, and as many bytes too
      long. */
  lemma HiddenStructHasAnotherSize(t: StructType, middle: StructType, inner: StructType, size: Alignment,
                                   members: seq<Value>)
    requires HidesBehindBytes(t, middle, inner, size) && PutObject(t, members).Some?
    ensures |PutObject(t, members).value| == CStructSize(t) + t.fields[0].count
    ensures CStructSize(t) == 2 * size
  {
    HiddenSizes(t, middle, inner, size);
    SizeIsTheTypes(t, members);
  }
}
