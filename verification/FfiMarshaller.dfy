/** The writers and readers as the code runs them: a buffer that grows, and an offset and an
    alignment that are updated member by member. */
module FfiMarshaller {
  import opened Utils
  import opened FfiLayout
  import opened FfiMarshal
  import opened FfiRoundTrip

  /** The buffer and offset that all writers of one conversion share. */
  class Writer {
    var buffer: seq<Byte>
    var offset: nat

    constructor ()
      ensures buffer == [] && offset == 0
    {
      buffer, offset := [], 0;
    }

    ghost function State(align: Alignment): Out
      reads this
    {
      Out(buffer, offset, align)
    }

    method Advance(base: nat, a: Alignment)
      requires base <= offset
      modifies this
      ensures State(1) == Skip(old(State(1)), Pad(old(offset) - base, a))
    {
      PadIsFormula(offset - base, a);
      var padding := (a - (offset - base) % a) % a;
      buffer := buffer + Zeros(padding);
      offset := offset + padding;
    }

    method Append(data: seq<Byte>, a: Alignment, align: Alignment) returns (align': Alignment)
      modifies this
      ensures State(align') == AppendPadded(old(State(align)), data, a)
    {
      Advance(0, a);
      buffer := buffer + data;
      offset := offset + |data|;
      align' := Max(align, a);
    }

    method WriteScalar(c: CType, annotated: bool, v: Value, align: Alignment) returns (ok: bool, align': Alignment)
      modifies this
      ensures var r := PutScalar(c, annotated, v, old(State(align)));
        if ok then r == Some(State(align')) else r == None
    {
      var bits := ToBits(c, annotated, v);
      if bits.None? {
        return false, align;
      }
      align' := Append(Le(bits.value, ScalarSize(c)), ScalarSize(c), align);
      ok := true;
    }

    /** An array of scalars; the list may be short but not long. */
    method WriteScalars(c: CType, elems: seq<Value>, n: nat, align: Alignment) returns (ok: bool, align': Alignment)
      modifies this
      ensures var r := PutScalars(c, elems, 0, n, old(State(align)));
        if ok then r == Some(State(align')) else r == None
    {
      align' := align;
      var i := 0;
      while i < n
        invariant i <= n
        invariant PutScalars(c, elems, i, n, State(align')) == PutScalars(c, elems, 0, n, old(State(align)))
      {
        ghost var before := State(align');
        ok, align' := WriteScalar(c, true, ElementOr(elems, i, Missing(c)), align');
        if !ok {
          return;
        }
        i := i + 1;
      }
      ok := true;
    }

    method WriteField(f: Field, v: Value, align: Alignment) returns (ok: bool, align': Alignment)
      modifies this
      ensures var r := PutField(f, v, old(State(align)));
        if ok then r == Some(State(align')) else r == None
      decreases f, 5
    {
      align' := align;
      match f
      case Scalar(c, annotated) =>
        ok, align' := WriteScalar(c, annotated, v, align);
      case Scalars(c, n) =>
        if !v.ListV? || |v.elems| > n {
          return false, align;
        }
        ok, align' := WriteScalars(c, v.elems, n, align);
      case Nested(t, _) =>
        if !v.InstanceV? || v.t != t {
          return false, align;
        }
        var inner: Alignment;
        StructIgnoresAlign(t, v.members, State(1), align);
        ok, inner := WriteStruct(t, v.members);
        align' := Max(align, inner);
      case NestedArray(t, n) =>
        if !v.ListV? || |v.elems| > n {
          return false, align;
        }
        var elemAlign := ComputeStructAlign(t);
        ghost var start := State(align);
        Advance(0, elemAlign);
        assert State(align) == Skip(start, Pad(start.offset, StructAlign(t)));
        ok := WriteStructs(t, v.elems, n, align);
        align' := Max(align, elemAlign);
    }

    method WriteStruct(t: StructType, members: seq<Value>) returns (ok: bool, align': Alignment)
      modifies this
      ensures var r := PutStruct(t, members, old(State(1)));
        if ok then r == Some(State(align')) else r == None
      decreases t, 3
    {
      align' := ComputeStructAlign(t);
      Advance(0, align');
      var start := offset;
      assert State(align') == Lead(t, old(State(1)));
      ok, align' := WriteFields(t.fields, members, align');
      if ok {
        Advance(start, align');
      }
    }

    method WriteFields(fields: seq<Field>, members: seq<Value>, align: Alignment)
      returns (ok: bool, align': Alignment)
      modifies this
      ensures var r := PutFields(fields, members, old(State(align)));
        if ok then r == Some(State(align')) && offset >= old(offset) else r == None
      decreases fields, 2
    {
      align' := align;
      var i := 0;
      while i < |fields|
        invariant i <= |fields| && (i <= |members| || i == 0)
        invariant offset >= old(offset)
        invariant PutFields(fields[i..], if i <= |members| then members[i..] else [], State(align'))
          == PutFields(fields, members, old(State(align)))
      {
        if i >= |members| {
          return false, align;
        }
        assert fields[i..][1..] == fields[i + 1..] && members[i..][1..] == members[i + 1..];
        ok, align' := WriteField(fields[i], members[i], align');
        if !ok {
          return;
        }
        i := i + 1;
      }
      ok := true;
    }

    method WriteStructs(t: StructType, elems: seq<Value>, n: nat, ghost align: Alignment) returns (ok: bool)
      modifies this
      ensures var r := PutStructs(t, elems, 0, n, old(State(align)));
        if ok then r.Some? && r.value.buffer == buffer && r.value.offset == offset else r == None
      decreases t, 4
    {
      ghost var a := align;
      var i := 0;
      while i < n
        invariant i <= n
        invariant PutStructs(t, elems, i, n, State(a)) == PutStructs(t, elems, 0, n, old(State(align)))
      {
        var elem := ElementOr(elems, i, NilV);
        if !elem.NilV? && !(elem.InstanceV? && elem.t == t) {
          return false;
        }
        StructIgnoresAlign(t, if elem.NilV? then t.initial else elem.members, State(1), a);
        var align': Alignment;
        ok, align' := WriteStruct(t, if elem.NilV? then t.initial else elem.members);
        a := align';
        if !ok {
          return;
        }
        i := i + 1;
      }
      ok := true;
    }
  }

  lemma StructIgnoresAlign(t: StructType, members: seq<Value>, out: Out, a: Alignment)
    ensures PutStruct(t, members, out.(align := a)) == PutStruct(t, members, out)
  {
    assert Lead(t, out) == Lead(t, out.(align := a));
  }

  method ObjectToCStruct(t: StructType, members: seq<Value>) returns (bytes: Option<seq<Byte>>)
    ensures bytes == PutObject(t, members)
  {
    var w := new Writer();
    var ok, align := w.WriteFields(t.fields, members, 1);
    if !ok {
      return None;
    }
    var padding := Padding(|w.buffer|, align);
    bytes := Some(w.buffer + Zeros(padding));
  }

  method Padding(offset: nat, a: Alignment) returns (padding: nat)
    ensures padding == Pad(offset, a)
  {
    PadIsFormula(offset, a);
    padding := (a - offset % a) % a;
  }
}
