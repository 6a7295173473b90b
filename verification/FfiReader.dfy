/** The readers as the code runs them: an offset and an alignment moved along a buffer. */
module FfiReader {
  import opened Utils
  import opened FfiLayout
  import opened FfiMarshal
  import opened FfiRoundTrip

  class Reader {
    const bytes: seq<Byte>
    var offset: nat

    constructor (bytes: seq<Byte>)
      ensures this.bytes == bytes && offset == 0
    {
      this.bytes := bytes;
      offset := 0;
    }

    /** What a reader that was given the outcome r now stands at. */
    ghost predicate At<T(!new)>(r: Option<In<T>>, ok: bool, value: T, align: Alignment)
      reads this
    {
      if ok then r == Some(In(value, offset, align)) else r == None
    }

    /** Skips the padding to the next multiple of a from base, unless that leaves the buffer. */
    method Advance(base: nat, a: Alignment) returns (ok: bool)
      requires base <= offset
      modifies this
      ensures ok <==> old(offset) + Pad(old(offset) - base, a) <= |bytes|
      ensures offset == if ok then old(offset) + Pad(old(offset) - base, a) else old(offset)
    {
      PadIsFormula(offset - base, a);
      var padding := (a - (offset - base) % a) % a;
      ok := offset + padding <= |bytes|;
      if ok {
        offset := offset + padding;
      }
    }

    method ReadScalar(c: CType, align: Alignment) returns (ok: bool, value: Value, align': Alignment)
      modifies this
      ensures At(GetScalar(c, bytes, old(offset), align), ok, value, align')
    {
      var size := ScalarSize(c);
      PadIsFormula(offset, size);
      var padding := (size - offset % size) % size;
      value, align' := NilV, align;
      if offset + padding + size > |bytes| {
        return false, value, align;
      }
      offset := offset + padding;
      var data := bytes[offset..offset + size];
      UnLeFits(data);
      ModulusIsLimit(c);
      var v := FromBits(c, UnLe(data));
      offset := offset + size;
      if v.None? {
        return false, value, align;
      }
      ok, value, align' := true, v.value, Max(align, size);
    }

    method ReadScalars(c: CType, n: nat, align: Alignment)
      returns (ok: bool, values: seq<Value>, align': Alignment)
      modifies this
      ensures At(GetScalars(c, n, bytes, old(offset), align), ok, values, align')
    {
      values, align' := [], align;
      var i := 0;
      NothingPrefixed(GetScalars(c, n, bytes, offset, align));
      while i < n
        invariant i <= n
        invariant GetScalars(c, n, bytes, old(offset), align)
          == Prefixed(values, GetScalars(c, n - i, bytes, offset, align'))
      {
        var value: Value;
        OneMoreScalar(values, c, n - i, bytes, offset, align');
        ok, value, align' := ReadScalar(c, align');
        if !ok {
          return;
        }
        values := values + [value];
        i := i + 1;
      }
      assert values + [] == values;
      ok := true;
    }

    method ReadField(f: Field, align: Alignment) returns (ok: bool, value: Value, align': Alignment)
      modifies this
      ensures At(GetField(f, bytes, old(offset), align), ok, value, align')
      decreases f, 5
    {
      value, align' := NilV, align;
      match f
      case Scalar(c, _) =>
        ok, value, align' := ReadScalar(c, align);
      case Scalars(c, n) =>
        var values;
        ok, values, align' := ReadScalars(c, n, align);
        value := ListV(values);
      case Nested(t, _) =>
        var inner: Alignment;
        ok, value, inner := ReadStruct(t);
        align' := Max(align, inner);
      case NestedArray(t, n) =>
        var elemAlign := ComputeStructAlign(t);
        ok := Advance(0, elemAlign);
        if !ok {
          return;
        }
        var values;
        ok, values := ReadStructs(t, n);
        value := ListV(values);
        align' := Max(align, elemAlign);
    }

    method ReadStruct(t: StructType) returns (ok: bool, value: Value, align': Alignment)
      modifies this
      ensures At(GetStruct(t, bytes, old(offset)), ok, value, align')
      decreases t, 3
    {
      value := NilV;
      align' := ComputeStructAlign(t);
      GetStructStep(t, bytes, offset);
      ok := Advance(0, align');
      if !ok {
        return;
      }
      var start := offset;
      var members;
      ok, members, align' := ReadFields(t.fields, align');
      if !ok {
        return;
      }
      ok := Advance(start, align');
      value := InstanceV(t, members);
    }

    method ReadFields(fields: seq<Field>, align: Alignment)
      returns (ok: bool, values: seq<Value>, align': Alignment)
      modifies this
      ensures At(GetFields(fields, bytes, old(offset), align), ok, values, align')
      ensures ok ==> offset >= old(offset)
      decreases fields, 2
    {
      values, align' := [], align;
      var i := 0;
      assert fields[0..] == fields;
      NothingPrefixed(GetFields(fields, bytes, offset, align));
      while i < |fields|
        invariant i <= |fields| && offset >= old(offset)
        invariant GetFields(fields, bytes, old(offset), align)
          == Prefixed(values, GetFields(fields[i..], bytes, offset, align'))
      {
        var value: Value;
        assert fields[i..][1..] == fields[i + 1..];
        ok, value, align' := ReadField(fields[i], align');
        if !ok {
          return;
        }
        PrefixedTwice(values, value, GetFields(fields[i + 1..], bytes, offset, align'));
        values := values + [value];
        i := i + 1;
      }
      assert values + [] == values;
      ok := true;
    }

    method ReadStructs(t: StructType, n: nat) returns (ok: bool, values: seq<Value>)
      modifies this
      ensures At(GetStructs(t, n, bytes, old(offset)), ok, values, 1)
      decreases t, 4
    {
      values := [];
      var i := 0;
      NothingPrefixed(GetStructs(t, n, bytes, offset));
      while i < n
        invariant i <= n
        invariant GetStructs(t, n, bytes, old(offset)) == Prefixed(values, GetStructs(t, n - i, bytes, offset))
      {
        var value: Value;
        var used: Alignment;
        ok, value, used := ReadStruct(t);
        if !ok {
          return;
        }
        PrefixedTwice(values, value, GetStructs(t, n - i - 1, bytes, offset));
        values := values + [value];
        i := i + 1;
      }
      assert values + [] == values;
      ok := true;
    }
  }

  /** An outcome with values that were read before put in front. */
  function Prefixed(values: seq<Value>, r: Option<In<seq<Value>>>): Option<In<seq<Value>>> {
    if r.None? then None else Some(r.value.(value := values + r.value.value))
  }

  lemma NothingPrefixed(r: Option<In<seq<Value>>>)
    ensures Prefixed([], r) == r
  {
    if r.Some? {
      assert [] + r.value.value == r.value.value;
    }
  }

  lemma PrefixedTwice(values: seq<Value>, v: Value, r: Option<In<seq<Value>>>)
    ensures Prefixed(values, Prefixed([v], r)) == Prefixed(values + [v], r)
  {
    if r.Some? {
      assert values + ([v] + r.value.value) == values + [v] + r.value.value;
    }
  }

  /** The first of the scalars still to be read joins those that have been. */
  lemma OneMoreScalar(values: seq<Value>, c: CType, n: nat, bytes: seq<Byte>, offset: nat, align: Alignment)
    requires n > 0
    ensures Prefixed(values, GetScalars(c, n, bytes, offset, align)) ==
      match GetScalar(c, bytes, offset, align)
      case None => None
      case Some(first) => Prefixed(values + [first.value], GetScalars(c, n - 1, bytes, first.offset, first.align))
  {
    if GetScalar(c, bytes, offset, align).Some? {
      var first := GetScalar(c, bytes, offset, align).value;
      PrefixedTwice(values, first.value, GetScalars(c, n - 1, bytes, first.offset, first.align));
    }
  }

  method ObjectFromCStruct(t: StructType, bytes: seq<Byte>) returns (members: Option<seq<Value>>)
    ensures members == GetObject(t, bytes)
  {
    var r := new Reader(bytes);
    var ok, values, align := r.ReadFields(t.fields, 1);
    if !ok {
      return None;
    }
    ok := r.Advance(0, align);
    members := if ok then Some(values) else None;
  }
}
