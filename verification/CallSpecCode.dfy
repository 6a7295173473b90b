/** The bytes a call's shape is stored in. */
module CallSpecCode {
  import opened Utils
  import opened WireBytes
  import opened CallBinding

  function ArgBytes(arg: ArgSpec): (b: Bytes)
    ensures |b| == if arg.positional then 1 else 2
  {
    if arg.positional then [0] else [0x80 + Name15(arg.hash) / 0x100, arg.hash % 0x100]
  }

  function ArgsBytes(args: seq<ArgSpec>, k: nat): Bytes
    requires k <= |args|
    decreases |args| - k
  {
    if k == |args| then [] else ArgBytes(args[k]) + ArgsBytes(args, k + 1)
  }

  /** None is the exception for too many arguments. */
  function ToBytes(spec: CallSpec): Option<Bytes> {
    if spec.allPositional then
      if spec.argCount > 127 then None else Some([spec.argCount])
    else Some([0x80 + spec.argCount % 0x80] + ArgsBytes(spec.args, 0))
  }

  function TwoBytes(high: nat, low: nat): (h: nat)
    ensures high < 0x100 && low < 0x100 ==> h < 0x1_0000
  {
    high * 0x100 + low
  }

  function DecodeArgs(buf: Bytes, i: nat, n: nat): Option<Got<seq<ArgSpec>>>
    decreases n
  {
    if n == 0 then Some(Got([], i))
    else if i >= |buf| then None
    else if buf[i] == 0 then Cons(ArgSpec(true, 0), DecodeArgs(buf, i + 1, n - 1))
    else if i + 1 >= |buf| then None
    else Cons(ArgSpec(false, TwoBytes(buf[i], buf[i + 1])), DecodeArgs(buf, i + 2, n - 1))
  }

  function Cons(arg: ArgSpec, more: Option<Got<seq<ArgSpec>>>): Option<Got<seq<ArgSpec>>> {
    if more.None? then None else Some(Got([arg] + more.value.value, more.value.next))
  }

  /** None stands for reading past the end. */
  function Decode(buf: Bytes, i: nat): Option<Got<CallSpec>> {
    if i >= |buf| then None
    else if buf[i] < 0x80 then Some(Got(CallSpec(true, buf[i], []), i + 1))
    else match DecodeArgs(buf, i + 1, buf[i] - 0x80)
      case None => None
      case Some(r) => Some(Got(CallSpec(false, buf[i] - 0x80, r.value), r.next))
  }

  method EncodeSpec(spec: CallSpec) returns (r: Option<Bytes>)
    ensures r == ToBytes(spec)
    ensures r.None? <==> spec.allPositional && spec.argCount > 127
  {
    if spec.allPositional {
      return if spec.argCount > 127 then None else Some([spec.argCount]);
    }
    var bytes := [0x80 + spec.argCount % 0x80];
    var k := 0;
    while k < |spec.args|
      invariant k <= |spec.args| && bytes + ArgsBytes(spec.args, k) == ToBytes(spec).value
    {
      assert bytes + (ArgBytes(spec.args[k]) + ArgsBytes(spec.args, k + 1))
        == bytes + ArgBytes(spec.args[k]) + ArgsBytes(spec.args, k + 1);
      bytes := bytes + ArgBytes(spec.args[k]);
      k := k + 1;
    }
    assert bytes + [] == bytes;
    r := Some(bytes);
  }

  method DecodeSpec(buf: Bytes, start: nat) returns (r: Option<Got<CallSpec>>)
    ensures r == Decode(buf, start)
  {
    if start >= |buf| {
      return None;
    }
    var count := buf[start] % 0x80;
    var i := start + 1;
    if buf[start] < 0x80 {
      return Some(Got(CallSpec(true, count, []), i));
    }
    var args: seq<ArgSpec> := [];
    var n := count;
    NothingBefore(DecodeArgs(buf, i, count));
    while n > 0
      invariant DecodeArgs(buf, start + 1, count) == Behind(args, DecodeArgs(buf, i, n))
    {
      if i >= |buf| {
        return None;
      }
      var arg: ArgSpec;
      if buf[i] == 0 {
        arg := ArgSpec(true, 0);
        i := i + 1;
      } else {
        if i + 1 >= |buf| {
          return None;
        }
        arg := ArgSpec(false, TwoBytes(buf[i], buf[i + 1]));
        i := i + 2;
      }
      BehindOne(args, arg, DecodeArgs(buf, i, n - 1));
      args := args + [arg];
      n := n - 1;
    }
    assert args + [] == args;
    r := Some(Got(CallSpec(false, count, args), i));
  }

  function Behind(args: seq<ArgSpec>, more: Option<Got<seq<ArgSpec>>>): Option<Got<seq<ArgSpec>>> {
    if more.None? then None else Some(Got(args + more.value.value, more.value.next))
  }

  lemma NothingBefore(more: Option<Got<seq<ArgSpec>>>)
    ensures Behind([], more) == more
  {
    if more.Some? {
      assert [] + more.value.value == more.value.value;
    }
  }

  lemma BehindOne(args: seq<ArgSpec>, arg: ArgSpec, more: Option<Got<seq<ArgSpec>>>)
    ensures Behind(args, Cons(arg, more)) == Behind(args + [arg], more)
  {
    if more.Some? {
      assert args + ([arg] + more.value.value) == args + [arg] + more.value.value;
    }
  }

  // ---- Round trip ----------------------------------------------------------------------------------------------

  /** What comes back: names keep fifteen bits and gain a mark. */
  function Stored(arg: ArgSpec): ArgSpec {
    if arg.positional then ArgSpec(true, 0) else ArgSpec(false, 0x8000 + Name15(arg.hash))
  }

  function StoredFrom(args: seq<ArgSpec>, k: nat): (r: seq<ArgSpec>)
    requires k <= |args|
    ensures |r| == |args| - k
    decreases |args| - k
  {
    if k == |args| then [] else [Stored(args[k])] + StoredFrom(args, k + 1)
  }

  function StoredSpec(spec: CallSpec): CallSpec {
    if spec.allPositional then CallSpec(true, spec.argCount, [])
    else CallSpec(false, spec.argCount, StoredFrom(spec.args, 0))
  }

  lemma {:induction false} ArgsComeBack(buf: Bytes, i: nat, args: seq<ArgSpec>, k: nat)
    requires k <= |args| && At(buf, i, ArgsBytes(args, k))
    ensures DecodeArgs(buf, i, |args| - k) == Some(Got(StoredFrom(args, k), i + |ArgsBytes(args, k)|))
    decreases |args| - k
  {
    if k < |args| {
      var first := ArgBytes(args[k]);
      AtParts(buf, i, first, ArgsBytes(args, k + 1));
      ArgDecoded(buf, i, args[k], |args| - k);
      ArgsComeBack(buf, i + |first|, args, k + 1);
    }
  }

  lemma ArgDecoded(buf: Bytes, i: nat, arg: ArgSpec, n: nat)
    requires n > 0 && At(buf, i, ArgBytes(arg))
    ensures DecodeArgs(buf, i, n) == Cons(Stored(arg), DecodeArgs(buf, i + |ArgBytes(arg)|, n - 1))
  {
    var first := ArgBytes(arg);
    assert first[0] == buf[i];
    if !arg.positional {
      assert first[1..][0] == first[1] == buf[i + 1];
    }
  }

  predicate Sound(spec: CallSpec) {
    if spec.allPositional then spec.args == [] else spec.argCount == |spec.args|
  }

  /** Decoding what was encoded takes exactly those bytes, wherever they lie, and gives the
      shape back with its names stored: exactly when the call has at most 127 arguments. */
  lemma SpecComesBackIff(spec: CallSpec, buf: Bytes, i: nat)
    requires Sound(spec) && ToBytes(spec).Some? && At(buf, i, ToBytes(spec).value)
    ensures Decode(buf, i) == Some(Got(StoredSpec(spec), i + |ToBytes(spec).value|)) <==> spec.argCount <= 127
  {
    var bytes := ToBytes(spec).value;
    AtInside(buf, i, bytes);
    if !spec.allPositional {
      AtParts(buf, i, [0x80 + spec.argCount % 0x80], ArgsBytes(spec.args, 0));
      assert buf[i] == 0x80 + spec.argCount % 0x80;
      if spec.argCount <= 127 {
        ArgsComeBack(buf, i + 1, spec.args, 0);
      }
    }
  }

  /** The call that comes back binds the same arguments to the same parameters, or is refused
      for the same reason. */
  lemma StoredBindsTheSame(spec: CallSpec, callee: Callee, throwOnMissing: bool)
    requires Sound(spec)
    ensures Positions(StoredSpec(spec), callee, throwOnMissing) == Positions(spec, callee, throwOnMissing)
  {
    if !spec.allPositional && callee.Function? {
      BindsTheSame(spec.args, StoredFrom(spec.args, 0), callee.params);
    }
  }

  lemma {:induction false} StoredAt(args: seq<ArgSpec>, k: nat, j: nat)
    requires k <= j < |args|
    ensures StoredFrom(args, k)[j - k] == Stored(args[j])
    decreases j - k
  {
    if k < j {
      StoredAt(args, k + 1, j);
    }
  }

  /** Same kinds of arguments, with names of the same fifteen bits. */
  predicate Alike(args: seq<ArgSpec>, args': seq<ArgSpec>) {
    |args'| == |args| && forall a | 0 <= a < |args| :: AlikeAt(args, args', a)
  }

  predicate AlikeAt(args: seq<ArgSpec>, args': seq<ArgSpec>, a: nat)
    requires a < |args| == |args'|
  {
    args'[a].positional == args[a].positional && (!args[a].positional ==> Name15(args'[a].hash) == Name15(args[a].hash))
  }

  lemma BindsTheSame(args: seq<ArgSpec>, args': seq<ArgSpec>, params: seq<Option<Param>>)
    requires args' == StoredFrom(args, 0)
    ensures NamedBinding(args', params) == NamedBinding(args, params)
  {
    forall a | 0 <= a < |args|
      ensures AlikeAt(args, args', a)
    {
      StoredAt(args, 0, a);
    }
    AlikeBinds(args, args', params);
  }

  lemma AlikeBinds(args: seq<ArgSpec>, args': seq<ArgSpec>, params: seq<Option<Param>>)
    requires Alike(args, args')
    ensures NamedBinding(args', params) == NamedBinding(args, params)
  {
    forall a | 0 <= a < |args|
      ensures IsUnknown(args', params, a) <==> IsUnknown(args, params, a)
      ensures IsLate(args', a) <==> IsLate(args, a)
    {
      assert AlikeAt(args, args', a);
      if !args[a].positional {
        SameIndex(params, args'[a].hash, args[a].hash, 0);
      }
      AlikeLeading(args, args', 0);
    }
    AlikeLeading(args, args', 0);
    AlikeGap(args, args', params, 0);
    forall p | 0 <= p < |params|
      ensures Slot(args', params, p) == Slot(args, params, p)
    {
      AlikeNaming(args, args', params, p, |args|);
    }
    assert HasLate(args') == HasLate(args);
    var unknown := exists a :: 0 <= a < |args| && IsUnknown(args, params, a);
    assert unknown == exists a :: 0 <= a < |args'| && IsUnknown(args', params, a);
    if !unknown && NamedBinding(args, params).Ok? {
      assert NamedBinding(args', params).value == NamedBinding(args, params).value;
    }
  }

  lemma {:induction false} SameIndex(params: seq<Option<Param>>, g: Hash, h: Hash, i: nat)
    requires i <= |params| && Name15(g) == Name15(h)
    ensures ParamIndex(params, g, i) == ParamIndex(params, h, i)
    decreases |params| - i
  {
    if i < |params| {
      SameIndex(params, g, h, i + 1);
    }
  }

  lemma {:induction false} AlikeLeading(args: seq<ArgSpec>, args': seq<ArgSpec>, k: nat)
    requires k <= |args| && Alike(args, args')
    ensures Leading(args', k) == Leading(args, k)
    decreases |args| - k
  {
    if k < |args| {
      assert AlikeAt(args, args', k);
      AlikeLeading(args, args', k + 1);
    }
  }

  lemma {:induction false} AlikeNaming(args: seq<ArgSpec>, args': seq<ArgSpec>, params: seq<Option<Param>>, p: nat,
                                       n: nat)
    requires n <= |args| && Alike(args, args')
    ensures LastNaming(args', params, p, n) == LastNaming(args, params, p, n)
    decreases n
  {
    if n > 0 {
      assert AlikeAt(args, args', n - 1);
      if !args[n - 1].positional {
        SameIndex(params, args'[n - 1].hash, args[n - 1].hash, 0);
      }
      AlikeNaming(args, args', params, p, n - 1);
    }
  }

  lemma {:induction false} AlikeGap(args: seq<ArgSpec>, args': seq<ArgSpec>, params: seq<Option<Param>>, p: nat)
    requires p <= Regular(params) && Alike(args, args')
    ensures FirstGap(args', params, p) == FirstGap(args, params, p)
    decreases Regular(params) - p
  {
    if p < Regular(params) {
      AlikeNaming(args, args', params, p, |args|);
      AlikeGap(args, args', params, p + 1);
    }
  }

  /** f(1, 2, 3) is stored as the byte 3; f(1, b: 2), where b hashes to 0xd234, as a count of 2
      with the top bit set, a zero, and the hash with its top bit set. */
  lemma ShapesInBytes(positional: CallSpec, named: CallSpec)
    requires positional.allPositional && positional.argCount == 3
    requires !named.allPositional && named.argCount == 2 && |named.args| == 2
    requires named.args[0].positional && !named.args[1].positional && named.args[1].hash == 0xd234
    ensures ToBytes(positional) == Some([3])
    ensures ToBytes(named) == Some([0x82, 0, 0xd2, 0x34])
  {
    var args := named.args;
    assert ArgBytes(args[1]) == [0xd2, 0x34] && ArgBytes(args[0]) == [0];
    assert ArgsBytes(args, 2) == [];
    assert ArgsBytes(args, 1) == ArgBytes(args[1]) + ArgsBytes(args, 2) == [0xd2, 0x34];
    assert ArgsBytes(args, 0) == ArgBytes(args[0]) + ArgsBytes(args, 1) == [0, 0xd2, 0x34];
    assert 0x80 + named.argCount % 0x80 == 0x82;
    assert [0x82] + [0, 0xd2, 0x34] == [0x82, 0, 0xd2, 0x34];
  }
}
