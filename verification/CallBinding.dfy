/** How the arguments of a call find the parameters of the callee, and the bytes a call's
    shape is stored in. */
module CallBinding {
  import opened Utils

  type Hash = x: nat | x < 0x1_0000

  datatype ArgSpec = ArgSpec(positional: bool, hash: Hash)

  /** args is used only when some argument is named. */
  datatype CallSpec = CallSpec(allPositional: bool, argCount: nat, args: seq<ArgSpec>)

  datatype Param = Param(hash: Hash, variadic: bool, hasDefault: bool)

  /** Parameters may be unknown. */
  datatype Callee = NotAFunction | Unspecified | Function(params: seq<Option<Param>>)

  datatype Refusal = NotCallable | NoSignature | TooMany | UnknownName | PositionalAfterNamed | Missing(param: nat)

  datatype Result<+T> = Ok(value: T) | Err(error: Refusal)

  const NotSupplied := -1
  const Collected := -2

  function Name15(h: Hash): nat { h % 0x8000 }

  /** What is left of a number in eight bits, signed. */
  function Int8(i: nat): int { if i % 0x100 < 0x80 then i % 0x100 else i % 0x100 - 0x100 }

  /** What a list of eight-bit numbers keeps of an argument's index, or of a mark. */
  function Stored(i: int): int { if i < 0x80 then i else Int8(i) }

  // ---- Specification ----------------------------------------------------------------------------------------

  predicate HasVariadic(params: seq<Option<Param>>) {
    params != [] && params[|params| - 1].Some? && params[|params| - 1].value.variadic
  }

  function Regular(params: seq<Option<Param>>): nat {
    if HasVariadic(params) then |params| - 1 else |params|
  }

  /** The parameter a name stands for, searched from i on; variadic parameters end the search. */
  function ParamIndex(params: seq<Option<Param>>, h: Hash, i: nat): (r: int)
    requires i <= |params|
    ensures r < |params| && (HasVariadic(params) ==> r < |params| - 1)
    decreases |params| - i
  {
    if i == |params| then -1
    else if params[i].Some? && params[i].value.variadic then -1
    else if params[i].Some? && Name15(params[i].value.hash) == Name15(h) then Int8(i)
    else ParamIndex(params, h, i + 1)
  }

  predicate Names(args: seq<ArgSpec>, params: seq<Option<Param>>, a: nat, p: int)
    requires a < |args|
  {
    !args[a].positional && ParamIndex(params, args[a].hash, 0) == p
  }

  /** The last of the first n arguments that names parameter p. */
  function LastNaming(args: seq<ArgSpec>, params: seq<Option<Param>>, p: nat, n: nat): (r: int)
    requires n <= |args|
    ensures -1 <= r < n
  {
    if n == 0 then NotSupplied
    else if Names(args, params, n - 1, p) then n - 1
    else LastNaming(args, params, p, n - 1)
  }

  /** How many arguments come before the first named one, from k on. */
  function Leading(args: seq<ArgSpec>, k: nat): (r: nat)
    requires k <= |args|
    ensures k <= r <= |args|
    ensures forall i | k <= i < r :: args[i].positional
    ensures r < |args| ==> !args[r].positional
    decreases |args| - k
  {
    if k < |args| && args[k].positional then Leading(args, k + 1) else k
  }

  /** The first regular parameter from p on that is marked as named by nobody. */
  function FirstGap(args: seq<ArgSpec>, params: seq<Option<Param>>, p: nat): (r: nat)
    requires p <= Regular(params)
    ensures p <= r <= Regular(params)
    decreases Regular(params) - p
  {
    if p < Regular(params) && Stored(LastNaming(args, params, p, |args|)) != NotSupplied
    then FirstGap(args, params, p + 1) else p
  }

  /** Where leading arguments start to fill parameters, and how many do. */
  function FillStart(args: seq<ArgSpec>, params: seq<Option<Param>>): (r: nat)
    ensures r <= Regular(params)
  {
    if HasVariadic(params) then FirstGap(args, params, 0) else 0
  }

  function Filled(args: seq<ArgSpec>, params: seq<Option<Param>>): (r: nat)
    ensures r <= |args|
  {
    var room := Regular(params) - FillStart(args, params);
    if Leading(args, 0) < room then Leading(args, 0) else room
  }

  predicate IsLate(args: seq<ArgSpec>, a: nat)
    requires a < |args|
  {
    args[a].positional && a >= Leading(args, 0)
  }

  predicate HasLate(args: seq<ArgSpec>) { exists a :: 0 <= a < |args| && IsLate(args, a) }

  predicate Overflows(args: seq<ArgSpec>, params: seq<Option<Param>>) {
    HasLate(args) || Leading(args, 0) > Filled(args, params)
  }

  function Slot(args: seq<ArgSpec>, params: seq<Option<Param>>, p: nat): int
    requires p < |params|
  {
    var first := FillStart(args, params);
    if first <= p < first + Filled(args, params) then Stored(p - first)
    else if HasVariadic(params) && p == |params| - 1 then
      if Overflows(args, params) then Collected else NotSupplied
    else Stored(LastNaming(args, params, p, |args|))
  }

  predicate IsUnknown(args: seq<ArgSpec>, params: seq<Option<Param>>, a: nat)
    requires a < |args|
  {
    !args[a].positional && ParamIndex(params, args[a].hash, 0) < 0
  }

  function NamedBinding(args: seq<ArgSpec>, params: seq<Option<Param>>): Result<seq<int>> {
    if exists a :: 0 <= a < |args| && IsUnknown(args, params, a) then Err(UnknownName)
    else if !HasVariadic(params) && Leading(args, 0) > Regular(params) then Err(TooMany)
    else if !HasVariadic(params) && HasLate(args) then Err(PositionalAfterNamed)
    else Ok(seq(|params|, p requires 0 <= p < |params| => Slot(args, params, p)))
  }

  function InOrder(n: nat, params: seq<Option<Param>>): Result<seq<int>> {
    if !HasVariadic(params) && n > |params| then Err(TooMany)
    else Ok(seq(|params|, p requires 0 <= p < |params| =>
      if p < Regular(params) then (if p < n then Stored(p) else NotSupplied)
      else if n > Regular(params) then Collected else NotSupplied))
  }

  predicate Lacks(ps: seq<int>, params: seq<Option<Param>>, p: nat)
    requires p < |params| == |ps|
  {
    ps[p] == NotSupplied && (params[p].None? || (!params[p].value.variadic && !params[p].value.hasDefault))
  }

  function Checked(ps: seq<int>, params: seq<Option<Param>>, p: nat): Result<seq<int>>
    requires p <= |params| == |ps|
    decreases |params| - p
  {
    if p == |params| then Ok(ps) else if Lacks(ps, params, p) then Err(Missing(p)) else Checked(ps, params, p + 1)
  }

  /** The one reported is the first parameter that lacks a value; nothing is when none does. */
  lemma {:induction false} FirstLackingIsReported(ps: seq<int>, params: seq<Option<Param>>, p: nat)
    requires p <= |params| == |ps|
    ensures forall m: nat ::
      (Checked(ps, params, p) == Err(Missing(m)) <==>
       p <= m < |params| && Lacks(ps, params, m) && forall k | p <= k < m :: !Lacks(ps, params, k))
    ensures Checked(ps, params, p).Ok? <==> forall k | p <= k < |params| :: !Lacks(ps, params, k)
    ensures Checked(ps, params, p).Ok? ==> Checked(ps, params, p).value == ps
    decreases |params| - p
  {
    if p < |params| && !Lacks(ps, params, p) {
      FirstLackingIsReported(ps, params, p + 1);
    }
  }

  function Bound(spec: CallSpec, params: seq<Option<Param>>): (r: Result<seq<int>>)
    ensures r.Ok? ==> |r.value| == |params|
  {
    if spec.allPositional then InOrder(spec.argCount, params) else NamedBinding(spec.args, params)
  }

  function Positions(spec: CallSpec, callee: Callee, throwOnMissing: bool): Result<seq<int>> {
    match callee
    case NotAFunction => Err(NotCallable)
    case Unspecified => if spec.allPositional then Ok([]) else Err(NoSignature)
    case Function(params) =>
      var r := Bound(spec, params);
      if r.Ok? && throwOnMissing then Checked(r.value, params, 0) else r
  }

  // ---- The loops --------------------------------------------------------------------------------------------

  method CheckRequired(ps: seq<int>, params: seq<Option<Param>>) returns (r: Result<seq<int>>)
    requires |ps| == |params|
    ensures r == Checked(ps, params, 0)
  {
    var p := 0;
    while p < |params|
      invariant p <= |params| && Checked(ps, params, 0) == Checked(ps, params, p)
    {
      if ps[p] == NotSupplied {
        if params[p].None? || (!params[p].value.variadic && !params[p].value.hasDefault) {
          return Err(Missing(p));
        }
      }
      p := p + 1;
    }
    r := Ok(ps);
  }

  method FindParam(params: seq<Option<Param>>, h: Hash) returns (index: int)
    ensures index == ParamIndex(params, h, 0)
  {
    var i := 0;
    while i < |params|
      invariant i <= |params| && ParamIndex(params, h, 0) == ParamIndex(params, h, i)
    {
      if params[i].Some? {
        if params[i].value.variadic {
          return -1;
        }
        if Name15(params[i].value.hash) == Name15(h) {
          return Int8(i);
        }
      }
      i := i + 1;
    }
    index := -1;
  }

  method BindInOrder(n: nat, params: seq<Option<Param>>) returns (r: Result<seq<int>>)
    ensures r == InOrder(n, params)
  {
    var hasVariadic := HasVariadic(params);
    var regular := Regular(params);
    if !hasVariadic && n > regular {
      return Err(TooMany);
    }
    var ps: seq<int> := [];
    var i := 0;
    while i < n && i < regular
      invariant i <= n && i <= regular && |ps| == i && forall k | 0 <= k < i :: ps[k] == Stored(k)
    {
      ps := ps + [Stored(i)];
      i := i + 1;
    }
    i := n;
    while i < regular
      invariant n <= i && |ps| == (if i <= regular then i else regular)
      invariant forall k | 0 <= k < |ps| :: ps[k] == if k < n then Stored(k) else NotSupplied
    {
      ps := ps + [NotSupplied];
      i := i + 1;
    }
    if hasVariadic {
      ps := ps + [if n > regular then Collected else NotSupplied];
    }
    assert ps == InOrder(n, params).value;
    r := Ok(ps);
  }

  /** First every named argument, in the order of the call. */
  method BindNamed(args: seq<ArgSpec>, params: seq<Option<Param>>) returns (ok: bool, ps: seq<int>)
    ensures ok <==> forall a | 0 <= a < |args| :: !IsUnknown(args, params, a)
    ensures |ps| == |params|
    ensures ok ==> forall p | 0 <= p < |params| :: ps[p] == Stored(LastNaming(args, params, p, |args|))
  {
    ps := seq(|params|, p => NotSupplied);
    var a := 0;
    while a < |args|
      invariant 0 <= a <= |args| && |ps| == |params|
      invariant forall i | 0 <= i < a :: !IsUnknown(args, params, i)
      invariant forall p | 0 <= p < |params| :: ps[p] == Stored(LastNaming(args, params, p, a))
    {
      if !args[a].positional {
        var index := FindParam(params, args[a].hash);
        if index < 0 {
          assert IsUnknown(args, params, a);
          return false, ps;
        }
        ps := ps[index := Stored(a)];
      }
      a := a + 1;
    }
    ok := true;
  }

  method FindGap(args: seq<ArgSpec>, params: seq<Option<Param>>, ps: seq<int>) returns (next: nat)
    requires |ps| == |params| && forall p | 0 <= p < |params| :: ps[p] == Stored(LastNaming(args, params, p, |args|))
    ensures next == FirstGap(args, params, 0)
  {
    next := 0;
    var p := 0;
    while p < Regular(params)
      invariant p <= Regular(params) && next == p && FirstGap(args, params, 0) == FirstGap(args, params, p)
    {
      if ps[p] == NotSupplied {
        next := p;
        break;
      }
      next := p + 1;
      p := p + 1;
    }
  }

  /** Then the positional ones: those before any named one fill parameters from the first gap,
      or from the start when there is no variadic parameter to take the rest. */
  method BindPositional(args: seq<ArgSpec>, params: seq<Option<Param>>, named: seq<int>) returns (r: Result<seq<int>>)
    requires forall a | 0 <= a < |args| :: !IsUnknown(args, params, a)
    requires |named| == |params|
    requires forall p | 0 <= p < |params| :: named[p] == Stored(LastNaming(args, params, p, |args|))
    ensures r == NamedBinding(args, params)
  {
    var hasVariadic := HasVariadic(params);
    var regular := Regular(params);
    var gap := FindGap(args, params, named);
    var ps, next, started, seenNamed, index := named, gap, false, false, 0;
    ghost var first, lead := FillStart(args, params), Leading(args, 0);
    var a := 0;
    while a < |args|
      invariant 0 <= a <= |args|
      invariant seenNamed <==> a > lead
      invariant a <= lead ==> index == a
      invariant !hasVariadic ==> (forall i | 0 <= i < a :: !IsLate(args, i)) && (a <= lead ==> a <= regular)
      invariant !hasVariadic ==> lead <= regular || a <= lead
      invariant hasVariadic ==> next == first + (if a < Filled(args, params) then a else Filled(args, params))
      invariant hasVariadic ==>
        (started <==> (exists i :: 0 <= i < a && IsLate(args, i))
                      || (a > Filled(args, params) && lead > Filled(args, params)))
      invariant Placed(args, params, ps, a)
    {
      PlaceNext(args, params, ps, a);
      if !args[a].positional {
        LeadEnds(args, a);
        seenNamed := true;
      } else {
        if hasVariadic {
          if seenNamed {
            assert IsLate(args, a);
            started := true;
          } else {
            if next < regular {
              ps := ps[next := Stored(a)];
              next := next + 1;
            } else {
              started := true;
            }
          }
        } else {
          if !seenNamed {
            if index < regular {
              ps := ps[index := Stored(a)];
            } else {
              return Err(TooMany);
            }
          } else {
            assert IsLate(args, a);
            return Err(PositionalAfterNamed);
          }
        }
        index := index + 1;
      }
      a := a + 1;
    }
    PlacedIsBinding(args, params, ps);
    if hasVariadic && started {
      ps := ps[|params| - 1 := Collected];
    }
    r := Ok(ps);
  }

  /** The named arguments are placed, and those of the first n that lead. */
  predicate Placed(args: seq<ArgSpec>, params: seq<Option<Param>>, ps: seq<int>, n: nat) {
    |ps| == |params|
    && forall p | 0 <= p < |params| ::
         var first := FillStart(args, params);
         ps[p] == if first <= p < first + Filled(args, params) && p < first + n then Stored(p - first)
                  else Stored(LastNaming(args, params, p, |args|))
  }

  lemma PlaceNext(args: seq<ArgSpec>, params: seq<Option<Param>>, ps: seq<int>, n: nat)
    requires Placed(args, params, ps, n)
    ensures n < Filled(args, params) ==>
      var next := FillStart(args, params) + n;
      next < |ps| && Placed(args, params, ps[next := Stored(n)], n + 1)
    ensures n >= Filled(args, params) ==> Placed(args, params, ps, n + 1)
  {
  }

  /** With all arguments placed, only the mark of the variadic parameter is missing. */
  lemma PlacedIsBinding(args: seq<ArgSpec>, params: seq<Option<Param>>, ps: seq<int>)
    requires forall a | 0 <= a < |args| :: !IsUnknown(args, params, a)
    requires !HasVariadic(params) ==> Leading(args, 0) <= Regular(params) && !HasLate(args)
    requires Placed(args, params, ps, |args|)
    ensures NamedBinding(args, params)
      == Ok(if HasVariadic(params) && Overflows(args, params) then ps[|params| - 1 := Collected] else ps)
  {
    if HasVariadic(params) {
      VariadicIsNeverNamed(args, params, |args|);
    }
    var done := if HasVariadic(params) && Overflows(args, params) then ps[|params| - 1 := Collected] else ps;
    assert forall p | 0 <= p < |params| :: done[p] == Slot(args, params, p);
    assert done == NamedBinding(args, params).value;
  }

  lemma VariadicIsNeverNamed(args: seq<ArgSpec>, params: seq<Option<Param>>, n: nat)
    requires HasVariadic(params) && n <= |args|
    ensures LastNaming(args, params, |params| - 1, n) == NotSupplied
  {
    if n > 0 {
      VariadicIsNeverNamed(args, params, n - 1);
    }
  }

  /** A named argument is not among the leading ones. */
  lemma LeadEnds(args: seq<ArgSpec>, a: nat)
    requires a < |args| && !args[a].positional
    ensures a >= Leading(args, 0)
  {
  }

  method ParamPositions(spec: CallSpec, callee: Callee, throwOnMissing: bool) returns (r: Result<seq<int>>)
    ensures r == Positions(spec, callee, throwOnMissing)
    ensures callee.Function? && spec.allPositional && !throwOnMissing ==>
      (r.Ok? <==> HasVariadic(callee.params) || spec.argCount <= |callee.params|)
    ensures callee.Function? && spec.allPositional && !HasVariadic(callee.params) && spec.argCount > |callee.params| ==>
      r == Err(TooMany)
  {
    if callee.NotAFunction? {
      return Err(NotCallable);
    }
    if callee.Unspecified? {
      return if spec.allPositional then Ok([]) else Err(NoSignature);
    }
    if spec.allPositional {
      r := BindInOrder(spec.argCount, callee.params);
    } else {
      var ok, named := BindNamed(spec.args, callee.params);
      if !ok {
        return Err(UnknownName);
      }
      r := BindPositional(spec.args, callee.params, named);
    }
    if r.Ok? && throwOnMissing {
      r := CheckRequired(r.value, callee.params);
    }
  }
}
