/** Which arguments of an accepted call are bound. */
module CallBindingTheorems {
  import opened Utils
  import opened CallBinding

  /** The entries of a binding are argument indices, each used once, or marks; only a variadic
      last parameter collects. */
  predicate IsBinding(ps: seq<int>, params: seq<Option<Param>>, n: nat) {
    && |ps| == |params|
    && (forall p | 0 <= p < |ps| :: -2 <= ps[p] < n)
    && (forall p | 0 <= p < |ps| && ps[p] == Collected :: HasVariadic(params) && p == |params| - 1)
    && (forall p, q | 0 <= p < q < |ps| && ps[p] == ps[q] :: ps[p] < 0)
  }

  lemma {:induction false} LastNamingIs(args: seq<ArgSpec>, params: seq<Option<Param>>, p: nat, n: nat)
    requires n <= |args|
    ensures var a := LastNaming(args, params, p, n);
      a >= 0 ==> Names(args, params, a, p) && forall b | a < b < n :: !Names(args, params, b, p)
    ensures LastNaming(args, params, p, n) == NotSupplied ==> forall b | 0 <= b < n :: !Names(args, params, b, p)
    decreases n
  {
    if n > 0 && !Names(args, params, n - 1, p) {
      LastNamingIs(args, params, p, n - 1);
    }
  }

  /** How many arguments have an index that eight bits keep. */
  const INDEXED := 0x80

  lemma AcceptedIsBinding(spec: CallSpec, params: seq<Option<Param>>)
    requires Bound(spec, params).Ok? && (!spec.allPositional ==> spec.argCount == |spec.args|)
    requires spec.argCount <= INDEXED
    ensures IsBinding(Bound(spec, params).value, params, spec.argCount)
  {
    if spec.allPositional {
      InOrderIsBinding(spec.argCount, params);
    } else {
      NamedIsBinding(spec.args, params);
    }
  }

  lemma InOrderIsBinding(n: nat, params: seq<Option<Param>>)
    requires InOrder(n, params).Ok? && n <= INDEXED
    ensures IsBinding(InOrder(n, params).value, params, n)
  {
    var ps := InOrder(n, params).value;
    forall p | 0 <= p < |ps|
      ensures -2 <= ps[p] < n && (ps[p] >= 0 ==> ps[p] == p)
      ensures ps[p] == Collected ==> HasVariadic(params) && p == |params| - 1
    {
      assert ps[p] == if p < Regular(params) then (if p < n then Stored(p) else NotSupplied)
                      else if n > Regular(params) then Collected else NotSupplied;
    }
  }

  lemma NamedIsBinding(args: seq<ArgSpec>, params: seq<Option<Param>>)
    requires NamedBinding(args, params).Ok? && |args| <= INDEXED
    ensures IsBinding(NamedBinding(args, params).value, params, |args|)
  {
    var ps := NamedBinding(args, params).value;
    var first := FillStart(args, params);
    var last := first + Filled(args, params);
    forall p | 0 <= p < |ps|
      ensures ps[p] == Slot(args, params, p)
      ensures !(first <= p < last) && ps[p] >= 0 ==>
        !args[ps[p]].positional && ParamIndex(params, args[ps[p]].hash, 0) == p
      ensures first <= p < last ==> ps[p] == p - first && ps[p] < |args| && args[ps[p]].positional
    {
      LastNamingIs(args, params, p, |args|);
    }
  }

  // ---- Every argument exactly once ----------------------------------------------------------------------------

  /** An argument has a parameter, or goes to the variadic one with the rest. */
  predicate Reaches(args: seq<ArgSpec>, params: seq<Option<Param>>, ps: seq<int>, a: nat)
    requires a < |args| && |ps| == |params|
  {
    || (exists p :: 0 <= p < |ps| && ps[p] == a)
    || (args[a].positional && HasVariadic(params) && ps[|ps| - 1] == Collected)
  }

  /** A named argument stands alone for its parameter: no other argument names it and no
      leading argument is put there. */
  predicate StandsAlone(args: seq<ArgSpec>, params: seq<Option<Param>>, a: nat)
    requires a < |args|
  {
    var p := ParamIndex(params, args[a].hash, 0);
    && !(FillStart(args, params) <= p < FillStart(args, params) + Filled(args, params))
    && forall b | 0 <= b < |args| && b != a :: !Names(args, params, b, p)
  }

  predicate NoClash(args: seq<ArgSpec>, params: seq<Option<Param>>) {
    forall a | 0 <= a < |args| && !args[a].positional :: StandsAlone(args, params, a)
  }

  lemma PositionalReaches(args: seq<ArgSpec>, params: seq<Option<Param>>, ps: seq<int>, a: nat)
    requires NamedBinding(args, params) == Ok(ps) && a < |args| <= INDEXED && args[a].positional
    ensures Reaches(args, params, ps, a)
  {
    var first := FillStart(args, params);
    if a >= Leading(args, 0) {
      LateIsLate(args, a);
    }
    if a < Filled(args, params) {
      assert ps[first + a] == Slot(args, params, first + a) == a;
    } else {
      assert ps[|ps| - 1] == Slot(args, params, |params| - 1);
    }
  }

  lemma LateIsLate(args: seq<ArgSpec>, a: nat)
    requires a < |args| && args[a].positional && a >= Leading(args, 0)
    ensures HasLate(args)
  {
    assert IsLate(args, a);
  }

  lemma NamedReachesIff(args: seq<ArgSpec>, params: seq<Option<Param>>, ps: seq<int>, a: nat)
    requires NamedBinding(args, params) == Ok(ps) && a < |args| <= INDEXED && !args[a].positional
    ensures var p := ParamIndex(params, args[a].hash, 0);
      Reaches(args, params, ps, a) <==>
      !(FillStart(args, params) <= p < FillStart(args, params) + Filled(args, params))
      && forall b | a < b < |args| :: !Names(args, params, b, p)
  {
    var p := ParamIndex(params, args[a].hash, 0);
    var first, last := FillStart(args, params), FillStart(args, params) + Filled(args, params);
    assert !IsUnknown(args, params, a);
    LastNamingIs(args, params, p, |args|);
    assert ps[p] == Slot(args, params, p);
    assert Names(args, params, a, p);
    if q :| 0 <= q < |ps| && ps[q] == a {
      assert ps[q] == Slot(args, params, q);
      LastNamingIs(args, params, q, |args|);
    }
  }

  /** In a call with named arguments that is accepted every argument is bound, once, exactly
      when each named one stands alone. Otherwise a later argument has taken its place. */
  lemma AllBoundIff(args: seq<ArgSpec>, params: seq<Option<Param>>, ps: seq<int>)
    requires NamedBinding(args, params) == Ok(ps) && |args| <= INDEXED
    ensures (forall a | 0 <= a < |args| :: Reaches(args, params, ps, a)) <==> NoClash(args, params)
  {
    forall a | 0 <= a < |args| && args[a].positional
      ensures Reaches(args, params, ps, a)
    {
      PositionalReaches(args, params, ps, a);
    }
    forall a | 0 <= a < |args| && !args[a].positional
      ensures StandsAlone(args, params, a) ==> Reaches(args, params, ps, a)
      ensures (forall c | 0 <= c < |args| :: Reaches(args, params, ps, c)) ==> StandsAlone(args, params, a)
    {
      NamedReachesIff(args, params, ps, a);
      if forall c | 0 <= c < |args| :: Reaches(args, params, ps, c) {
        var p := ParamIndex(params, args[a].hash, 0);
        forall b | 0 <= b < |args| && b != a
          ensures !Names(args, params, b, p)
        {
          if b < a && Names(args, params, b, p) {
            NamedReachesIff(args, params, ps, b);
            assert Names(args, params, a, p);
          }
        }
      }
    }
  }

  /** Different names never stand for one parameter, as long as indices fit eight bits. */
  lemma {:induction false} NamesApart(params: seq<Option<Param>>, g: Hash, h: Hash, i: nat)
    requires i <= |params| <= INDEXED && Name15(g) != Name15(h)
    ensures ParamIndex(params, g, i) >= 0 ==> ParamIndex(params, g, i) != ParamIndex(params, h, i)
    decreases |params| - i
  {
    if i < |params| {
      NamesApart(params, g, h, i + 1);
      IndexFrom(params, g, i + 1);
      IndexFrom(params, h, i + 1);
    }
  }

  lemma {:induction false} IndexFrom(params: seq<Option<Param>>, h: Hash, i: nat)
    requires i <= |params| <= INDEXED
    ensures ParamIndex(params, h, i) == -1 || ParamIndex(params, h, i) >= i
    decreases |params| - i
  {
    if i < |params| {
      IndexFrom(params, h, i + 1);
    }
  }

  /** A call with positional arguments only has each regular parameter filled by the argument
      in its place exactly when no more than 128 of them are: further indices wrap around. */
  lemma InOrderIsExactIff(n: nat, params: seq<Option<Param>>)
    requires InOrder(n, params).Ok?
    ensures (forall p | 0 <= p < n && p < Regular(params) :: InOrder(n, params).value[p] == p)
      <==> n <= INDEXED || Regular(params) <= INDEXED
  {
    var ps := InOrder(n, params).value;
    if n > INDEXED && Regular(params) > INDEXED {
      assert ps[INDEXED] == Stored(INDEXED) == Int8(INDEXED) == -0x80;
    }
  }

  /** f(1, 2, b: 3) for parameters a, b and a variadic one is accepted, and the 3 is lost. */
  lemma NamedArgumentIsOverwritten()
    ensures var params := [Some(Param(1, false, false)), Some(Param(2, false, false)), Some(Param(3, true, false))];
      var args := [ArgSpec(true, 0), ArgSpec(true, 0), ArgSpec(false, 2)];
      NamedBinding(args, params) == Ok([0, 1, NotSupplied])
  {
    var params := [Some(Param(1, false, false)), Some(Param(2, false, false)), Some(Param(3, true, false))];
    var args := [ArgSpec(true, 0), ArgSpec(true, 0), ArgSpec(false, 2)];
    assert ParamIndex(params, 2, 1) == 1 && ParamIndex(params, 2, 0) == 1;
    assert Leading(args, 2) == 2 && Leading(args, 1) == 2 && Leading(args, 0) == 2;
    assert LastNaming(args, params, 0, 1) == -1 && LastNaming(args, params, 0, 2) == -1;
    assert LastNaming(args, params, 0, 3) == -1;
    assert HasVariadic(params) && FirstGap(args, params, 0) == 0;
    assert forall a | 0 <= a < |args| :: !IsUnknown(args, params, a);
    assert Filled(args, params) == 2;
    assert !HasLate(args);
    assert Slot(args, params, 0) == 0 && Slot(args, params, 1) == 1 && Slot(args, params, 2) == NotSupplied;
    assert NamedBinding(args, params).value == [0, 1, NotSupplied];
  }

  /** f(1, a: 2) for parameters a and b, b with a default, is accepted too, and the 2 takes no
      place: the leading argument has taken it. No variadic parameter is needed. */
  lemma NamedArgumentIsOverwrittenInOrder()
    ensures var params := [Some(Param(1, false, false)), Some(Param(2, false, true))];
      var args := [ArgSpec(true, 0), ArgSpec(false, 1)];
      NamedBinding(args, params) == Ok([0, NotSupplied])
  {
    var params := [Some(Param(1, false, false)), Some(Param(2, false, true))];
    var args := [ArgSpec(true, 0), ArgSpec(false, 1)];
    assert ParamIndex(params, 1, 0) == 0;
    assert Leading(args, 1) == 1 && Leading(args, 0) == 1;
    assert LastNaming(args, params, 1, 1) == -1 && LastNaming(args, params, 1, 2) == -1;
    assert !HasVariadic(params) && !HasLate(args) && Filled(args, params) == 1;
    assert forall a | 0 <= a < |args| :: !IsUnknown(args, params, a);
    assert Slot(args, params, 0) == 0 && Slot(args, params, 1) == NotSupplied;
    assert NamedBinding(args, params).value == [0, NotSupplied];
  }

  // ---- Which calls are accepted -------------------------------------------------------------------------

  predicate Bears(params: seq<Option<Param>>, h: Hash, p: nat)
    requires p < |params|
  {
    params[p].Some? && !params[p].value.variadic && Name15(params[p].value.hash) == Name15(h)
  }

  /** Parameter p bears the name, no earlier one does, and no variadic one comes before it. */
  predicate FirstBearing(params: seq<Option<Param>>, h: Hash, p: nat, from: nat) {
    from <= p < |params| && Bears(params, h, p)
    && forall q | from <= q < p :: !Bears(params, h, q) && !(params[q].Some? && params[q].value.variadic)
  }

  /** Some parameter is found for the name, at an index that eight bits keep. */
  predicate IsKnown(params: seq<Option<Param>>, h: Hash) {
    exists p | 0 <= p < |params| :: FirstBearing(params, h, p, 0) && p % 0x100 < INDEXED
  }

  lemma {:induction false} FoundIsFirst(params: seq<Option<Param>>, h: Hash, i: nat)
    requires i <= |params|
    ensures forall p: nat | FirstBearing(params, h, p, i) :: ParamIndex(params, h, i) == Int8(p)
    ensures ParamIndex(params, h, i) == -1 || exists p: nat :: FirstBearing(params, h, p, i)
    decreases |params| - i
  {
    if i < |params| {
      if Bears(params, h, i) {
        assert FirstBearing(params, h, i, i);
      } else if !(params[i].Some? && params[i].value.variadic) {
        FoundIsFirst(params, h, i + 1);
        if ParamIndex(params, h, i + 1) != -1 {
          var p: nat :| FirstBearing(params, h, p, i + 1);
          assert FirstBearing(params, h, p, i);
        }
        forall p: nat | FirstBearing(params, h, p, i)
          ensures FirstBearing(params, h, p, i + 1)
        {
        }
      }
    }
  }

  lemma OneIsFirst(params: seq<Option<Param>>, h: Hash, p: nat, q: nat)
    requires FirstBearing(params, h, p, 0) && FirstBearing(params, h, q, 0)
    ensures p == q
  {
  }

  lemma KnownIff(params: seq<Option<Param>>, h: Hash)
    ensures ParamIndex(params, h, 0) >= 0 <==> IsKnown(params, h)
  {
    FoundIsFirst(params, h, 0);
    if p: nat :| FirstBearing(params, h, p, 0) {
      forall q: nat | FirstBearing(params, h, q, 0)
        ensures q == p
      {
        OneIsFirst(params, h, p, q);
      }
    }
  }

  predicate NamesUnknown(args: seq<ArgSpec>, params: seq<Option<Param>>) {
    exists a | 0 <= a < |args| :: !args[a].positional && !IsKnown(params, args[a].hash)
  }

  /** More arguments than there are parameters come before any named one. */
  predicate LeadsTooFar(args: seq<ArgSpec>, params: seq<Option<Param>>) {
    |args| > |params| && forall a | 0 <= a <= |params| :: args[a].positional
  }

  predicate HasPositionalAfterNamed(args: seq<ArgSpec>) {
    exists a, b | 0 <= a < b < |args| :: !args[a].positional && args[b].positional
  }

  /** Whether a call with named arguments is accepted, and why it is refused: a name that no
      parameter bears comes before everything else, and a variadic parameter takes whatever
      is too many or too late. */
  lemma NamedRefusals(args: seq<ArgSpec>, params: seq<Option<Param>>)
    ensures NamedBinding(args, params) == Err(UnknownName) <==> NamesUnknown(args, params)
    ensures NamedBinding(args, params) == Err(TooMany) <==>
      !NamesUnknown(args, params) && !HasVariadic(params) && LeadsTooFar(args, params)
    ensures NamedBinding(args, params) == Err(PositionalAfterNamed) <==>
      !NamesUnknown(args, params) && !HasVariadic(params) && !LeadsTooFar(args, params)
      && HasPositionalAfterNamed(args)
    ensures NamedBinding(args, params).Ok? <==> NamedAccepted(args, params)
  {
    UnknownIff(args, params);
    LeadingIff(args, params);
    LateIff(args);
  }

  predicate NamedAccepted(args: seq<ArgSpec>, params: seq<Option<Param>>) {
    !NamesUnknown(args, params)
    && (HasVariadic(params) || (!LeadsTooFar(args, params) && !HasPositionalAfterNamed(args)))
  }

  lemma UnknownIff(args: seq<ArgSpec>, params: seq<Option<Param>>)
    ensures (exists a :: 0 <= a < |args| && IsUnknown(args, params, a)) <==> NamesUnknown(args, params)
  {
    forall a | 0 <= a < |args|
      ensures IsUnknown(args, params, a) <==> !args[a].positional && !IsKnown(params, args[a].hash)
    {
      KnownIff(params, args[a].hash);
    }
    if NamesUnknown(args, params) {
      var a :| 0 <= a < |args| && !args[a].positional && !IsKnown(params, args[a].hash);
      assert IsUnknown(args, params, a);
    }
  }

  lemma LeadingIff(args: seq<ArgSpec>, params: seq<Option<Param>>)
    ensures !HasVariadic(params) ==> (Leading(args, 0) > Regular(params) <==> LeadsTooFar(args, params))
  {
  }

  lemma LateIff(args: seq<ArgSpec>)
    ensures HasLate(args) <==> HasPositionalAfterNamed(args)
  {
    if HasLate(args) {
      var b :| 0 <= b < |args| && IsLate(args, b);
      assert !args[Leading(args, 0)].positional && Leading(args, 0) < b;
    }
    if HasPositionalAfterNamed(args) {
      var a, b :| 0 <= a < b < |args| && !args[a].positional && args[b].positional;
      LeadEnds(args, a);
      assert Leading(args, 0) <= a;
      assert IsLate(args, b);
    }
  }

  /** The first parameter that lacks a value refuses a call that is accepted without. */
  lemma MissingIff(spec: CallSpec, params: seq<Option<Param>>, p: nat)
    ensures Positions(spec, Function(params), true) == Err(Missing(p)) <==>
      var r := Positions(spec, Function(params), false);
      r.Ok? && p < |params| && Lacks(r.value, params, p) && forall k | 0 <= k < p :: !Lacks(r.value, params, k)
  {
    var r := Bound(spec, params);
    if r.Ok? {
      FirstLackingIsReported(r.value, params, 0);
    }
  }

  // ---- Where arguments go -------------------------------------------------------------------------------

  /** A named argument goes to the parameter of its name, positional ones keep their order,
      and nothing is collected unless some argument has no parameter of its own. */
  lemma NamedGoToTheirs(args: seq<ArgSpec>, params: seq<Option<Param>>, ps: seq<int>)
    requires NamedBinding(args, params) == Ok(ps) && |args| <= INDEXED && |params| <= INDEXED
    ensures forall p | 0 <= p < |ps| && ps[p] >= 0 ::
      ps[p] < |args| && (!args[ps[p]].positional ==> FirstBearing(params, args[ps[p]].hash, p, 0))
    ensures forall p, q | 0 <= p < q < |ps| && ps[p] >= 0 && ps[q] >= 0
      && args[ps[p]].positional && args[ps[q]].positional :: ps[p] < ps[q]
  {
    forall p | 0 <= p < |ps| && ps[p] >= 0
      ensures ps[p] < |args|
      ensures !args[ps[p]].positional ==> FirstBearing(params, args[ps[p]].hash, p, 0)
      ensures args[ps[p]].positional ==> ps[p] == p - FillStart(args, params)
    {
      assert ps[p] == Slot(args, params, p);
      LastNamingIs(args, params, p, |args|);
      if !args[ps[p]].positional {
        FoundIsFirst(params, args[ps[p]].hash, 0);
      }
    }
  }

  /** The variadic parameter collects exactly when some positional argument has no parameter
      of its own. */
  lemma CollectsIff(args: seq<ArgSpec>, params: seq<Option<Param>>, ps: seq<int>)
    requires NamedBinding(args, params) == Ok(ps) && |args| <= INDEXED && HasVariadic(params)
    ensures ps[|ps| - 1] == Collected <==>
      exists a | 0 <= a < |args| :: args[a].positional && forall p | 0 <= p < |ps| :: ps[p] != a
  {
    var first, n := FillStart(args, params), Filled(args, params);
    forall p | 0 <= p < |ps|
      ensures ps[p] >= 0 ==> ps[p] < n || !args[ps[p]].positional
    {
      assert ps[p] == Slot(args, params, p);
      LastNamingIs(args, params, p, |args|);
    }
    forall a | 0 <= a < n
      ensures args[a].positional && ps[first + a] == a
    {
      assert ps[first + a] == Slot(args, params, first + a);
    }
    assert ps[|ps| - 1] == Slot(args, params, |params| - 1);
    if ps[|ps| - 1] == Collected {
      var a := Beyond(args, params);
      assert forall p | 0 <= p < |ps| :: ps[p] != a;
    }
    if a :| 0 <= a < |args| && args[a].positional && forall p | 0 <= p < |ps| :: ps[p] != a {
      assert a >= n;
      if a >= Leading(args, 0) {
        assert IsLate(args, a);
      }
    }
  }

  /** A positional argument that finds no regular parameter. */
  lemma Beyond(args: seq<ArgSpec>, params: seq<Option<Param>>) returns (a: nat)
    requires Overflows(args, params)
    ensures a < |args| && args[a].positional && a >= Filled(args, params)
  {
    if HasLate(args) {
      a :| a < |args| && IsLate(args, a);
    } else {
      a := Filled(args, params);
    }
  }

  /** With positional arguments only: each parameter has the argument in its place or none,
      and what is left over is collected. */
  lemma InOrderGoToTheirs(n: nat, params: seq<Option<Param>>, ps: seq<int>)
    requires InOrder(n, params) == Ok(ps) && n <= INDEXED
    ensures |ps| == |params|
    ensures forall p | 0 <= p < |params| && !(HasVariadic(params) && p == |params| - 1) ::
      if p < n then ps[p] == p else ps[p] == NotSupplied
    ensures HasVariadic(params) ==> ps[|params| - 1] == if n >= |params| then Collected else NotSupplied
  {
    assert HasVariadic(params) ==> ps[|params| - 1] == if n > Regular(params) then Collected else NotSupplied;
  }
}
