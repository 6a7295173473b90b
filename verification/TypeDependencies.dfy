/** The types a remote actor depends on: a search through types and functions that refer to
    one another in any way, cycles included. */
module TypeDependencies {
  import opened Utils

  type TypeId = nat
  type FunctionId = nat
  type ModuleId = nat

  // ---- What is searched -----------------------------------------------------------------------------------

  /** Type expressions, as signatures and declared objects have them. */
  datatype TypeInfo = TypeInfo(func: Option<Signature>, declared: Option<ObjectInfo>)

  datatype Signature = Signature(params: seq<TypeInfo>, results: seq<TypeInfo>)

  datatype ObjectInfo = ObjectInfo(
    name: string,
    supers: seq<TypeInfo>,
    implements: seq<TypeInfo>,
    properties: seq<TypeInfo>,
    methods: seq<Signature>)

  datatype Property = Property(valueType: Option<TypeId>, owner: Option<TypeId>)

  datatype Method = Method(owner: Option<TypeId>, body: Option<FunctionId>)

  datatype TypeObject = TypeObject(superType: Option<TypeId>, properties: seq<Property>, methods: seq<Method>)

  datatype Constant = FunctionConstant(f: FunctionId) | TypeConstant(t: TypeId) | OtherConstant

  datatype FunctionObject = FunctionObject(
    owningModule: ModuleId,
    signature: Option<TypeInfo>,
    owner: Option<TypeId>,
    constants: seq<Constant>,
    defaults: seq<FunctionId>)

  datatype Export = Export(symbol: string, t: TypeId)

  datatype Module = Module(id: ModuleId, name: string, builtin: bool, exports: seq<Export>)

  /** names says which type a name stands for in a module. References to objects that are
      not there any more are not followed. */
  datatype Heap = Heap(
    types: map<TypeId, TypeObject>,
    functions: map<FunctionId, FunctionObject>,
    modules: seq<Module>,
    names: map<(ModuleId, string), TypeId>)

  /** Missing is a type name that its module does not resolve. */
  datatype Ref = TypeRef(t: TypeId) | FunctionRef(f: FunctionId) | Missing(name: string)

  datatype Dependency = Dependency(t: TypeId, owningModule: string, symbol: string)

  // ---- References, in the order they are followed -----------------------------------------------------------

  function SignatureRefs(h: Heap, m: ModuleId, s: Signature): seq<Ref>
    decreases s, 3
  {
    InfosRefs(h, m, s.params) + InfosRefs(h, m, s.results)
  }

  function InfosRefs(h: Heap, m: ModuleId, infos: seq<TypeInfo>): seq<Ref>
    decreases infos, 2
  {
    if infos == [] then [] else InfoRefs(h, m, infos[0]) + InfosRefs(h, m, infos[1..])
  }

  function SignaturesRefs(h: Heap, m: ModuleId, signatures: seq<Signature>): seq<Ref>
    decreases signatures, 2
  {
    if signatures == [] then [] else SignatureRefs(h, m, signatures[0]) + SignaturesRefs(h, m, signatures[1..])
  }

  function InfoRefs(h: Heap, m: ModuleId, info: TypeInfo): seq<Ref>
    decreases info, 5
  {
    (if info.func.Some? then SignatureRefs(h, m, info.func.value) else [])
    + (if info.declared.Some? then ObjectRefs(h, m, info.declared.value) else [])
  }

  function ObjectRefs(h: Heap, m: ModuleId, o: ObjectInfo): seq<Ref>
    decreases o, 4
  {
    (if o.name == "" then [] else [Named(h, m, o.name)])
    + InfosRefs(h, m, o.supers) + InfosRefs(h, m, o.implements) + InfosRefs(h, m, o.properties)
    + SignaturesRefs(h, m, o.methods)
  }

  function Named(h: Heap, m: ModuleId, name: string): Ref {
    if (m, name) in h.names then TypeRef(h.names[(m, name)]) else Missing(name)
  }

  function Optional(t: Option<TypeId>): seq<Ref> { if t.Some? then [TypeRef(t.value)] else [] }

  function PropertiesRefs(properties: seq<Property>): seq<Ref> {
    if properties == [] then []
    else Optional(properties[0].valueType) + Optional(properties[0].owner) + PropertiesRefs(properties[1..])
  }

  function MethodsRefs(methods: seq<Method>): seq<Ref> {
    if methods == [] then []
    else
      Optional(methods[0].owner)
      + (if methods[0].body.Some? then [FunctionRef(methods[0].body.value)] else [])
      + MethodsRefs(methods[1..])
  }

  function TypeRefs(o: TypeObject): seq<Ref> {
    Optional(o.superType) + PropertiesRefs(o.properties) + MethodsRefs(o.methods)
  }

  function ConstantsRefs(constants: seq<Constant>): seq<Ref> {
    if constants == [] then []
    else (match constants[0]
          case FunctionConstant(f) => [FunctionRef(f)]
          case TypeConstant(t) => [TypeRef(t)]
          case OtherConstant => [])
         + ConstantsRefs(constants[1..])
  }

  function FunctionRefs(h: Heap, f: FunctionObject): seq<Ref> {
    (if f.signature.Some? then InfoRefs(h, f.owningModule, f.signature.value) else [])
    + Optional(f.owner) + ConstantsRefs(f.constants)
    + seq(|f.defaults|, i requires 0 <= i < |f.defaults| => FunctionRef(f.defaults[i]))
  }

  /** The actor type itself is followed less far: owners are not. */
  function ValueTypes(properties: seq<Property>): seq<Ref> {
    if properties == [] then [] else Optional(properties[0].valueType) + ValueTypes(properties[1..])
  }

  function MethodFunctions(methods: seq<Method>): seq<Ref> {
    if methods == [] then []
    else (if methods[0].body.Some? then [FunctionRef(methods[0].body.value)] else []) + MethodFunctions(methods[1..])
  }

  /** Every type exported by the module of one of the actor's methods. */
  function OwnerExports(h: Heap, methods: seq<Method>): seq<Ref> {
    if methods == [] then []
    else (if methods[0].body.Some? && methods[0].body.value in h.functions
          then ModuleExports(h.modules, h.functions[methods[0].body.value].owningModule) else [])
         + OwnerExports(h, methods[1..])
  }

  function ModuleExports(modules: seq<Module>, m: ModuleId): seq<Ref> {
    if modules == [] then []
    else if modules[0].id == m then (if modules[0].builtin then [] else ExportRefs(modules[0].exports))
    else ModuleExports(modules[1..], m)
  }

  function ExportRefs(exports: seq<Export>): seq<Ref> {
    seq(|exports|, i requires 0 <= i < |exports| => TypeRef(exports[i].t))
  }

  function RootRefs(h: Heap, o: TypeObject): seq<Ref> {
    Optional(o.superType) + ValueTypes(o.properties) + MethodFunctions(o.methods) + OwnerExports(h, o.methods)
  }

  // ---- Which module exports a type -----------------------------------------------------------------------

  function ExportIn(m: Module, t: TypeId, k: nat): Option<Dependency>
    requires k <= |m.exports|
    decreases |m.exports| - k
  {
    if k == |m.exports| then None
    else if m.exports[k].t == t then Some(Dependency(t, m.name, m.exports[k].symbol))
    else ExportIn(m, t, k + 1)
  }

  function OwningExport(modules: seq<Module>, t: TypeId, k: nat): Option<Dependency>
    requires k <= |modules|
    decreases |modules| - k
  {
    if k == |modules| then None
    else if !modules[k].builtin && ExportIn(modules[k], t, 0).Some? then ExportIn(modules[k], t, 0)
    else OwningExport(modules, t, k + 1)
  }

  method FindOwningExport(modules: seq<Module>, t: TypeId) returns (r: Option<Dependency>)
    ensures r == OwningExport(modules, t, 0)
  {
    var k := 0;
    while k < |modules|
      invariant k <= |modules| && OwningExport(modules, t, 0) == OwningExport(modules, t, k)
    {
      if !modules[k].builtin {
        var exports := modules[k].exports;
        var i := 0;
        while i < |exports|
          invariant i <= |exports| && ExportIn(modules[k], t, 0) == ExportIn(modules[k], t, i)
        {
          if exports[i].t == t {
            return Some(Dependency(t, modules[k].name, exports[i].symbol));
          }
          i := i + 1;
        }
      }
      k := k + 1;
    }
    r := None;
  }

  /** A type has an owning export exactly when some module that is not builtin exports it. */
  lemma {:induction false} ExportedIff(modules: seq<Module>, t: TypeId, k: nat)
    requires k <= |modules|
    ensures OwningExport(modules, t, k).Some? <==>
      exists i, j :: k <= i < |modules| && !modules[i].builtin
        && 0 <= j < |modules[i].exports| && modules[i].exports[j].t == t
    ensures OwningExport(modules, t, k).Some? ==> OwningExport(modules, t, k).value.t == t
    decreases |modules| - k
  {
    if k < |modules| {
      ExportedIff(modules, t, k + 1);
      ExportInIff(modules[k], t, 0);
    }
  }

  lemma {:induction false} ExportInIff(m: Module, t: TypeId, k: nat)
    requires k <= |m.exports|
    ensures ExportIn(m, t, k).Some? <==> exists j :: k <= j < |m.exports| && m.exports[j].t == t
    ensures ExportIn(m, t, k).Some? ==> ExportIn(m, t, k).value.t == t
    decreases |m.exports| - k
  {
    if k < |m.exports| {
      ExportInIff(m, t, k + 1);
    }
  }

  // ---- What is reachable ---------------------------------------------------------------------------------

  /** Worth following: a name that is missing, or an object that is there and not the root. */
  predicate Relevant(h: Heap, root: TypeId, r: Ref) {
    match r
    case TypeRef(t) => t in h.types && t != root
    case FunctionRef(f) => f in h.functions
    case Missing(_) => true
  }

  function Refs(h: Heap, r: Ref): seq<Ref> {
    match r
    case TypeRef(t) => if t in h.types then TypeRefs(h.types[t]) else []
    case FunctionRef(f) => if f in h.functions then FunctionRefs(h, h.functions[f]) else []
    case Missing(_) => []
  }

  /** A chain of references through relevant objects. */
  predicate IsPath(h: Heap, root: TypeId, p: seq<Ref>)
    decreases |p|
  {
    p != [] && Relevant(h, root, p[0]) && (|p| > 1 ==> p[1] in Refs(h, p[0]) && IsPath(h, root, p[1..]))
  }

  ghost predicate Reaches(h: Heap, root: TypeId, start: seq<Ref>, r: Ref) {
    exists p :: IsPath(h, root, p) && p[0] in start && p[|p| - 1] == r
  }

  /** What makes the search give up: a missing name, or a type nobody exports. */
  predicate Trouble(h: Heap, r: Ref) {
    r.Missing? || (r.TypeRef? && OwningExport(h.modules, r.t, 0).None?)
  }

  lemma ReachesStart(h: Heap, root: TypeId, start: seq<Ref>, r: Ref)
    requires r in start && Relevant(h, root, r)
    ensures Reaches(h, root, start, r)
  {
    assert IsPath(h, root, [r]);
  }

  /** What is reached from the references of something reached is reached. */
  lemma ReachesThrough(h: Heap, root: TypeId, start: seq<Ref>, r: Ref, x: Ref)
    requires r in start && Relevant(h, root, r) && Reaches(h, root, Refs(h, r), x)
    ensures Reaches(h, root, start, x)
  {
    var p :| IsPath(h, root, p) && p[0] in Refs(h, r) && p[|p| - 1] == x;
    var q := [r] + p;
    assert q[1..] == p && q[1] == p[0];
    assert IsPath(h, root, q);
  }

  lemma ReachesMore(h: Heap, root: TypeId, start: seq<Ref>, start': seq<Ref>, x: Ref)
    requires Reaches(h, root, start, x) && forall r | r in start :: r in start'
    ensures Reaches(h, root, start', x)
  {
    var p :| IsPath(h, root, p) && p[0] in start && p[|p| - 1] == x;
    assert p[0] in start';
  }

  /** A set that has the start and all references out of itself has all that is reachable. */
  ghost predicate Closed(h: Heap, root: TypeId, start: seq<Ref>, seen: set<Ref>) {
    (forall r | r in start && Relevant(h, root, r) :: r in seen)
    && (forall n, r | n in seen && r in Refs(h, n) && Relevant(h, root, r) :: r in seen)
  }

  lemma {:induction false} ClosedHasAll(h: Heap, root: TypeId, start: seq<Ref>, seen: set<Ref>, p: seq<Ref>)
    requires Closed(h, root, start, seen) && IsPath(h, root, p) && p[0] in seen
    ensures p[|p| - 1] in seen
    decreases |p|
  {
    if |p| > 1 {
      ClosedHasAll(h, root, start, seen, p[1..]);
    }
  }

  // ---- What a search achieves ----------------------------------------------------------------------------

  /** Reachable from refs, without trouble, and with its own references seen. */
  ghost predicate Explored(h: Heap, root: TypeId, refs: seq<Ref>, seen: set<Ref>, n: Ref) {
    Reaches(h, root, refs, n) && !Trouble(h, n) && forall r | r in Refs(h, n) && Relevant(h, root, r) :: r in seen
  }

  ghost predicate HasRefs(h: Heap, root: TypeId, refs: seq<Ref>, seen: set<Ref>) {
    forall r | r in refs && Relevant(h, root, r) :: r in seen
  }

  ghost predicate NewExplored(h: Heap, root: TypeId, refs: seq<Ref>, before: set<Ref>, seen: set<Ref>) {
    forall n | n in seen && n !in before :: Explored(h, root, refs, seen, n)
  }

  /** A search from refs that succeeds has seen all of refs and explored whatever is new. */
  ghost predicate Searched(h: Heap, root: TypeId, refs: seq<Ref>, before: set<Ref>, seen: set<Ref>) {
    before <= seen && HasRefs(h, root, refs, seen) && NewExplored(h, root, refs, before, seen)
  }

  ghost predicate InTrouble(h: Heap, root: TypeId, refs: seq<Ref>) {
    exists n :: Reaches(h, root, refs, n) && Trouble(h, n)
  }

  /** One more reference has been searched. */
  lemma OneMore(h: Heap, root: TypeId, refs: seq<Ref>, i: nat, before: set<Ref>, mid: set<Ref>, seen: set<Ref>)
    requires i < |refs| && before <= mid && HasRefs(h, root, refs[..i], mid) && NewExplored(h, root, refs, before, mid)
    requires Searched(h, root, [refs[i]], mid, seen)
    ensures before <= seen && HasRefs(h, root, refs[..i + 1], seen) && NewExplored(h, root, refs, before, seen)
  {
    assert refs[..i + 1] == refs[..i] + [refs[i]];
    forall n | n in seen && n !in before
      ensures Explored(h, root, refs, seen, n)
    {
      if n in mid {
        assert Explored(h, root, refs, mid, n);
      } else {
        assert Explored(h, root, [refs[i]], seen, n);
        ReachesMore(h, root, [refs[i]], refs, n);
      }
    }
  }

  lemma TroubleOfOne(h: Heap, root: TypeId, refs: seq<Ref>, i: nat)
    requires i < |refs| && InTrouble(h, root, [refs[i]])
    ensures InTrouble(h, root, refs)
  {
    var n :| Reaches(h, root, [refs[i]], n) && Trouble(h, n);
    ReachesMore(h, root, [refs[i]], refs, n);
  }

  /** The search from an object is the search from its references, and the object. */
  lemma Concluded(h: Heap, root: TypeId, r: Ref, before: set<Ref>, seen: set<Ref>, ok: bool)
    requires Relevant(h, root, r)
    requires ok ==> !Trouble(h, r) && Searched(h, root, Refs(h, r), before + {r}, seen)
    requires !ok ==> InTrouble(h, root, Refs(h, r))
    ensures ok ==> Searched(h, root, [r], before, seen)
    ensures !ok ==> InTrouble(h, root, [r])
  {
    ReachesStart(h, root, [r], r);
    if ok {
      forall n | n in seen && n !in before
        ensures Explored(h, root, [r], seen, n)
      {
        if n != r {
          assert Explored(h, root, Refs(h, r), seen, n);
          ReachesThrough(h, root, [r], r, n);
        }
      }
    } else {
      var n :| Reaches(h, root, Refs(h, r), n) && Trouble(h, n);
      ReachesThrough(h, root, [r], r, n);
    }
  }

  /** A successful search from the start has seen what is reachable and nothing else. */
  lemma SearchIsComplete(h: Heap, root: TypeId, start: seq<Ref>, seen: set<Ref>)
    requires Searched(h, root, start, {}, seen)
    ensures forall r :: Reaches(h, root, start, r) <==> r in seen
    ensures forall r | r in seen :: !Trouble(h, r)
  {
    assert forall n | n in seen :: Explored(h, root, start, seen, n);
    forall r
      ensures Reaches(h, root, start, r) <==> r in seen
    {
      if Reaches(h, root, start, r) {
        var p :| IsPath(h, root, p) && p[0] in start && p[|p| - 1] == r;
        ClosedHasAll(h, root, start, seen, p);
      }
    }
  }

  /** The dependencies are the visited types, each once, with their owning exports. */
  ghost predicate Listed(h: Heap, types: set<TypeId>, dependencies: seq<Dependency>) {
    && (forall i | 0 <= i < |dependencies| ::
          dependencies[i].t in types && OwningExport(h.modules, dependencies[i].t, 0) == Some(dependencies[i]))
    && (forall t | t in types :: IsListed(t, dependencies))
    && (forall i, j | 0 <= i < j < |dependencies| :: dependencies[i].t != dependencies[j].t)
  }

  ghost predicate IsListed(t: TypeId, dependencies: seq<Dependency>) {
    exists i :: 0 <= i < |dependencies| && dependencies[i].t == t
  }

  lemma ListedMore(h: Heap, types: set<TypeId>, dependencies: seq<Dependency>, d: Dependency)
    requires Listed(h, types, dependencies) && d.t !in types && OwningExport(h.modules, d.t, 0) == Some(d)
    ensures Listed(h, types + {d.t}, dependencies + [d])
  {
    forall t | t in types + {d.t}
      ensures IsListed(t, dependencies + [d])
    {
      if t == d.t {
        assert (dependencies + [d])[|dependencies|].t == t;
      } else {
        assert IsListed(t, dependencies);
        var i :| 0 <= i < |dependencies| && dependencies[i].t == t;
        assert (dependencies + [d])[i].t == t;
      }
    }
  }

  lemma OneFewer(all: set<nat>, visited: set<nat>, x: nat)
    requires x in all && x !in visited
    ensures |all - (visited + {x})| < |all - visited|
  {
    assert all - (visited + {x}) == (all - visited) - {x};
  }

  // ---- The search ------------------------------------------------------------------------------------------

  function SeenRefs(types: set<TypeId>, functions: set<FunctionId>): set<Ref> {
    (set t | t in types :: TypeRef(t)) + (set f | f in functions :: FunctionRef(f))
  }

  class Collector {
    const h: Heap
    const root: TypeId
    var visitedTypes: set<TypeId>
    var visitedFunctions: set<FunctionId>
    var dependencies: seq<Dependency>

    constructor (h: Heap, root: TypeId)
      ensures this.h == h && this.root == root && Valid() && Seen() == {}
    {
      this.h, this.root := h, root;
      visitedTypes, visitedFunctions, dependencies := {}, {}, [];
    }

    ghost predicate Valid()
      reads this
    {
      && visitedTypes <= h.types.Keys - {root} && visitedFunctions <= h.functions.Keys
      && Listed(h, visitedTypes, dependencies)
    }

    ghost function Seen(): set<Ref>
      reads this
    {
      SeenRefs(visitedTypes, visitedFunctions)
    }

    ghost function Unseen(): nat
      reads this
    {
      |h.types.Keys - visitedTypes| + |h.functions.Keys - visitedFunctions|
    }

    /** Everything the references lead to, in their order. */
    method CollectAll(refs: seq<Ref>) returns (ok: bool)
      requires Valid()
      modifies this`visitedTypes, this`visitedFunctions, this`dependencies
      ensures ok ==> Valid() && Searched(h, root, refs, old(Seen()), Seen())
      ensures !ok ==> InTrouble(h, root, refs)
      ensures Unseen() <= old(Unseen())
      decreases Unseen(), 2
    {
      var i := 0;
      while i < |refs|
        invariant 0 <= i <= |refs| && Valid() && Unseen() <= old(Unseen()) && old(Seen()) <= Seen()
        invariant HasRefs(h, root, refs[..i], Seen()) && NewExplored(h, root, refs, old(Seen()), Seen())
      {
        ghost var mid := Seen();
        ok := Collect(refs[i]);
        if !ok {
          TroubleOfOne(h, root, refs, i);
          return;
        }
        OneMore(h, root, refs, i, old(Seen()), mid, Seen());
        i := i + 1;
      }
      assert refs[..i] == refs;
      ok := true;
    }

    method Collect(r: Ref) returns (ok: bool)
      requires Valid()
      modifies this`visitedTypes, this`visitedFunctions, this`dependencies
      ensures ok ==> Valid() && Searched(h, root, [r], old(Seen()), Seen())
      ensures !ok ==> InTrouble(h, root, [r])
      ensures Unseen() <= old(Unseen())
      decreases Unseen(), 1
    {
      match r
      case Missing(_) =>
        ReachesStart(h, root, [r], r);
        ok := false;
      case TypeRef(t) =>
        ok := CollectType(t);
      case FunctionRef(f) =>
        ok := CollectFunction(f);
    }

    method Record(t: TypeId, dependency: Dependency)
      requires Valid() && t in h.types && t != root && t !in visitedTypes
      requires OwningExport(h.modules, t, 0) == Some(dependency)
      modifies this`visitedTypes, this`dependencies
      ensures Valid() && Seen() == old(Seen()) + {TypeRef(t)} && Unseen() < old(Unseen())
    {
      OneFewer(h.types.Keys, visitedTypes, t);
      ExportedIff(h.modules, t, 0);
      ListedMore(h, visitedTypes, dependencies, dependency);
      visitedTypes := visitedTypes + {t};
      dependencies := dependencies + [dependency];
      assert Seen() == old(Seen()) + {TypeRef(t)};
    }

    method CollectType(t: TypeId) returns (ok: bool)
      requires Valid()
      modifies this`visitedTypes, this`visitedFunctions, this`dependencies
      ensures ok ==> Valid() && Searched(h, root, [TypeRef(t)], old(Seen()), Seen())
      ensures !ok ==> InTrouble(h, root, [TypeRef(t)])
      ensures Unseen() <= old(Unseen())
      decreases Unseen(), 0
    {
      if t !in h.types || t == root || t in visitedTypes {
        return true;
      }
      var dependency := FindOwningExport(h.modules, t);
      if dependency.None? {
        OneFewer(h.types.Keys, visitedTypes, t);
        visitedTypes := visitedTypes + {t};
        ReachesStart(h, root, [TypeRef(t)], TypeRef(t));
        return false;
      }
      Record(t, dependency.value);
      ok := CollectAll(Refs(h, TypeRef(t)));
      Concluded(h, root, TypeRef(t), old(Seen()), Seen(), ok);
    }

    method CollectFunction(f: FunctionId) returns (ok: bool)
      requires Valid()
      modifies this`visitedTypes, this`visitedFunctions, this`dependencies
      ensures ok ==> Valid() && Searched(h, root, [FunctionRef(f)], old(Seen()), Seen())
      ensures !ok ==> InTrouble(h, root, [FunctionRef(f)])
      ensures Unseen() <= old(Unseen())
      decreases Unseen(), 0
    {
      if f !in h.functions || f in visitedFunctions {
        return true;
      }
      OneFewer(h.functions.Keys, visitedFunctions, f);
      visitedFunctions := visitedFunctions + {f};
      assert Seen() == old(Seen()) + {FunctionRef(f)};
      ok := CollectAll(Refs(h, FunctionRef(f)));
      Concluded(h, root, FunctionRef(f), old(Seen()), Seen(), ok);
    }
  }

  /** Either some reachable reference is in trouble, and that is found, or the result has
      every type reachable from the actor type exactly once, and never the actor type. */
  method CollectRemoteTypeDependencies(h: Heap, root: TypeId) returns (ok: bool, dependencies: seq<Dependency>)
    requires root in h.types
    ensures ok <==> !InTrouble(h, root, RootRefs(h, h.types[root]))
    ensures ok ==> forall t: TypeId ::
      IsListed(t, dependencies) <==> Reaches(h, root, RootRefs(h, h.types[root]), TypeRef(t))
    ensures ok ==> forall i, j | 0 <= i < j < |dependencies| :: dependencies[i].t != dependencies[j].t
    ensures ok ==> forall i | 0 <= i < |dependencies| ::
      dependencies[i].t != root && OwningExport(h.modules, dependencies[i].t, 0) == Some(dependencies[i])
  {
    var start := RootRefs(h, h.types[root]);
    var collector := new Collector(h, root);
    ok := collector.CollectAll(start);
    dependencies := collector.dependencies;
    if ok {
      Finished(h, root, start, collector.visitedTypes, collector.visitedFunctions, dependencies);
    }
  }

  lemma Finished(h: Heap, root: TypeId, start: seq<Ref>, types: set<TypeId>, functions: set<FunctionId>,
                 dependencies: seq<Dependency>)
    requires Listed(h, types, dependencies) && types <= h.types.Keys - {root}
    requires Searched(h, root, start, {}, SeenRefs(types, functions))
    ensures !InTrouble(h, root, start)
    ensures forall t: TypeId :: IsListed(t, dependencies) <==> Reaches(h, root, start, TypeRef(t))
    ensures forall i, j | 0 <= i < j < |dependencies| :: dependencies[i].t != dependencies[j].t
    ensures forall i | 0 <= i < |dependencies| ::
      dependencies[i].t != root && OwningExport(h.modules, dependencies[i].t, 0) == Some(dependencies[i])
  {
    var seen := SeenRefs(types, functions);
    SearchIsComplete(h, root, start, seen);
    forall t: TypeId
      ensures IsListed(t, dependencies) <==> TypeRef(t) in seen
    {
    }
  }
}
