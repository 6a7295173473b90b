/** Which types and functions an object refers to, told by where they occur in it. */
module TypeReferences {
  import opened Utils
  import opened TypeDependencies

  /** The named object types in a type expression: in the parameters and results of a function,
      and in the name, the supertypes, the properties and the methods of an object. */
  predicate Mentions(info: TypeInfo, name: string)
    decreases info, 5
  {
    || (info.func.Some? && SignatureMentions(info.func.value, name))
    || (info.declared.Some? && ObjectMentions(info.declared.value, name))
  }

  predicate SignatureMentions(s: Signature, name: string)
    decreases s, 3
  {
    || (exists i | 0 <= i < |s.params| :: Mentions(s.params[i], name))
    || (exists i | 0 <= i < |s.results| :: Mentions(s.results[i], name))
  }

  predicate ObjectMentions(o: ObjectInfo, name: string)
    decreases o, 4
  {
    || (o.name == name && name != "")
    || (exists i | 0 <= i < |o.supers| :: Mentions(o.supers[i], name))
    || (exists i | 0 <= i < |o.implements| :: Mentions(o.implements[i], name))
    || (exists i | 0 <= i < |o.properties| :: Mentions(o.properties[i], name))
    || (exists i | 0 <= i < |o.methods| :: SignatureMentions(o.methods[i], name))
  }

  ghost predicate SomeMentioned(h: Heap, m: ModuleId, infos: seq<TypeInfo>, r: Ref) {
    exists i, name | 0 <= i < |infos| :: Mentions(infos[i], name) && Named(h, m, name) == r
  }

  ghost predicate SomeInSignatures(h: Heap, m: ModuleId, signatures: seq<Signature>, r: Ref) {
    exists i, name | 0 <= i < |signatures| :: SignatureMentions(signatures[i], name) && Named(h, m, name) == r
  }

  lemma {:induction false} InfosRefsIff(h: Heap, m: ModuleId, infos: seq<TypeInfo>, r: Ref)
    ensures r in InfosRefs(h, m, infos) <==> SomeMentioned(h, m, infos, r)
    decreases infos, 2
  {
    if infos != [] {
      InfoRefsIff(h, m, infos[0], r);
      InfosRefsIff(h, m, infos[1..], r);
      if SomeMentioned(h, m, infos, r) {
        var i, name :| 0 <= i < |infos| && Mentions(infos[i], name) && Named(h, m, name) == r;
        assert i > 0 ==> infos[1..][i - 1] == infos[i];
      }
      if SomeMentioned(h, m, infos[1..], r) {
        var i, name :| 0 <= i < |infos[1..]| && Mentions(infos[1..][i], name) && Named(h, m, name) == r;
        assert infos[i + 1] == infos[1..][i];
      }
    }
  }

  lemma {:induction false} SignatureRefsIff(h: Heap, m: ModuleId, s: Signature, r: Ref)
    ensures r in SignatureRefs(h, m, s) <==> exists name :: SignatureMentions(s, name) && Named(h, m, name) == r
    decreases s, 3
  {
    InfosRefsIff(h, m, s.params, r);
    InfosRefsIff(h, m, s.results, r);
  }

  lemma {:induction false} SignaturesRefsIff(h: Heap, m: ModuleId, signatures: seq<Signature>, r: Ref)
    ensures r in SignaturesRefs(h, m, signatures) <==> SomeInSignatures(h, m, signatures, r)
    decreases signatures, 2
  {
    if signatures != [] {
      SignatureRefsIff(h, m, signatures[0], r);
      SignaturesRefsIff(h, m, signatures[1..], r);
      if SomeInSignatures(h, m, signatures, r) {
        var i, name :| 0 <= i < |signatures| && SignatureMentions(signatures[i], name) && Named(h, m, name) == r;
        assert i > 0 ==> signatures[1..][i - 1] == signatures[i];
      }
      if SomeInSignatures(h, m, signatures[1..], r) {
        var i, name :| 0 <= i < |signatures[1..]| && SignatureMentions(signatures[1..][i], name)
                       && Named(h, m, name) == r;
        assert signatures[i + 1] == signatures[1..][i];
      }
    }
  }

  lemma {:induction false} ObjectRefsIff(h: Heap, m: ModuleId, o: ObjectInfo, r: Ref)
    ensures r in ObjectRefs(h, m, o) <==> exists name :: ObjectMentions(o, name) && Named(h, m, name) == r
    decreases o, 4
  {
    InfosRefsIff(h, m, o.supers, r);
    InfosRefsIff(h, m, o.implements, r);
    InfosRefsIff(h, m, o.properties, r);
    SignaturesRefsIff(h, m, o.methods, r);
    if o.name != "" && r == Named(h, m, o.name) {
      assert ObjectMentions(o, o.name);
    }
  }

  /** A type expression refers to what the names in it stand for in the module. */
  lemma {:induction false} InfoRefsIff(h: Heap, m: ModuleId, info: TypeInfo, r: Ref)
    ensures r in InfoRefs(h, m, info) <==> exists name :: Mentions(info, name) && Named(h, m, name) == r
    decreases info, 5
  {
    if info.func.Some? {
      SignatureRefsIff(h, m, info.func.value, r);
    }
    if info.declared.Some? {
      ObjectRefsIff(h, m, info.declared.value, r);
    }
  }

  // ---- Objects on the heap -------------------------------------------------------------------------------

  lemma {:induction false} PropertiesRefsIff(properties: seq<Property>, r: Ref)
    ensures r in PropertiesRefs(properties) <==>
      exists i | 0 <= i < |properties| :: r in Optional(properties[i].valueType) || r in Optional(properties[i].owner)
    decreases properties
  {
    if properties != [] {
      PropertiesRefsIff(properties[1..], r);
      assert forall i | 0 <= i < |properties[1..]| :: properties[1..][i] == properties[i + 1];
      assert forall i | 0 < i < |properties| :: properties[i] == properties[1..][i - 1];
    }
  }

  lemma {:induction false} MethodsRefsIff(methods: seq<Method>, r: Ref)
    ensures r in MethodsRefs(methods) <==>
      exists i | 0 <= i < |methods| ::
        r in Optional(methods[i].owner) || (methods[i].body.Some? && r == FunctionRef(methods[i].body.value))
    decreases methods
  {
    if methods != [] {
      MethodsRefsIff(methods[1..], r);
      assert forall i | 0 <= i < |methods[1..]| :: methods[1..][i] == methods[i + 1];
      assert forall i | 0 < i < |methods| :: methods[i] == methods[1..][i - 1];
    }
  }

  /** A type refers to its supertype, to the types and owners of its properties, and to the
      owners and functions of its methods. */
  lemma TypeRefsIff(o: TypeObject, r: Ref)
    ensures r in TypeRefs(o) <==>
      || (o.superType.Some? && r == TypeRef(o.superType.value))
      || (exists i | 0 <= i < |o.properties| ::
            r in Optional(o.properties[i].valueType) || r in Optional(o.properties[i].owner))
      || (exists i | 0 <= i < |o.methods| ::
            r in Optional(o.methods[i].owner) || (o.methods[i].body.Some? && r == FunctionRef(o.methods[i].body.value)))
  {
    PropertiesRefsIff(o.properties, r);
    MethodsRefsIff(o.methods, r);
  }

  lemma {:induction false} ConstantsRefsIff(constants: seq<Constant>, r: Ref)
    ensures r in ConstantsRefs(constants) <==>
      || (r.FunctionRef? && FunctionConstant(r.f) in constants)
      || (r.TypeRef? && TypeConstant(r.t) in constants)
    decreases constants
  {
    if constants != [] {
      ConstantsRefsIff(constants[1..], r);
      assert constants == [constants[0]] + constants[1..];
    }
  }

  /** A function refers to the types its signature names in its own module, to its owner, to
      the functions and types among its constants and to the functions of its defaults. */
  lemma FunctionRefsIff(h: Heap, f: FunctionObject, r: Ref)
    ensures r in FunctionRefs(h, f) <==>
      || (f.signature.Some? &&
          exists name :: Mentions(f.signature.value, name) && Named(h, f.owningModule, name) == r)
      || (f.owner.Some? && r == TypeRef(f.owner.value))
      || (r.FunctionRef? && (FunctionConstant(r.f) in f.constants || r.f in f.defaults))
      || (r.TypeRef? && TypeConstant(r.t) in f.constants)
  {
    if f.signature.Some? {
      InfoRefsIff(h, f.owningModule, f.signature.value, r);
    }
    ConstantsRefsIff(f.constants, r);
    var defaults := seq(|f.defaults|, i requires 0 <= i < |f.defaults| => FunctionRef(f.defaults[i]));
    assert forall i | 0 <= i < |f.defaults| :: defaults[i] == FunctionRef(f.defaults[i]);
  }

  lemma {:induction false} ValueTypesIff(properties: seq<Property>, r: Ref)
    ensures r in ValueTypes(properties) <==>
      exists i | 0 <= i < |properties| :: r in Optional(properties[i].valueType)
    decreases properties
  {
    if properties != [] {
      ValueTypesIff(properties[1..], r);
      assert forall i | 0 <= i < |properties[1..]| :: properties[1..][i] == properties[i + 1];
      assert forall i | 0 < i < |properties| :: properties[i] == properties[1..][i - 1];
    }
  }

  lemma {:induction false} MethodFunctionsIff(methods: seq<Method>, r: Ref)
    ensures r in MethodFunctions(methods) <==>
      exists i | 0 <= i < |methods| :: methods[i].body.Some? && r == FunctionRef(methods[i].body.value)
    decreases methods
  {
    if methods != [] {
      MethodFunctionsIff(methods[1..], r);
      assert forall i | 0 <= i < |methods[1..]| :: methods[1..][i] == methods[i + 1];
      assert forall i | 0 < i < |methods| :: methods[i] == methods[1..][i - 1];
    }
  }

  /** Module k is the first with its number and exports type t for the actor. */
  predicate ExportedFor(modules: seq<Module>, m: ModuleId, t: TypeId, k: nat) {
    k < |modules| && modules[k].id == m && (forall j | 0 <= j < k :: modules[j].id != m)
    && !modules[k].builtin && exists i | 0 <= i < |modules[k].exports| :: modules[k].exports[i].t == t
  }

  lemma {:induction false} ModuleExportsIff(modules: seq<Module>, m: ModuleId, r: Ref)
    ensures r in ModuleExports(modules, m) <==>
      r.TypeRef? && exists k | 0 <= k < |modules| :: ExportedFor(modules, m, r.t, k)
    decreases modules
  {
    if modules != [] {
      var tail := modules[1..];
      assert forall k | 0 <= k < |tail| :: tail[k] == modules[k + 1];
      if modules[0].id == m {
        var refs := ExportRefs(modules[0].exports);
        assert forall i | 0 <= i < |refs| :: refs[i] == TypeRef(modules[0].exports[i].t);
        if r in ModuleExports(modules, m) {
          assert ExportedFor(modules, m, r.t, 0);
        }
      } else {
        ModuleExportsIff(tail, m, r);
        if r in ModuleExports(tail, m) {
          var k :| 0 <= k < |tail| && ExportedFor(tail, m, r.t, k);
          assert ExportedFor(modules, m, r.t, k + 1);
        }
        if r.TypeRef? && exists k | 0 <= k < |modules| :: ExportedFor(modules, m, r.t, k) {
          var k :| 0 <= k < |modules| && ExportedFor(modules, m, r.t, k);
          assert ExportedFor(tail, m, r.t, k - 1);
        }
      }
    }
  }

  lemma {:induction false} OwnerExportsIff(h: Heap, methods: seq<Method>, r: Ref)
    ensures r in OwnerExports(h, methods) <==>
      exists i | 0 <= i < |methods| ::
        methods[i].body.Some? && methods[i].body.value in h.functions
        && r in ModuleExports(h.modules, h.functions[methods[i].body.value].owningModule)
    decreases methods
  {
    if methods != [] {
      OwnerExportsIff(h, methods[1..], r);
      assert forall i | 0 <= i < |methods[1..]| :: methods[1..][i] == methods[i + 1];
      assert forall i | 0 < i < |methods| :: methods[i] == methods[1..][i - 1];
    }
  }

  /** The search for an actor starts from its supertype, the types of its properties, the
      functions of its methods, and all that their modules export. */
  lemma RootRefsIff(h: Heap, o: TypeObject, r: Ref)
    ensures r in RootRefs(h, o) <==>
      || (o.superType.Some? && r == TypeRef(o.superType.value))
      || (exists i | 0 <= i < |o.properties| :: r in Optional(o.properties[i].valueType))
      || (exists i | 0 <= i < |o.methods| ::
            o.methods[i].body.Some? && r == FunctionRef(o.methods[i].body.value))
      || (exists i | 0 <= i < |o.methods| ::
            o.methods[i].body.Some? && o.methods[i].body.value in h.functions
            && r in ModuleExports(h.modules, h.functions[o.methods[i].body.value].owningModule))
  {
    ValueTypesIff(o.properties, r);
    MethodFunctionsIff(o.methods, r);
    OwnerExportsIff(h, o.methods, r);
  }
}
