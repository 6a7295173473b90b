/** Cutting the damaged declarations out of a parse tree that error recovery has left. */
module TreePruning {

  /** Lists are whole files and suites. */
  datatype Kind = List | Declaration | Import | Other

  datatype Tree =
    | Token
    | ErrorToken
    | Node(kind: Kind, failed: bool, children: seq<Tree>)

  // ---- Damage and pruning -----------------------------------------------------------------------------------

  /** No error leaf and no failed rule anywhere. */
  predicate Intact(t: Tree) {
    match t
    case Token => true
    case ErrorToken => false
    case Node(_, failed, children) => !failed && AllIntact(children)
  }

  predicate AllIntact(ts: seq<Tree>) {
    forall i | 0 <= i < |ts| :: Intact(ts[i])
  }

  predicate IsDeclaration(t: Tree) { t.Node? && (t.kind == Declaration || t.kind == Import) }

  predicate Droppable(t: Tree) { t.ErrorToken? || IsDeclaration(t) }

  /** u is t with some error leaves and declarations taken out of lists, at any depth. */
  predicate Prunes(t: Tree, u: Tree)
    decreases t, 1
  {
    match t
    case Token => u == Token
    case ErrorToken => u == ErrorToken
    case Node(kind, failed, children) =>
      && u.Node? && u.kind == kind && u.failed == failed
      && if kind == List then ListPrunes(children, u.children) else EachPrunes(children, u.children)
  }

  predicate ListPrunes(ts: seq<Tree>, us: seq<Tree>)
    decreases ts, 0
  {
    if ts == [] then us == []
    else
      || (Droppable(ts[0]) && ListPrunes(ts[1..], us))
      || (us != [] && Prunes(ts[0], us[0]) && ListPrunes(ts[1..], us[1..]))
  }

  predicate EachPrunes(ts: seq<Tree>, us: seq<Tree>)
    decreases ts, 0
  {
    if ts == [] then us == [] else us != [] && Prunes(ts[0], us[0]) && EachPrunes(ts[1..], us[1..])
  }

  // ---- What the pruner does -----------------------------------------------------------------------------------

  datatype Pruned<T> = Pruned(value: T, clean: bool)

  /** The verdict on a subtree, and the subtree with the suites pruned that were visited
      before the verdict. */
  function Clean(t: Tree): Pruned<Tree>
    decreases t, 1
  {
    match t
    case Token => Pruned(t, true)
    case ErrorToken => Pruned(t, false)
    case Node(kind, failed, children) =>
      if kind == List then
        var r := CleanList(children);
        Pruned(Node(kind, failed, r.value), r.clean && !failed)
      else if failed then Pruned(t, false)
      else
        var r := CleanEach(children);
        Pruned(Node(kind, failed, r.value), r.clean)
  }

  function CleanList(ts: seq<Tree>): Pruned<seq<Tree>>
    decreases ts, 0
  {
    if ts == [] then Pruned([], true)
    else if ts[0].ErrorToken? then CleanList(ts[1..])
    else
      var first := Clean(ts[0]);
      if first.clean then
        var rest := CleanList(ts[1..]);
        Pruned([first.value] + rest.value, rest.clean)
      else if IsDeclaration(ts[0]) then CleanList(ts[1..])
      else Pruned([first.value] + ts[1..], false)
  }

  function CleanEach(ts: seq<Tree>): Pruned<seq<Tree>>
    decreases ts, 0
  {
    if ts == [] then Pruned([], true)
    else
      var first := Clean(ts[0]);
      if first.clean then
        var rest := CleanEach(ts[1..]);
        Pruned([first.value] + rest.value, rest.clean)
      else Pruned([first.value] + ts[1..], false)
  }

  function After(ts: seq<Tree>, r: Pruned<seq<Tree>>): Pruned<seq<Tree>> { Pruned(ts + r.value, r.clean) }

  lemma AfterNothing(r: Pruned<seq<Tree>>)
    ensures After([], r) == r
  {
    assert [] + r.value == r.value;
  }

  lemma AfterOne(ts: seq<Tree>, t: Tree, r: Pruned<seq<Tree>>)
    ensures After(ts, After([t], r)) == After(ts + [t], r)
  {
    assert ts + ([t] + r.value) == ts + [t] + r.value;
  }

  /** What the child at k adds to the cleaning of those from k on. */
  lemma CleanListFrom(ts: seq<Tree>, k: nat)
    requires k < |ts|
    ensures CleanList(ts[k..]) ==
      var rest := CleanList(ts[k + 1..]);
      var first := Clean(ts[k]);
      if ts[k].ErrorToken? || (!first.clean && IsDeclaration(ts[k])) then rest
      else if first.clean then After([first.value], rest)
      else Pruned([first.value] + ts[k + 1..], false)
  {
    assert ts[k..][0] == ts[k] && ts[k..][1..] == ts[k + 1..];
  }

  lemma EraseAt(children: seq<Tree>, i: nat)
    requires i < |children|
    ensures var erased := children[..i] + children[i + 1..];
      erased[..i] == children[..i] && erased[i..] == children[i..][1..]
  {
  }

  lemma ReplaceAt(children: seq<Tree>, i: nat, child: Tree)
    requires i < |children|
    ensures var replaced := children[i := child];
      && replaced == children[..i] + ([child] + children[i..][1..])
      && replaced[..i + 1] == children[..i] + [child] && replaced[i + 1..] == children[i..][1..]
  {
  }

  /** The list of children is edited while it is walked. */
  method PruneDeclarationList(t: Tree) returns (t': Tree, clean: bool)
    requires t.Node? && t.kind == List
    ensures Pruned(t', clean) == Clean(t)
    decreases t, 0
  {
    var children := t.children;
    ghost var k := 0;
    var i := 0;
    AfterNothing(CleanList(t.children));
    assert t.children[0..] == t.children;
    while i < |children|
      invariant 0 <= i <= |children| && 0 <= k <= |t.children| && children[i..] == t.children[k..]
      invariant CleanList(t.children) == After(children[..i], CleanList(t.children[k..]))
      decreases |t.children| - k
    {
      assert children[i] == t.children[k] && children[i..][1..] == t.children[k + 1..];
      CleanListFrom(t.children, k);
      EraseAt(children, i);
      if children[i].ErrorToken? {
        children := children[..i] + children[i + 1..];
        k := k + 1;
        continue;
      }
      var child, ok := SubtreeClean(children[i]);
      AfterOne(children[..i], child, CleanList(t.children[k + 1..]));
      ReplaceAt(children, i, child);
      if !ok && IsDeclaration(children[i]) {
        children := children[..i] + children[i + 1..];
        k := k + 1;
        continue;
      }
      children := children[i := child];
      if !ok {
        return t.(children := children), false;
      }
      i := i + 1;
      k := k + 1;
    }
    assert children[..i] + [] == children;
    t', clean := t.(children := children), !t.failed;
  }

  method SubtreeClean(t: Tree) returns (t': Tree, clean: bool)
    ensures Pruned(t', clean) == Clean(t)
    decreases t, 1
  {
    t' := t;
    if t.ErrorToken? {
      return t, false;
    }
    if t.Token? {
      return t, true;
    }
    if t.kind == List {
      t', clean := PruneDeclarationList(t);
      return;
    }
    if t.failed {
      return t, false;
    }
    var children;
    children, clean := CleanChildren(t.children);
    t' := t.(children := children);
  }

  /** Stops at the first child that is not clean. */
  method CleanChildren(ts: seq<Tree>) returns (children: seq<Tree>, clean: bool)
    ensures Pruned(children, clean) == CleanEach(ts)
    decreases ts, 0
  {
    children := [];
    var i := 0;
    AfterNothing(CleanEach(ts));
    assert ts[0..] == ts;
    while i < |ts|
      invariant 0 <= i <= |ts|
      invariant CleanEach(ts) == After(children, CleanEach(ts[i..]))
    {
      EachStep(ts, i);
      var child, ok := SubtreeClean(ts[i]);
      if !ok {
        return children + ([child] + ts[i + 1..]), false;
      }
      AfterOne(children, child, CleanEach(ts[i + 1..]));
      children := children + [child];
      i := i + 1;
    }
    assert children + [] == children;
    clean := true;
  }

  lemma EachStep(ts: seq<Tree>, i: nat)
    requires i < |ts|
    ensures var r := Clean(ts[i]);
      CleanEach(ts[i..]) ==
        if r.clean then After([r.value], CleanEach(ts[i + 1..])) else Pruned([r.value] + ts[i + 1..], false)
  {
    assert ts[i..][0] == ts[i] && ts[i..][1..] == ts[i + 1..];
  }

  // ---- Soundness ----------------------------------------------------------------------------------------------

  /** The verdict is whether the pruned tree is intact; only error leaves and declarations in
      lists have gone. */
  lemma {:induction false} CleanIsIntact(t: Tree)
    ensures Clean(t).clean <==> Intact(Clean(t).value)
    ensures Prunes(t, Clean(t).value)
    decreases t, 1
  {
    if t.Node? {
      if t.kind == List {
        ListIsIntact(t.children);
      } else if !t.failed {
        EachIsIntact(t.children);
      } else {
        EachPrunesItself(t.children);
      }
    }
  }

  lemma {:induction false} ListIsIntact(ts: seq<Tree>)
    ensures CleanList(ts).clean <==> AllIntact(CleanList(ts).value)
    ensures ListPrunes(ts, CleanList(ts).value)
    decreases ts, 0
  {
    if ts != [] {
      ListIsIntact(ts[1..]);
      CleanIsIntact(ts[0]);
      if Clean(ts[0]).clean {
        IntactCons(Clean(ts[0]).value, CleanList(ts[1..]).value);
      } else if !Droppable(ts[0]) {
        IntactCons(Clean(ts[0]).value, ts[1..]);
        ListPrunesItself(ts[1..]);
      }
    }
  }

  lemma {:induction false} EachIsIntact(ts: seq<Tree>)
    ensures CleanEach(ts).clean <==> AllIntact(CleanEach(ts).value)
    ensures EachPrunes(ts, CleanEach(ts).value)
    decreases ts, 0
  {
    if ts != [] {
      EachIsIntact(ts[1..]);
      CleanIsIntact(ts[0]);
      IntactCons(Clean(ts[0]).value, if Clean(ts[0]).clean then CleanEach(ts[1..]).value else ts[1..]);
      EachPrunesItself(ts[1..]);
    }
  }

  lemma IntactCons(t: Tree, ts: seq<Tree>)
    ensures AllIntact([t] + ts) <==> Intact(t) && AllIntact(ts)
  {
    assert forall i {:trigger ts[i]} | 0 <= i < |ts| :: ([t] + ts)[i + 1] == ts[i];
    assert ([t] + ts)[0] == t;
  }

  lemma {:induction false} PrunesItself(t: Tree)
    ensures Prunes(t, t)
    decreases t, 1
  {
    if t.Node? {
      if t.kind == List {
        ListPrunesItself(t.children);
      } else {
        EachPrunesItself(t.children);
      }
    }
  }

  lemma {:induction false} ListPrunesItself(ts: seq<Tree>)
    ensures ListPrunes(ts, ts)
    decreases ts, 0
  {
    if ts != [] {
      PrunesItself(ts[0]);
      ListPrunesItself(ts[1..]);
    }
  }

  lemma {:induction false} EachPrunesItself(ts: seq<Tree>)
    ensures EachPrunes(ts, ts)
    decreases ts, 0
  {
    if ts != [] {
      PrunesItself(ts[0]);
      EachPrunesItself(ts[1..]);
    }
  }

  // ---- Nothing more than needed goes -------------------------------------------------------------------------

  /** An intact tree that can be pruned out of t can be pruned out of what the pruner leaves,
      and the pruner finds that clean. */
  lemma {:induction false} CleanIsGreatest(t: Tree, u: Tree)
    requires Prunes(t, u) && Intact(u)
    ensures Clean(t).clean && Prunes(Clean(t).value, u)
    decreases t, 1
  {
    if t.Node? {
      if t.kind == List {
        ListIsGreatest(t.children, u.children);
      } else {
        EachIsGreatest(t.children, u.children);
      }
    }
  }

  lemma {:induction false} ListIsGreatest(ts: seq<Tree>, us: seq<Tree>)
    requires ListPrunes(ts, us) && AllIntact(us)
    ensures CleanList(ts).clean && ListPrunes(CleanList(ts).value, us)
    decreases ts, 0
  {
    if ts != [] {
      if Droppable(ts[0]) && ListPrunes(ts[1..], us) {
        ListIsGreatest(ts[1..], us);
        KindStays(ts[0]);
      } else {
        assert Intact(us[0]);
        CleanIsGreatest(ts[0], us[0]);
        ListIsGreatest(ts[1..], us[1..]);
        CleanIsIntact(ts[0]);
      }
    }
  }

  lemma KindStays(t: Tree)
    ensures IsDeclaration(t) <==> IsDeclaration(Clean(t).value)
    ensures t.ErrorToken? <==> Clean(t).value.ErrorToken?
  {
  }

  lemma {:induction false} EachIsGreatest(ts: seq<Tree>, us: seq<Tree>)
    requires EachPrunes(ts, us) && AllIntact(us)
    ensures CleanEach(ts).clean && EachPrunes(CleanEach(ts).value, us)
    decreases ts, 0
  {
    if ts != [] {
      assert Intact(us[0]);
      CleanIsGreatest(ts[0], us[0]);
      EachIsGreatest(ts[1..], us[1..]);
    }
  }

  /** A tree can be made intact by dropping error leaves and declarations from lists exactly
      when the pruner says so, and then the pruner drops as little as possible. */
  lemma PrunerIsBest(t: Tree)
    ensures Clean(t).clean <==> exists u :: Prunes(t, u) && Intact(u)
    ensures forall u | Prunes(t, u) && Intact(u) :: Prunes(Clean(t).value, u)
  {
    CleanIsIntact(t);
    forall u | Prunes(t, u) && Intact(u)
      ensures Clean(t).clean && Prunes(Clean(t).value, u)
    {
      CleanIsGreatest(t, u);
    }
  }

  /** An intact tree is left alone. */
  lemma {:induction false} IntactIsLeft(t: Tree)
    requires Intact(t)
    ensures Clean(t) == Pruned(t, true)
    decreases t, 1
  {
    if t.Node? {
      IntactListIsLeft(t.children);
    }
  }

  lemma {:induction false} IntactListIsLeft(ts: seq<Tree>)
    requires AllIntact(ts)
    ensures CleanList(ts) == Pruned(ts, true) && CleanEach(ts) == Pruned(ts, true)
    decreases ts, 0
  {
    if ts != [] {
      assert Intact(ts[0]);
      IntactIsLeft(ts[0]);
      IntactListIsLeft(ts[1..]);
      assert [ts[0]] + ts[1..] == ts;
    }
  }

  /** Pruning a pruned tree changes nothing and gives the same verdict, whatever it was. */
  lemma {:induction false} PruningTwice(t: Tree)
    ensures Clean(Clean(t).value) == Clean(t)
    decreases t, 1
  {
    if t.Node? {
      if t.kind == List {
        ListTwice(t.children);
      } else if !t.failed {
        EachTwice(t.children);
      }
    }
  }

  lemma {:induction false} ListTwice(ts: seq<Tree>)
    ensures CleanList(CleanList(ts).value) == CleanList(ts)
    decreases ts, 0
  {
    if ts != [] {
      ListTwice(ts[1..]);
      PruningTwice(ts[0]);
      KindStays(ts[0]);
      var r := Clean(ts[0]);
      if ts[0].ErrorToken? || (!r.clean && IsDeclaration(ts[0])) {
        assert CleanList(ts) == CleanList(ts[1..]);
      } else if r.clean {
        AgainCons(r.value, CleanList(ts[1..]).value);
      } else {
        AgainCons(r.value, ts[1..]);
      }
    }
  }

  /** How a list is pruned whose first member has been cleaned already. */
  lemma AgainCons(t: Tree, ts: seq<Tree>)
    requires Clean(t).value == t && !t.ErrorToken?
    ensures Clean(t).clean ==> CleanList([t] + ts) == After([t], CleanList(ts))
    ensures !Clean(t).clean && !IsDeclaration(t) ==> CleanList([t] + ts) == Pruned([t] + ts, false)
  {
    assert ([t] + ts)[0] == t && ([t] + ts)[1..] == ts;
  }

  lemma {:induction false} EachTwice(ts: seq<Tree>)
    ensures CleanEach(CleanEach(ts).value) == CleanEach(ts)
    decreases ts, 0
  {
    if ts != [] {
      EachTwice(ts[1..]);
      PruningTwice(ts[0]);
      var r := Clean(ts[0]);
      var rest := if r.clean then CleanEach(ts[1..]).value else ts[1..];
      assert ([r.value] + rest)[1..] == rest;
    }
  }

  /** Of a list's children that cannot be made clean, declarations and imports go, and any
      other one spoils the list; a stray error leaf goes. */
  lemma DamagedChild(t: Tree)
    requires !Clean(t).clean
    ensures CleanList([t]) ==
      if t.ErrorToken? || (t.Node? && (t.kind == Declaration || t.kind == Import)) then Pruned([], true)
      else Pruned([Clean(t).value], false)
  {
    assert [t][1..] == [] && [Clean(t).value] + [] == [Clean(t).value];
  }
}
