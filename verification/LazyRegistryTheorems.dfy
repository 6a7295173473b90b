/** Loading on first import: one shared instance, and deadlock exactly where imports cycle. */
module LazyRegistryTheorems {
  import opened Utils
  import opened LazyRegistry

  ghost predicate Reachable(g: Imports, names: set<Name>, threads: nat, s: State) {
    exists steps :: Exec(g, Init(names, threads), steps) == Some(s)
  }

  /** Modules and threads stay; what has been created, logged or has failed stays on record. */
  predicate Grows(s: State, s': State) {
    && s'.entries.Keys == s.entries.Keys && |s'.threads| == |s.threads|
    && s.created <= s'.created && s.log <= s'.log && s.failed <= s'.failed
  }

  lemma StepGrows(g: Imports, s: State, x: Step)
    requires Apply(g, s, x).Some?
    ensures Grows(s, Apply(g, s, x).value)
  {
  }

  lemma {:induction false} RunKeeps(g: Imports, s: State, steps: seq<Step>)
    requires Inv(g, s) && Exec(g, s, steps).Some?
    ensures Inv(g, Exec(g, s, steps).value) && Grows(s, Exec(g, s, steps).value)
    decreases |steps|
  {
    if steps != [] {
      StepKeeps(g, s, steps[0]);
      StepGrows(g, s, steps[0]);
      RunKeeps(g, Apply(g, s, steps[0]).value, steps[1..]);
    }
  }

  lemma ReachableInv(g: Imports, names: set<Name>, threads: nat, s: State)
    requires Reachable(g, names, threads, s)
    ensures Inv(g, s) && s.entries.Keys == names && |s.threads| == threads
  {
    var steps :| Exec(g, Init(names, threads), steps) == Some(s);
    InitInv(g, names, threads);
    RunKeeps(g, Init(names, threads), steps);
  }

  // ---- One instance for all ----------------------------------------------------------------------------

  /** A loaded module stays loaded with the instance it has. */
  lemma {:induction false} LoadedIsFinal(g: Imports, s: State, steps: seq<Step>, m: Name)
    requires Inv(g, s) && Exec(g, s, steps).Some? && m in s.entries && s.entries[m].loaded
    ensures var s' := Exec(g, s, steps).value;
      m in s'.entries && s'.entries[m].loaded && s'.entries[m].instance == s.entries[m].instance
    decreases |steps|
  {
    if steps != [] {
      var s' := Apply(g, s, steps[0]).value;
      var t := steps[0].thread;
      if Busy(s, t) {
        Here(g, s, t);
      }
      StepKeeps(g, s, steps[0]);
      LoadedIsFinal(g, s', steps[1..], m);
    }
  }

  /** An instance that a call returned is the one its module is loaded with, then and ever
      after, exactly when the call did not see the factory return nothing. */
  lemma LoadedIffNotNulled(g: Imports, names: set<Name>, threads: nat, s: State, i: nat)
    requires Reachable(g, names, threads, s) && i < |s.log| && s.log[i].outcome.Returned?
    requires s.log[i].outcome.instance.Some?
    ensures var v := s.log[i];
      v.name in s.entries
      && (s.entries[v.name].loaded && s.entries[v.name].instance == v.outcome.instance <==> !v.nulled)
  {
    ReachableInv(g, names, threads, s);
    assert EventOk(s, s.log[i]);
  }

  /** At the moment a call fetches its result, the module is loaded exactly when the call did
      not see the factory return nothing. */
  lemma FetchedIsLoadedIff(g: Imports, names: set<Name>, threads: nat, s: State, t: nat)
    requires Reachable(g, names, threads, s) && GetResultStep(s, t).Some?
    ensures s.entries[Top(s, t).name].loaded <==> !Top(s, t).nulled
  {
    ReachableInv(g, names, threads, s);
    Here(g, s, t);
  }

  /** Two instances returned for a module by calls that saw no factory return nothing are the
      same; one such and one returned by another call never are. */
  lemma CallersShareTheInstance(g: Imports, names: set<Name>, threads: nat, s: State, i: nat, j: nat)
    requires Reachable(g, names, threads, s) && i < |s.log| && j < |s.log| && s.log[i].name == s.log[j].name
    requires forall k | k == i || k == j :: s.log[k].outcome.Returned? && s.log[k].outcome.instance.Some?
    requires !s.log[i].nulled
    ensures s.log[i].outcome == s.log[j].outcome <==> !s.log[j].nulled
  {
    LoadedIffNotNulled(g, names, threads, s, i);
    LoadedIffNotNulled(g, names, threads, s, j);
  }

  /** Why a call returned nothing or threw: nothing is returned for a module that is not
      registered, and otherwise only when the factory returned nothing; a call throws only for
      a registered module a load of which has failed. */
  lemma ResultsAreExplained(g: Imports, names: set<Name>, threads: nat, s: State, i: nat)
    requires Reachable(g, names, threads, s) && i < |s.log|
    ensures var v := s.log[i];
      && (v.name !in names ==> v.outcome == Returned(None))
      && (v.name in names && v.outcome == Returned(None) ==> v.nulled && v.name in s.failed)
      && (v.outcome.Threw? ==> v.name in names && v.name in s.failed)
  {
    ReachableInv(g, names, threads, s);
    assert EventOk(s, s.log[i]);
  }

  /** A module no load of which has failed is created at most once, and every instance
      returned for it is that one, fully loaded. */
  lemma CreatedOnce(g: Imports, names: set<Name>, threads: nat, s: State, m: Name)
    requires Reachable(g, names, threads, s) && m in names && m !in s.failed
    ensures forall i, j | 0 <= i < |s.created| && 0 <= j < |s.created| && s.created[i] == m && s.created[j] == m ::
      i == j
    ensures forall k | 0 <= k < |s.log| && s.log[k].name == m && s.log[k].outcome.Returned?
                       && s.log[k].outcome.instance.Some? ::
      m in s.entries && s.entries[m].loaded && s.entries[m].instance == s.log[k].outcome.instance
  {
    ReachableInv(g, names, threads, s);
    assert EntryOk(s, m);
    if s.entries[m].instance.Some? {
      assert OnlyAt(s.created, m, s.entries[m].instance.value);
    }
    forall k | 0 <= k < |s.log| && s.log[k].name == m && s.log[k].outcome.Returned? && s.log[k].outcome.instance.Some?
      ensures s.entries[m].loaded && s.entries[m].instance == s.log[k].outcome.instance
    {
      assert EventOk(s, s.log[k]);
    }
  }

  /** After a load that threw, a second one whose factory returns nothing hands out the first
      one's instance, which is not loaded. */
  lemma HalfLoadedIsReturned(m: Name)
    ensures exists s :: Reachable(map[], {m}, 1, s) && HandsOutHalfLoaded(s, m)
  {
    var g: Imports := map[];
    var half := Entry(Some(0), false, None);
    var first := LoadThrows(g, m);
    var second := LoadYieldsNothing(g, m, half, [m], {m}, [Event(m, Threw, false)]);
    ExecTwo(g, Init({m}, 1), first, second);
    var s := Exec(g, Init({m}, 1), first + second).value;
    assert s.log[1] == Event(m, Returned(Some(0)), true);
    assert Reachable(g, {m}, 1, s);
  }

  predicate HandsOutHalfLoaded(s: State, m: Name) {
    m in s.entries && !s.entries[m].loaded && Event(m, Returned(Some(0)), true) in s.log
  }

  /** One thread and one module. */
  function Lone(m: Name, stack: seq<Frame>, e: Entry, created: seq<Name>, failed: set<Name>, log: seq<Event>): State {
    State(map[m := e], [stack], created, failed, log)
  }

  /** The building blocks of steps, for one thread in one call. */
  lemma LoneSteps(m: Name, f: Frame, e: Entry, created: seq<Name>, failed: set<Name>, log: seq<Event>)
    requires f.name == m
    ensures forall pc ::
      Goto(Lone(m, [f], e, created, failed, log), 0, pc) == Lone(m, [f.(pc := pc)], e, created, failed, log)
    ensures forall o ::
      Leave(Lone(m, [f], e, created, failed, log), 0, o)
        == Lone(m, [], e, created, failed, log + [Event(m, o, f.nulled)])
    ensures forall stack, e' ::
      Update(Lone(m, stack, e, created, failed, log), m, e') == Lone(m, stack, e', created, failed, log)
    ensures Depth(Lone(m, [f], e, created, failed, log), 0) == 0 && Top(Lone(m, [f], e, created, failed, log), 0) == f
    ensures forall f': Frame :: [[f]][0 := [f][0 := f']] == [[f']]
  {
    assert [f][..0] == [];
    forall f': Frame
      ensures [[f]][0 := [f][0 := f']] == [[f']]
    {
      assert [f][0 := f'] == [f'];
    }
    assert [[f]][0 := []] == [[]];
    assert forall e': Entry :: map[m := e][m := e'] == map[m := e'];
  }

  lemma LoadBegins(g: Imports, m: Name, e: Entry, created: seq<Name>, failed: set<Name>, log: seq<Event>)
    returns (steps: seq<Step>)
    requires !e.loaded && e.owner == None
    ensures Exec(g, Lone(m, [], e, created, failed, log), steps)
      == Some(Lone(m, [Frame(m, Create, false)], e.(owner := Some(Holder(0, 0))), created, failed, log))
  {
    var s0 := Lone(m, [], e, created, failed, log);
    var s1 := Lone(m, [Frame(m, Check, false)], e, created, failed, log);
    var s2 := Lone(m, [Frame(m, Wait, false)], e, created, failed, log);
    var held := e.(owner := Some(Holder(0, 0)));
    var s3 := Lone(m, [Frame(m, Recheck, false)], held, created, failed, log);
    var s4 := Lone(m, [Frame(m, Create, false)], held, created, failed, log);
    LoneSteps(m, Frame(m, Recheck, false), held, created, failed, log);
    LoneSteps(m, Frame(m, Wait, false), e, created, failed, log);
    LoneSteps(m, Frame(m, Check, false), e, created, failed, log);
    assert Apply(g, s3, LookAgain(0)) == Some(s4);
    ExecOne(g, s3, LookAgain(0), [], s4, s4);
    assert Apply(g, s2, Acquire(0)) == Some(s3);
    ExecOne(g, s2, Acquire(0), [LookAgain(0)], s3, s4);
    assert Apply(g, s1, Look(0)) == Some(s2);
    ExecOne(g, s1, Look(0), [Acquire(0)] + [LookAgain(0)], s2, s4);
    assert [[]][0 := [Frame(m, Check, false)]] == [[Frame(m, Check, false)]];
    assert Apply(g, s0, Begin(0, m)) == Some(s1);
    ExecOne(g, s0, Begin(0, m), [Look(0)] + ([Acquire(0)] + [LookAgain(0)]), s1, s4);
    steps := [Begin(0, m)] + ([Look(0)] + ([Acquire(0)] + [LookAgain(0)]));
  }

  lemma LoadThrows(g: Imports, m: Name) returns (steps: seq<Step>)
    ensures Exec(g, Init({m}, 1), steps)
      == Some(Lone(m, [], Entry(Some(0), false, None), [m], {m}, [Event(m, Threw, false)]))
  {
    var e := Entry(None, false, None);
    var begin := LoadBegins(g, m, e, [], {}, []);
    assert Init({m}, 1) == Lone(m, [], e, [], {}, []);
    var s1 := Lone(m, [Frame(m, Create, false)], e.(owner := Some(Holder(0, 0))), [], {}, []);
    var s2 := Lone(m, [Frame(m, Script, false)], Entry(Some(0), false, Some(Holder(0, 0))), [m], {}, []);
    var s3 := Lone(m, [], Entry(Some(0), false, None), [m], {m}, [Event(m, Threw, false)]);
    LoneSteps(m, Frame(m, Create, false), e.(owner := Some(Holder(0, 0))), [], {}, []);
    LoneSteps(m, Frame(m, Script, false), Entry(Some(0), false, Some(Holder(0, 0))), [m], {}, []);
    LoneSteps(m, Frame(m, Script, false), Entry(Some(0), false, None), [m], {}, []);
    assert [] + [m] == [m];
    assert Apply(g, s1, Instantiate(0, true)) == Some(s2);
    assert [] + [Event(m, Threw, false)] == [Event(m, Threw, false)] && {} + {m} == {m};
    assert Apply(g, s2, Fail(0)) == Some(s3);
    ExecOne(g, s2, Fail(0), [], s3, s3);
    ExecOne(g, s1, Instantiate(0, true), [Fail(0)], s2, s3);
    ExecTwo(g, Init({m}, 1), begin, [Instantiate(0, true)] + [Fail(0)]);
    steps := begin + ([Instantiate(0, true)] + [Fail(0)]);
  }

  lemma LoadYieldsNothing(g: Imports, m: Name, e: Entry, created: seq<Name>, failed: set<Name>, log: seq<Event>)
    returns (steps: seq<Step>)
    requires !e.loaded && e.owner == None
    ensures Exec(g, Lone(m, [], e, created, failed, log), steps)
      == Some(Lone(m, [], e, created, failed + {m}, log + [Event(m, Returned(e.instance), true)]))
  {
    var begin := LoadBegins(g, m, e, created, failed, log);
    var held := e.(owner := Some(Holder(0, 0)));
    var s1 := Lone(m, [Frame(m, Create, false)], held, created, failed, log);
    var s2 := Lone(m, [Frame(m, Fetch, true)], held, created, failed + {m}, log);
    var s3 := Lone(m, [], e, created, failed + {m}, log + [Event(m, Returned(e.instance), true)]);
    LoneSteps(m, Frame(m, Create, false), held, created, failed, log);
    LoneSteps(m, Frame(m, Fetch, true), held, created, failed + {m}, log);
    LoneSteps(m, Frame(m, Fetch, true), e, created, failed + {m}, log);
    assert Apply(g, s1, Instantiate(0, false)) == Some(s2);
    assert Apply(g, s2, GetResult(0)) == Some(s3);
    ExecOne(g, s2, GetResult(0), [], s3, s3);
    ExecOne(g, s1, Instantiate(0, false), [GetResult(0)], s2, s3);
    ExecTwo(g, Lone(m, [], e, created, failed, log), begin, [Instantiate(0, false)] + [GetResult(0)]);
    steps := begin + ([Instantiate(0, false)] + [GetResult(0)]);
  }

  lemma ExecOne(g: Imports, s: State, x: Step, rest: seq<Step>, s': State, last: State)
    requires Apply(g, s, x) == Some(s') && Exec(g, s', rest) == Some(last)
    ensures Exec(g, s, [x] + rest) == Some(last)
  {
    assert ([x] + rest)[1..] == rest;
  }

  // ---- Deadlock ------------------------------------------------------------------------------------------

  /** A chain of imports from a to b through registered modules. */
  predicate IsPath(g: Imports, names: set<Name>, p: seq<Name>) {
    |p| >= 2
    && (forall i | 0 <= i < |p| :: p[i] in names)
    && (forall i | 0 <= i < |p| - 1 :: p[i + 1] in ImportsOf(g, p[i]))
  }

  ghost predicate Reaches(g: Imports, names: set<Name>, a: Name, b: Name) {
    exists p :: IsPath(g, names, p) && p[0] == a && p[|p| - 1] == b
  }

  ghost predicate Acyclic(g: Imports, names: set<Name>) {
    forall m | m in names :: !Reaches(g, names, m, m)
  }

  /** A thread in a call that does not wait for a mutex somebody holds. */
  predicate Runnable(s: State, t: nat) {
    Busy(s, t)
    && !(Top(s, t).pc == Wait && Top(s, t).name in s.entries && s.entries[Top(s, t).name].owner.Some?)
  }

  /** Some calls are under way and each waits for a mutex that is held. */
  predicate Deadlocked(s: State) {
    (exists t :: 0 <= t < |s.threads| && Busy(s, t)) && (forall t | 0 <= t < |s.threads| :: !Runnable(s, t))
  }

  /** Runnable threads are those that can go on with their call. */
  lemma RunnableIff(g: Imports, s: State, t: nat)
    requires Inv(g, s) && Busy(s, t)
    ensures Runnable(s, t) <==> exists x: Step :: x.thread == t && Apply(g, s, x).Some?
  {
    Here(g, s, t);
    if Runnable(s, t) {
      var x := match Top(s, t).pc
        case Check => Look(t)
        case Wait => Acquire(t)
        case Recheck => LookAgain(t)
        case Create => Instantiate(t, true)
        case Script => Finish(t)
        case Fetch => GetResult(t);
      assert x.thread == t && Apply(g, s, x).Some?;
    }
  }

  lemma ReachesFurther(g: Imports, names: set<Name>, a: Name, b: Name, c: Name)
    requires Reaches(g, names, a, b) && Reaches(g, names, b, c)
    ensures Reaches(g, names, a, c)
  {
    var p :| IsPath(g, names, p) && p[0] == a && p[|p| - 1] == b;
    var q :| IsPath(g, names, q) && q[0] == b && q[|q| - 1] == c;
    var r := p + q[1..];
    assert IsPath(g, names, r) && r[0] == a && r[|r| - 1] == c;
  }

  /** A thread that owns a module waits for one that module's script reaches. */
  lemma OwnerReaches(g: Imports, s: State, h: Holder)
    requires Inv(g, s) && ValidFrame(s, h) && h.depth < Depth(s, h.thread)
    requires Top(s, h.thread).name in s.entries
    ensures Reaches(g, s.entries.Keys, FrameAt(s, h).name, Top(s, h.thread).name)
  {
    var stack := s.threads[h.thread];
    var p := seq(|stack| - h.depth, i requires 0 <= i < |stack| - h.depth => stack[h.depth + i].name);
    forall i | 0 <= i < |p|
      ensures p[i] in s.entries.Keys && (i < |p| - 1 ==> p[i + 1] in ImportsOf(g, p[i]))
    {
      assert FrameOk(g, s, Holder(h.thread, h.depth + i));
    }
    assert IsPath(g, s.entries.Keys, p);
  }

  /** Following who holds what a thread waits for ends at a thread that can go on. */
  lemma {:induction false} SomeoneGoesOn(g: Imports, s: State, t: nat, seen: set<Name>) returns (u: nat)
    requires Inv(g, s) && Busy(s, t) && Acyclic(g, s.entries.Keys) && seen <= s.entries.Keys
    requires Top(s, t).name in s.entries ==> forall n | n in seen :: Reaches(g, s.entries.Keys, n, Top(s, t).name)
    ensures Runnable(s, u)
    decreases |s.entries.Keys - seen|
  {
    if Runnable(s, t) {
      u := t;
    } else {
      var m := Top(s, t).name;
      assert EntryOk(s, m);
      var h := s.entries[m].owner.value;
      assert Busy(s, h.thread);
      if h.depth == Depth(s, h.thread) {
        u := h.thread;
      } else {
        assert m !in seen;
        var next := Top(s, h.thread).name;
        if next in s.entries {
          OwnerReaches(g, s, h);
          forall n | n in seen
            ensures Reaches(g, s.entries.Keys, n, next)
          {
            ReachesFurther(g, s.entries.Keys, n, m, next);
          }
        }
        assert s.entries.Keys - (seen + {m}) < s.entries.Keys - seen;
        SmallerSet(s.entries.Keys - (seen + {m}), s.entries.Keys - seen);
        u := SomeoneGoesOn(g, s, h.thread, seen + {m});
      }
    }
  }

  // ---- A cycle does deadlock -----------------------------------------------------------------------------

  /** Thread 0 is inside the scripts of the first modules of a path and nothing else runs. */
  predicate Nested(s: State, p: seq<Name>, n: nat)
    requires n <= |p|
  {
    && |s.threads| > 0 && |s.threads[0]| == n
    && (forall i | 0 <= i < n :: s.threads[0][i].name == p[i] && s.threads[0][i].pc == Script)
    && (forall t | 0 < t < |s.threads| :: s.threads[t] == [])
  }

  lemma ExecTwo(g: Imports, s: State, a: seq<Step>, b: seq<Step>)
    requires Exec(g, s, a).Some? && Exec(g, Exec(g, s, a).value, b).Some?
    ensures Exec(g, s, a + b) == Exec(g, Exec(g, s, a).value, b)
    decreases |a|
  {
    if a == [] {
      assert a + b == b;
    } else {
      assert (a + b)[1..] == a[1..] + b && (a + b)[0] == a[0];
      ExecTwo(g, Apply(g, s, a[0]).value, a[1..], b);
    }
  }

  predicate NothingLoaded(s: State) { forall m | m in s.entries :: !s.entries[m].loaded }

  /** Thread 0 opens the next call on the path and comes to the module's mutex. */
  lemma OpenNext(g: Imports, s: State, p: seq<Name>, n: nat) returns (steps: seq<Step>, s': State)
    requires Inv(g, s) && IsPath(g, s.entries.Keys, p) && n < |p| && Nested(s, p, n) && NothingLoaded(s)
    ensures Exec(g, s, steps) == Some(s') && Inv(g, s') && s'.entries == s.entries && |s'.threads| == |s.threads|
    ensures |s'.threads[0]| == n + 1 && s'.threads[0] == s.threads[0] + [Frame(p[n], Wait, false)]
    ensures forall t | 0 < t < |s'.threads| :: s'.threads[t] == []
  {
    if n > 0 {
      assert p[n - 1 + 1] in ImportsOf(g, p[n - 1]);
    }
    var open := if n == 0 then Begin(0, p[n]) else Import(0, p[n]);
    var s1 := Apply(g, s, open).value;
    assert s1.threads[0] == s.threads[0] + [Frame(p[n], Check, false)];
    StepKeeps(g, s, open);
    s' := Apply(g, s1, Look(0)).value;
    StepKeeps(g, s1, Look(0));
    assert s'.threads[0] == s.threads[0] + [Frame(p[n], Wait, false)];
    ExecOne(g, s1, Look(0), [], s', s');
    ExecOne(g, s, open, [Look(0)], s1, s');
    steps := [open] + [Look(0)];
  }

  /** Thread 0 gets the mutex and on into the module's script. */
  lemma EnterScript(g: Imports, s: State, stack: seq<Frame>, m: Name) returns (steps: seq<Step>, s': State)
    requires Inv(g, s) && |s.threads| > 0 && s.threads[0] == stack + [Frame(m, Wait, false)]
    requires m in s.entries && !s.entries[m].loaded && s.entries[m].owner == None
    ensures Exec(g, s, steps) == Some(s') && Inv(g, s') && s'.entries.Keys == s.entries.Keys
    ensures |s'.threads| == |s.threads| && s'.threads[0] == stack + [Frame(m, Script, false)]
    ensures forall t | 0 < t < |s'.threads| :: s'.threads[t] == s.threads[t]
    ensures forall n | n in s.entries :: s'.entries[n].loaded == s.entries[n].loaded
  {
    var s1 := Apply(g, s, Acquire(0)).value;
    assert s1.threads[0] == stack + [Frame(m, Recheck, false)];
    StepKeeps(g, s, Acquire(0));
    var s2 := Apply(g, s1, LookAgain(0)).value;
    assert s2.threads[0] == stack + [Frame(m, Create, false)];
    StepKeeps(g, s1, LookAgain(0));
    s' := Apply(g, s2, Instantiate(0, true)).value;
    assert s'.threads[0] == stack + [Frame(m, Script, false)];
    StepKeeps(g, s2, Instantiate(0, true));
    steps := ThreeSteps(g, s, Acquire(0), s1, LookAgain(0), s2, Instantiate(0, true), s');
  }

  lemma ThreeSteps(g: Imports, s: State, x: Step, s1: State, y: Step, s2: State, z: Step, s3: State)
    returns (steps: seq<Step>)
    requires Apply(g, s, x) == Some(s1) && Apply(g, s1, y) == Some(s2) && Apply(g, s2, z) == Some(s3)
    ensures Exec(g, s, steps) == Some(s3)
  {
    ExecOne(g, s2, z, [], s3, s3);
    ExecOne(g, s1, y, [z], s2, s3);
    ExecOne(g, s, x, [y] + [z], s1, s3);
    steps := [x] + ([y] + [z]);
  }

  /** With thread 0 in front of a mutex that is held and nobody else in a call, nothing moves. */
  lemma LoneWaiterIsStuck(s: State)
    requires Busy(s, 0) && Top(s, 0).pc == Wait && Top(s, 0).name in s.entries
    requires s.entries[Top(s, 0).name].owner.Some?
    requires forall t | 0 < t < |s.threads| :: s.threads[t] == []
    ensures Deadlocked(s)
  {
  }

  lemma FirstIsOwned(g: Imports, s: State, p: seq<Name>, n: nat)
    requires Inv(g, s) && n < |p| && Nested(s, p, n)
    ensures n > 0 ==> p[0] in s.entries && s.entries[p[0]].owner.Some?
  {
    if n > 0 {
      assert FrameOk(g, s, Holder(0, 0));
    }
  }

  /** Thread 0 gets one module further, or waits for itself. */
  lemma EnterNext(g: Imports, s: State, p: seq<Name>, n: nat) returns (steps: seq<Step>, s': State)
    requires Inv(g, s) && IsPath(g, s.entries.Keys, p) && n < |p| && Nested(s, p, n) && p[0] == p[|p| - 1]
    requires NothingLoaded(s)
    ensures Exec(g, s, steps) == Some(s')
    ensures Deadlocked(s')
      || (Inv(g, s') && s'.entries.Keys == s.entries.Keys && n + 1 < |p| && Nested(s', p, n + 1) && NothingLoaded(s'))
  {
    steps, s' := OpenNext(g, s, p, n);
    FirstIsOwned(g, s, p, n);
    if s'.entries[p[n]].owner.Some? {
      LoneWaiterIsStuck(s');
    } else {
      var s1, more := s', [];
      more, s' := EnterScript(g, s1, s.threads[0], p[n]);
      ExecTwo(g, s, steps, more);
      steps := steps + more;
      assert Nested(s', p, n + 1);
    }
  }

  lemma {:induction false} CycleIsEntered(g: Imports, s: State, p: seq<Name>, n: nat) returns (steps: seq<Step>)
    requires Inv(g, s) && IsPath(g, s.entries.Keys, p) && n < |p| && Nested(s, p, n) && p[0] == p[|p| - 1]
    requires NothingLoaded(s)
    ensures Exec(g, s, steps).Some? && Deadlocked(Exec(g, s, steps).value)
    decreases |p| - n
  {
    var s1: State;
    steps, s1 := EnterNext(g, s, p, n);
    if !Deadlocked(s1) {
      var more := CycleIsEntered(g, s1, p, n + 1);
      ExecTwo(g, s, steps, more);
      steps := steps + more;
    }
  }

  /** Threads that load modules can deadlock exactly when registered modules import one
      another in a cycle; one thread is enough for that. */
  lemma DeadlockFreeIffAcyclic(g: Imports, names: set<Name>, threads: nat)
    requires threads > 0
    ensures (forall s | Reachable(g, names, threads, s) :: !Deadlocked(s)) <==> Acyclic(g, names)
  {
    if Acyclic(g, names) {
      forall s | Reachable(g, names, threads, s)
        ensures !Deadlocked(s)
      {
        ReachableInv(g, names, threads, s);
        if t :| 0 <= t < |s.threads| && Busy(s, t) {
          var u := SomeoneGoesOn(g, s, t, {});
          assert Runnable(s, u);
        }
      }
    } else {
      var m :| m in names && Reaches(g, names, m, m);
      var p :| IsPath(g, names, p) && p[0] == m && p[|p| - 1] == m;
      var s0 := Init(names, threads);
      InitInv(g, names, threads);
      assert s0.entries.Keys == names;
      var steps := CycleIsEntered(g, s0, p, 0);
      assert Reachable(g, names, threads, Exec(g, s0, steps).value);
    }
  }
}
