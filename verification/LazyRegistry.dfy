/** Modules that are created on first import, by any number of threads. Every region under
    the registry lock is one step; the mutex of a module is held across steps. */
module LazyRegistry {
  import opened Utils

  type Name = string

  /** Which modules the script of a module may import. */
  type Imports = map<Name, set<Name>>

  function ImportsOf(g: Imports, m: Name): set<Name> { if m in g then g[m] else {} }

  /** A frame of a thread's stack of nested calls. */
  datatype Holder = Holder(thread: nat, depth: nat)

  /** owner is who holds the module's mutex. */
  datatype Entry = Entry(instance: Option<nat>, loaded: bool, owner: Option<Holder>)

  datatype Pc =
    | Check     // about to look at the entry without the module's mutex
    | Wait      // about to lock the mutex
    | Recheck   // holds it from here on
    | Create
    | Script    // runs the module's script, which may import
    | Fetch

  /** A call for a module; nulled once its factory has returned nothing. */
  datatype Frame = Frame(name: Name, pc: Pc, nulled: bool)

  datatype Outcome = Returned(instance: Option<nat>) | Threw

  datatype Event = Event(name: Name, outcome: Outcome, nulled: bool)

  /** Instances are numbered in the order of creation; failed are the modules for which a
      load has ended early. */
  datatype State = State(
    entries: map<Name, Entry>,
    threads: seq<seq<Frame>>,
    created: seq<Name>,
    failed: set<Name>,
    log: seq<Event>)

  function Init(names: set<Name>, threads: nat): State {
    State(map m | m in names :: Entry(None, false, None), seq(threads, t => []), [], {}, [])
  }

  datatype Step =
    | Begin(thread: nat, name: Name)
    | Look(thread: nat)
    | Acquire(thread: nat)
    | LookAgain(thread: nat)
    | Instantiate(thread: nat, made: bool)
    | Import(thread: nat, name: Name)
    | Finish(thread: nat)
    | GetResult(thread: nat)
    | Fail(thread: nat)

  predicate Critical(pc: Pc) { pc == Recheck || pc == Create || pc == Script || pc == Fetch }

  // ---- Steps ------------------------------------------------------------------------------------------

  predicate Busy(s: State, t: nat) { t < |s.threads| && s.threads[t] != [] }

  function Depth(s: State, t: nat): nat
    requires Busy(s, t)
  {
    |s.threads[t]| - 1
  }

  function Top(s: State, t: nat): Frame
    requires Busy(s, t)
  {
    s.threads[t][Depth(s, t)]
  }

  /** The innermost call goes on elsewhere. */
  function Goto(s: State, t: nat, pc: Pc): State
    requires Busy(s, t)
  {
    s.(threads := s.threads[t := s.threads[t][Depth(s, t) := Top(s, t).(pc := pc)]])
  }

  /** The innermost call ends. */
  function Leave(s: State, t: nat, outcome: Outcome): State
    requires Busy(s, t)
  {
    s.(threads := s.threads[t := s.threads[t][..Depth(s, t)]],
       log := s.log + [Event(Top(s, t).name, outcome, Top(s, t).nulled)])
  }

  function Update(s: State, m: Name, e: Entry): State { s.(entries := s.entries[m := e]) }

  function Release(s: State, t: nat): State
    requires Busy(s, t) && Top(s, t).name in s.entries
  {
    Update(s, Top(s, t).name, s.entries[Top(s, t).name].(owner := None))
  }

  predicate At(s: State, t: nat, pc: Pc) { Busy(s, t) && Top(s, t).pc == pc }

  /** Past the first look, the module is registered. */
  predicate Inside(s: State, t: nat, pc: Pc) { At(s, t, pc) && Top(s, t).name in s.entries }

  function BeginStep(s: State, t: nat, m: Name): Option<State> {
    if t >= |s.threads| || s.threads[t] != [] then None
    else Some(s.(threads := s.threads[t := [Frame(m, Check, false)]]))
  }

  function LookStep(s: State, t: nat): Option<State> {
    if !At(s, t, Check) then None
    else if Top(s, t).name !in s.entries then Some(Leave(s, t, Returned(None)))
    else if s.entries[Top(s, t).name].loaded then Some(Leave(s, t, Returned(s.entries[Top(s, t).name].instance)))
    else Some(Goto(s, t, Wait))
  }

  function AcquireStep(s: State, t: nat): Option<State> {
    if !Inside(s, t, Wait) || s.entries[Top(s, t).name].owner.Some? then None
    else
      var m := Top(s, t).name;
      Some(Update(Goto(s, t, Recheck), m, s.entries[m].(owner := Some(Holder(t, Depth(s, t))))))
  }

  function LookAgainStep(s: State, t: nat): Option<State> {
    if !Inside(s, t, Recheck) then None
    else if s.entries[Top(s, t).name].loaded then
      Some(Leave(Release(s, t), t, Returned(s.entries[Top(s, t).name].instance)))
    else Some(Goto(s, t, Create))
  }

  /** The factory makes an instance or returns nothing. */
  function InstantiateStep(s: State, t: nat, made: bool): Option<State> {
    if !Inside(s, t, Create) then None
    else
      var m := Top(s, t).name;
      if made then
        Some(Update(Goto(s, t, Script), m, s.entries[m].(instance := Some(|s.created|))).(created := s.created + [m]))
      else
        var stack := s.threads[t][Depth(s, t) := Frame(m, Fetch, true)];
        Some(s.(threads := s.threads[t := stack], failed := s.failed + {m}))
  }

  function ImportStep(g: Imports, s: State, t: nat, n: Name): Option<State> {
    if !At(s, t, Script) || n !in ImportsOf(g, Top(s, t).name) then None
    else Some(s.(threads := s.threads[t := s.threads[t] + [Frame(n, Check, false)]]))
  }

  /** Script, natives and hook are through: the module is loaded. */
  function FinishStep(s: State, t: nat): Option<State> {
    if !Inside(s, t, Script) then None
    else
      var m := Top(s, t).name;
      Some(Update(Goto(s, t, Fetch), m, s.entries[m].(loaded := true)))
  }

  function GetResultStep(s: State, t: nat): Option<State> {
    if !Inside(s, t, Fetch) then None
    else Some(Leave(Release(s, t), t, Returned(s.entries[Top(s, t).name].instance)))
  }

  /** The factory, the script or a hook throws: the call unwinds and the mutex is free. */
  function FailStep(s: State, t: nat): Option<State> {
    if !Inside(s, t, Create) && !Inside(s, t, Script) then None
    else Some(Leave(Release(s, t), t, Threw).(failed := s.failed + {Top(s, t).name}))
  }

  function Apply(g: Imports, s: State, x: Step): Option<State> {
    match x
    case Begin(t, m) => BeginStep(s, t, m)
    case Look(t) => LookStep(s, t)
    case Acquire(t) => AcquireStep(s, t)
    case LookAgain(t) => LookAgainStep(s, t)
    case Instantiate(t, made) => InstantiateStep(s, t, made)
    case Import(t, n) => ImportStep(g, s, t, n)
    case Finish(t) => FinishStep(s, t)
    case GetResult(t) => GetResultStep(s, t)
    case Fail(t) => FailStep(s, t)
  }

  function Exec(g: Imports, s: State, steps: seq<Step>): Option<State>
    decreases |steps|
  {
    if steps == [] then Some(s)
    else match Apply(g, s, steps[0])
      case None => None
      case Some(s') => Exec(g, s', steps[1..])
  }

  // ---- What every step keeps -----------------------------------------------------------------------------

  predicate ValidFrame(s: State, h: Holder) { h.thread < |s.threads| && h.depth < |s.threads[h.thread]| }

  function FrameAt(s: State, h: Holder): Frame
    requires ValidFrame(s, h)
  {
    s.threads[h.thread][h.depth]
  }

  /** Calls nest along imports, whoever is past the lock owns it, and a module that is being
      made is not yet loaded. */
  predicate FrameOk(g: Imports, s: State, h: Holder)
    requires ValidFrame(s, h)
  {
    var f := FrameAt(s, h);
    && (f.pc != Check ==> f.name in s.entries)
    && (h.depth + 1 < |s.threads[h.thread]| ==>
          f.pc == Script && s.threads[h.thread][h.depth + 1].name in ImportsOf(g, f.name))
    && (Critical(f.pc) ==> s.entries[f.name].owner == Some(h))
    && (f.pc == Create || f.pc == Script ==> !s.entries[f.name].loaded)
    && (f.pc == Script ==> s.entries[f.name].instance.Some?)
    && (f.pc == Fetch && !f.nulled ==> s.entries[f.name].loaded)
    && (f.pc == Fetch && f.nulled ==> !s.entries[f.name].loaded)
    && (f.nulled ==> f.pc == Fetch && f.name in s.failed)
  }

  predicate EntryOk(s: State, m: Name)
    requires m in s.entries
  {
    var e := s.entries[m];
    && (e.owner.Some? ==>
          ValidFrame(s, e.owner.value) && FrameAt(s, e.owner.value).name == m && Critical(FrameAt(s, e.owner.value).pc))
    && (e.loaded ==> e.instance.Some?)
    && (e.instance.Some? ==> e.instance.value < |s.created| && s.created[e.instance.value] == m)
    && (e.instance.None? ==> m !in s.created)
    && (m !in s.failed && e.instance.Some? ==> OnlyAt(s.created, m, e.instance.value))
    && (m !in s.failed && e.instance.Some? && !e.loaded ==> e.owner.Some? && FrameAt(s, e.owner.value).pc == Script)
  }

  predicate OnlyAt(created: seq<Name>, m: Name, id: nat) {
    forall j | 0 <= j < |created| && created[j] == m :: j == id
  }

  /** If x is the module's instance, it is not loaded and never will be. */
  predicate Stale(s: State, m: Name, x: nat)
    requires m in s.entries
  {
    var e := s.entries[m];
    e.instance == Some(x) ==>
      !e.loaded && (e.owner.Some? ==> ValidFrame(s, e.owner.value) && FrameAt(s, e.owner.value).pc != Script)
  }

  predicate EventOk(s: State, v: Event) {
    && (v.outcome.Returned? && v.outcome.instance.Some? && !v.nulled ==>
          v.name in s.entries && s.entries[v.name].loaded && s.entries[v.name].instance == v.outcome.instance)
    && (v.outcome.Returned? && v.outcome.instance.Some? && v.nulled ==>
          v.name in s.entries && v.outcome.instance.value < |s.created|
          && Stale(s, v.name, v.outcome.instance.value))
    && (v.nulled ==> v.name in s.failed)
    && (v.outcome.Threw? ==> v.name in s.entries && v.name in s.failed)
    && (v.name !in s.entries ==> v.outcome == Returned(None))
    && (v.name in s.entries && v.outcome == Returned(None) ==> v.nulled)
  }

  ghost predicate Inv(g: Imports, s: State) {
    && (forall h: Holder | ValidFrame(s, h) :: FrameOk(g, s, h))
    && (forall m | m in s.entries :: EntryOk(s, m))
    && (forall i | 0 <= i < |s.log| :: EventOk(s, s.log[i]))
  }

  lemma InitInv(g: Imports, names: set<Name>, threads: nat)
    ensures Inv(g, Init(names, threads))
  {
  }

  /** A step of thread t replaces, adds or drops its frame at depth d and may change the
      entry of m, which nobody else owns. */
  ghost predicate Touches(g: Imports, s: State, s': State, t: nat, d: nat, m: Name) {
    && t < |s.threads| == |s'.threads|
    && (forall u | 0 <= u < |s.threads| && u != t :: s'.threads[u] == s.threads[u])
    && d <= |s.threads[t]| <= d + 1 && d <= |s'.threads[t]| <= d + 1
    && (forall k | 0 <= k < d :: s'.threads[t][k] == s.threads[t][k])
    && (d > 0 && |s'.threads[t]| > d ==>
          s.threads[t][d - 1].pc == Script && s'.threads[t][d].name in ImportsOf(g, s.threads[t][d - 1].name))
    && (|s.threads[t]| > d && Critical(s.threads[t][d].pc) ==> s.threads[t][d].name == m)
    && s'.entries.Keys == s.entries.Keys
    && (forall n | n in s.entries && n != m :: s'.entries[n] == s.entries[n])
    && (m in s.entries && s'.entries[m] != s.entries[m] ==>
          s.entries[m].owner == None || s.entries[m].owner == Some(Holder(t, d)))
    && (s'.created == s.created || s'.created == s.created + [m])
    && s.failed <= s'.failed
  }

  lemma FramesKept(g: Imports, s: State, s': State, t: nat, d: nat, m: Name)
    requires Inv(g, s) && Touches(g, s, s', t, d, m)
    requires |s'.threads[t]| > d ==> FrameOk(g, s', Holder(t, d))
    ensures forall h: Holder | ValidFrame(s', h) :: FrameOk(g, s', h)
  {
    forall h: Holder | ValidFrame(s', h)
      ensures FrameOk(g, s', h)
    {
      if h != Holder(t, d) {
        assert ValidFrame(s, h) && FrameAt(s', h) == FrameAt(s, h) && FrameOk(g, s, h);
      }
    }
  }

  lemma EntriesKept(g: Imports, s: State, s': State, t: nat, d: nat, m: Name)
    requires Inv(g, s) && Touches(g, s, s', t, d, m)
    requires m in s.entries ==> EntryOk(s', m)
    ensures forall n | n in s'.entries :: EntryOk(s', n)
  {
    forall n | n in s'.entries
      ensures EntryOk(s', n)
    {
      if n != m {
        assert EntryOk(s, n);
        var e := s.entries[n];
        if e.owner.Some? {
          assert ValidFrame(s', e.owner.value) && FrameAt(s', e.owner.value) == FrameAt(s, e.owner.value);
        }
        if n !in s'.failed && e.instance.Some? {
          assert OnlyAt(s.created, n, e.instance.value);
          assert OnlyAt(s'.created, n, e.instance.value);
        }
      }
    }
  }

  lemma EventsKept(g: Imports, s: State, s': State, t: nat, d: nat, m: Name, v: Event)
    requires Inv(g, s) && Touches(g, s, s', t, d, m)
    requires forall n | n in s.entries && s.entries[n].loaded ::
      s'.entries[n].loaded && s'.entries[n].instance == s.entries[n].instance
    requires m in s.entries ==> forall x: nat | x < |s.created| && Stale(s, m, x) :: Stale(s', m, x)
    requires s'.log == s.log || (s'.log == s.log + [v] && EventOk(s', v))
    ensures forall i | 0 <= i < |s'.log| :: EventOk(s', s'.log[i])
  {
    forall i | 0 <= i < |s'.log|
      ensures EventOk(s', s'.log[i])
    {
      if i < |s.log| {
        var event := s.log[i];
        assert EventOk(s, event);
        if event.nulled && event.outcome.Returned? && event.outcome.instance.Some? && event.name != m {
          StaleElsewhere(g, s, s', t, d, m, event.name, event.outcome.instance.value);
        }
      }
    }
  }

  lemma StaleElsewhere(g: Imports, s: State, s': State, t: nat, d: nat, m: Name, n: Name, x: nat)
    requires Inv(g, s) && Touches(g, s, s', t, d, m) && n in s.entries && n != m && Stale(s, n, x)
    ensures Stale(s', n, x)
  {
    assert EntryOk(s, n);
    var e := s.entries[n];
    if e.owner.Some? {
      assert FrameAt(s', e.owner.value) == FrameAt(s, e.owner.value);
    }
  }

  const NoEvent := Event("", Returned(None), false)

  lemma BeginKeeps(g: Imports, s: State, t: nat, m: Name)
    requires Inv(g, s) && BeginStep(s, t, m).Some?
    ensures Inv(g, BeginStep(s, t, m).value)
  {
    var s' := BeginStep(s, t, m).value;
    if m in s.entries {
      assert EntryOk(s, m);
    }
    FramesKept(g, s, s', t, 0, m);
    EntriesKept(g, s, s', t, 0, m);
    EventsKept(g, s, s', t, 0, m, NoEvent);
  }

  /** What the invariant says where a step happens. */
  lemma Here(g: Imports, s: State, t: nat)
    requires Inv(g, s) && Busy(s, t)
    ensures FrameOk(g, s, Holder(t, Depth(s, t)))
    ensures Top(s, t).name in s.entries ==> EntryOk(s, Top(s, t).name)
    ensures Depth(s, t) > 0 ==> FrameOk(g, s, Holder(t, Depth(s, t) - 1))
  {
    assert ValidFrame(s, Holder(t, Depth(s, t)));
  }

  lemma LookKeeps(g: Imports, s: State, t: nat)
    requires Inv(g, s) && LookStep(s, t).Some?
    ensures Inv(g, LookStep(s, t).value)
  {
    var s' := LookStep(s, t).value;
    var d, m := Depth(s, t), Top(s, t).name;
    Here(g, s, t);
    FramesKept(g, s, s', t, d, m);
    EntriesKept(g, s, s', t, d, m);
    EventsKept(g, s, s', t, d, m, if s'.log == s.log then NoEvent else s'.log[|s.log|]);
  }

  lemma AcquireKeeps(g: Imports, s: State, t: nat)
    requires Inv(g, s) && AcquireStep(s, t).Some?
    ensures Inv(g, AcquireStep(s, t).value)
  {
    var s' := AcquireStep(s, t).value;
    var d, m := Depth(s, t), Top(s, t).name;
    Here(g, s, t);
    FramesKept(g, s, s', t, d, m);
    EntriesKept(g, s, s', t, d, m);
    EventsKept(g, s, s', t, d, m, NoEvent);
  }

  lemma LookAgainKeeps(g: Imports, s: State, t: nat)
    requires Inv(g, s) && LookAgainStep(s, t).Some?
    ensures Inv(g, LookAgainStep(s, t).value)
  {
    var s' := LookAgainStep(s, t).value;
    var d, m := Depth(s, t), Top(s, t).name;
    Here(g, s, t);
    FramesKept(g, s, s', t, d, m);
    EntriesKept(g, s, s', t, d, m);
    EventsKept(g, s, s', t, d, m, if s'.log == s.log then NoEvent else s'.log[|s.log|]);
  }

  lemma InstantiateKeeps(g: Imports, s: State, t: nat, made: bool)
    requires Inv(g, s) && InstantiateStep(s, t, made).Some?
    ensures Inv(g, InstantiateStep(s, t, made).value)
  {
    var s' := InstantiateStep(s, t, made).value;
    var d, m := Depth(s, t), Top(s, t).name;
    Here(g, s, t);
    FramesKept(g, s, s', t, d, m);
    EntriesKept(g, s, s', t, d, m);
    EventsKept(g, s, s', t, d, m, NoEvent);
  }

  lemma ImportKeeps(g: Imports, s: State, t: nat, n: Name)
    requires Inv(g, s) && ImportStep(g, s, t, n).Some?
    ensures Inv(g, ImportStep(g, s, t, n).value)
  {
    var s' := ImportStep(g, s, t, n).value;
    Here(g, s, t);
    if n in s.entries {
      assert EntryOk(s, n);
      OwnerStays(s, s', t, n);
    }
    FramesKept(g, s, s', t, Depth(s, t) + 1, n);
    EntriesKept(g, s, s', t, Depth(s, t) + 1, n);
    EventsKept(g, s, s', t, Depth(s, t) + 1, n, NoEvent);
  }

  /** Opening a nested call leaves every frame there is. */
  lemma OwnerStays(s: State, s': State, t: nat, n: Name)
    requires n in s.entries && EntryOk(s, n) && t < |s.threads| && s'.entries == s.entries
    requires s'.created == s.created && s'.failed == s.failed
    requires exists f :: s'.threads == s.threads[t := s.threads[t] + [f]]
    ensures EntryOk(s', n) && forall x: nat | Stale(s, n, x) :: Stale(s', n, x)
  {
    var e := s.entries[n];
    if e.owner.Some? {
      assert FrameAt(s', e.owner.value) == FrameAt(s, e.owner.value);
    }
  }

  lemma FinishKeeps(g: Imports, s: State, t: nat)
    requires Inv(g, s) && FinishStep(s, t).Some?
    ensures Inv(g, FinishStep(s, t).value)
  {
    var s' := FinishStep(s, t).value;
    var d, m := Depth(s, t), Top(s, t).name;
    Here(g, s, t);
    FramesKept(g, s, s', t, d, m);
    EntriesKept(g, s, s', t, d, m);
    EventsKept(g, s, s', t, d, m, NoEvent);
  }

  lemma GetResultKeeps(g: Imports, s: State, t: nat)
    requires Inv(g, s) && GetResultStep(s, t).Some?
    ensures Inv(g, GetResultStep(s, t).value)
  {
    var s' := GetResultStep(s, t).value;
    var d, m := Depth(s, t), Top(s, t).name;
    Here(g, s, t);
    FramesKept(g, s, s', t, d, m);
    EntriesKept(g, s, s', t, d, m);
    EventsKept(g, s, s', t, d, m, s'.log[|s.log|]);
  }

  lemma FailKeeps(g: Imports, s: State, t: nat)
    requires Inv(g, s) && FailStep(s, t).Some?
    ensures Inv(g, FailStep(s, t).value)
  {
    var s' := FailStep(s, t).value;
    var d, m := Depth(s, t), Top(s, t).name;
    Here(g, s, t);
    FramesKept(g, s, s', t, d, m);
    EntriesKept(g, s, s', t, d, m);
    EventsKept(g, s, s', t, d, m, s'.log[|s.log|]);
  }

  lemma StepKeeps(g: Imports, s: State, x: Step)
    requires Inv(g, s) && Apply(g, s, x).Some?
    ensures Inv(g, Apply(g, s, x).value)
  {
    match x
    case Begin(t, m) => BeginKeeps(g, s, t, m);
    case Look(t) => LookKeeps(g, s, t);
    case Acquire(t) => AcquireKeeps(g, s, t);
    case LookAgain(t) => LookAgainKeeps(g, s, t);
    case Instantiate(t, made) => InstantiateKeeps(g, s, t, made);
    case Import(t, n) => ImportKeeps(g, s, t, n);
    case Finish(t) => FinishKeeps(g, s, t);
    case GetResult(t) => GetResultKeeps(g, s, t);
    case Fail(t) => FailKeeps(g, s, t);
  }
}
