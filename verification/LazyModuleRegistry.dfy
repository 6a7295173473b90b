/** The registry object: the regions of a load under the registry lock, as methods. */
module LazyModuleRegistryObject {
  import opened Utils
  import opened LazyRegistry

  class LazyModuleRegistry {
    var entries: map<Name, Entry>
    var created: seq<Name>
    ghost var threads: seq<seq<Frame>>
    ghost var failed: set<Name>
    ghost var log: seq<Event>

    constructor (names: set<Name>, ghost threads: nat)
      ensures View() == Init(names, threads)
    {
      entries, created := map m | m in names :: Entry(None, false, None), [];
      this.threads, failed, log := seq(threads, t => []), {}, [];
    }

    ghost function View(): State
      reads this
    {
      State(entries, threads, created, failed, log)
    }

    ghost method Become(s: State)
      requires s.entries == entries && s.created == created
      modifies this`threads, this`failed, this`log
      ensures View() == s
    {
      threads, failed, log := s.threads, s.failed, s.log;
    }

    /** The look without the module's mutex: done when the module is loaded or unknown. */
    method FirstLook(ghost t: nat, name: Name) returns (done: bool, instance: Option<nat>)
      requires At(View(), t, Check) && Top(View(), t).name == name
      modifies this
      ensures LookStep(old(View()), t) == Some(View())
      ensures done <==> name !in entries || entries[name].loaded
      ensures instance == if done && name in entries then entries[name].instance else None
    {
      ghost var s := View();
      instance := None;
      done := name !in entries || entries[name].loaded;
      if name in entries && entries[name].loaded {
        instance := entries[name].instance;
      }
      Become(LookStep(s, t).value);
    }

    /** The module's mutex is taken if nobody holds it. */
    method TryLock(h: Holder, name: Name) returns (ok: bool)
      requires Inside(View(), h.thread, Wait) && Top(View(), h.thread).name == name
      requires h.depth == Depth(View(), h.thread)
      modifies this
      ensures ok <==> old(entries[name].owner) == None
      ensures ok ==> AcquireStep(old(View()), h.thread) == Some(View())
      ensures !ok ==> View() == old(View())
    {
      ghost var s := View();
      ok := entries[name].owner == None;
      if ok {
        entries := entries[name := entries[name].(owner := Some(h))];
        Become(AcquireStep(s, h.thread).value);
      }
    }

    /** The look under the module's mutex, which is given back when the module is loaded. */
    method SecondLook(ghost t: nat, name: Name) returns (done: bool, instance: Option<nat>)
      requires Inside(View(), t, Recheck) && Top(View(), t).name == name
      modifies this
      ensures LookAgainStep(old(View()), t) == Some(View())
      ensures done <==> old(entries[name].loaded)
      ensures done ==> instance == old(entries[name].instance)
    {
      ghost var s := View();
      instance := None;
      done := entries[name].loaded;
      if done {
        instance := entries[name].instance;
        entries := entries[name := entries[name].(owner := None)];
      }
      Become(LookAgainStep(s, t).value);
    }

    /** The factory has run; what it made is stored before the script starts. */
    method StoreInstance(ghost t: nat, name: Name, made: bool) returns (id: Option<nat>)
      requires Inside(View(), t, Create) && Top(View(), t).name == name
      modifies this
      ensures InstantiateStep(old(View()), t, made) == Some(View())
      ensures id == if made then Some(|old(created)|) else None
    {
      ghost var s := View();
      id := None;
      if made {
        id := Some(|created|);
        entries := entries[name := entries[name].(instance := id)];
        created := created + [name];
      }
      Become(InstantiateStep(s, t, made).value);
    }

    method MarkLoaded(ghost t: nat, name: Name)
      requires Inside(View(), t, Script) && Top(View(), t).name == name
      modifies this
      ensures FinishStep(old(View()), t) == Some(View())
    {
      ghost var s := View();
      entries := entries[name := entries[name].(loaded := true)];
      Become(FinishStep(s, t).value);
    }

    method FetchResult(ghost t: nat, name: Name) returns (instance: Option<nat>)
      requires Inside(View(), t, Fetch) && Top(View(), t).name == name
      modifies this
      ensures GetResultStep(old(View()), t) == Some(View())
      ensures instance == old(entries[name].instance)
    {
      ghost var s := View();
      instance := entries[name].instance;
      entries := entries[name := entries[name].(owner := None)];
      Become(GetResultStep(s, t).value);
    }

    /** What an exception leaves behind. */
    method Unwind(ghost t: nat, name: Name)
      requires Inside(View(), t, Create) || Inside(View(), t, Script)
      requires Top(View(), t).name == name
      modifies this
      ensures FailStep(old(View()), t) == Some(View())
    {
      ghost var s := View();
      entries := entries[name := entries[name].(owner := None)];
      Become(FailStep(s, t).value);
    }
  }
}
