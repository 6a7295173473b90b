/** How a finished run ended: as its last slice and its hooks reported. */
module EmbeddedOutcome {
  import opened Utils
  import opened EmbeddedState
  import opened EmbeddedProtocol
  import opened EmbeddedInvariant
  import opened EmbeddedTheorems

  // ---- What the steps of an execution say about a run ---------------------------------------------------

  /** The slice that ends the execution of run id says whether it ended in failure. */
  function NextEnd(s: State, x: Step, id: RunId, e: Option<bool>): Option<bool> {
    if x.DriverReturn? && s.driver == Slicing(id) && (x.outcome == Ended || x.outcome == EndedInFailure)
    then Some(x.outcome == EndedInFailure) else e
  }

  /** The call that runs the hooks of run id says whether one of them threw. */
  function NextHook(s: State, x: Step, id: RunId, h: Option<bool>): Option<bool> {
    if x.RunHooks? && x.c in s.calls && s.calls[x.c].id == id then Some(x.fails) else h
  }

  function EndReport(steps: seq<Step>, id: RunId): Option<bool>
    requires Exec(steps).Some?
    decreases |steps|
  {
    if steps == [] then None
    else
      var n := |steps| - 1;
      NextEnd(Exec(steps[..n]).value, steps[n], id, EndReport(steps[..n], id))
  }

  function HookReport(steps: seq<Step>, id: RunId): Option<bool>
    requires Exec(steps).Some?
    decreases |steps|
  {
    if steps == [] then None
    else
      var n := |steps| - 1;
      NextHook(Exec(steps[..n]).value, steps[n], id, HookReport(steps[..n], id))
  }

  // ---- What every state knows of these reports -----------------------------------------------------------

  predicate Either(e: Option<bool>, h: Option<bool>, failed: bool) {
    e.Some? && h.Some? && (failed <==> e.value || h.value)
  }

  /** What the driver carries of the report, on the way to handing the run over. */
  predicate DriverKnows(driver: Driver, failed: bool, id: RunId, e: Option<bool>) {
    match driver
    case Deciding(d, outcome) =>
      d == id ==> !failed && (outcome == Ended ==> e == Some(false)) && (outcome == EndedInFailure ==> e == Some(true))
    case HandedOver(d, f) => d == id ==> !failed && e == Some(f)
    case Noted(d) => d == id ==> failed && e == Some(true)
    case _ => true
  }

  /** What the winner carries of the reports. */
  predicate WinnerKnows(call: Call, e: Option<bool>, h: Option<bool>) {
    match call
    case Releasing(_, _, failed) => Either(e, h, failed)
    case Publishing(_, failed) => Either(e, h, failed)
    case _ => true
  }

  predicate Told(s: State, id: RunId, e: Option<bool>, h: Option<bool>)
    requires id in s.sh.controls
  {
    var k := s.sh.controls[id];
    match k.state
    case Queued | Cancelled => true
    case Running | DebugPaused | MainReturned => DriverKnows(s.driver, k.failed, id, e)
    case FinalizationPending => e == Some(k.failed)
    case Finalizing =>
      e == Some(k.failed) && (OwnerIn(s, id) ==> WinnerKnows(s.calls[s.owner[id]], e, h))
    case Completed | Failed => Either(e, h, k.state == Failed)
  }

  /** Nothing about run id changes that its reports bear on. */
  predicate SameFor(s: State, s': State, id: RunId) {
    && (id in s.sh.controls && id in s'.sh.controls && s'.sh.controls[id] == s.sh.controls[id])
    && s'.driver == s.driver
    && (OwnerIn(s', id) ==> OwnerIn(s, id) && s'.calls[s'.owner[id]] == s.calls[s.owner[id]])
  }

  lemma SameIsTold(s: State, s': State, id: RunId, e: Option<bool>, h: Option<bool>)
    requires SameFor(s, s', id) && Told(s, id, e, h)
    ensures Told(s', id, e, h)
  {
  }

  // ---- One step -------------------------------------------------------------------------------------------

  /** The step leaves run id where its reports say. */
  ghost predicate Tells(s: State, x: Step, id: RunId, e: Option<bool>, h: Option<bool>) {
    var r := Apply(s, x);
    r.Some? && id in r.value.sh.controls && Told(r.value, id, NextEnd(s, x, id, e), NextHook(s, x, id, h))
  }

  ghost predicate Before(s: State, x: Step, id: RunId, e: Option<bool>, h: Option<bool>) {
    Inv(s) && id in s.sh.controls && Told(s, id, e, h) && Apply(s, x).Some?
  }

  lemma DriverTells(s: State, x: Step, id: RunId, e: Option<bool>, h: Option<bool>)
    requires Before(s, x, id, e, h) && (x.DriverEnter? || x.DriverBegin? || x.DriverReturn?)
    ensures Tells(s, x, id, e, h)
  {
    assert Placed(s, id);
  }

  lemma ClaimTells(s: State, x: Step, id: RunId, e: Option<bool>, h: Option<bool>)
    requires Before(s, x, id, e, h) && x.DriverClaim?
    ensures Tells(s, x, id, e, h)
  {
    assert Placed(s, id);
  }

  lemma PublishTells(s: State, x: Step, id: RunId, e: Option<bool>, h: Option<bool>)
    requires Before(s, x, id, e, h) && x.DriverPublish?
    ensures Tells(s, x, id, e, h)
  {
    assert Placed(s, id);
    assert DriverPublishStep(s) == Some(PublishSlice(s, s.driver.id, s.driver.outcome));
    if s.driver.id == id {
      PublishOwn(s, id, s.driver.outcome, e, h);
    } else {
      PublishOther(s, s.driver.id, s.driver.outcome, id);
      OtherIsTold(s, PublishSlice(s, s.driver.id, s.driver.outcome), id, e, h);
    }
  }

  lemma PublishOwn(s: State, id: RunId, outcome: SliceOutcome, e: Option<bool>, h: Option<bool>)
    requires s.driver == Deciding(id, outcome) && id in s.sh.controls && Executing(s.sh.controls[id].state)
    requires Told(s, id, e, h)
    ensures id in PublishSlice(s, id, outcome).sh.controls && Told(PublishSlice(s, id, outcome), id, e, h)
  {
    match outcome
    case Paused => AwayIsTold(s, id, DebugPaused, e, h);
    case BodyReturned => AwayIsTold(s, id, MainReturned, e, h);
    case Yielded | Blocked =>
      AwayIsTold(s, id, Running, e, h);
      StillIsTold(s, id, e, h);
    case Ended => HandedIsTold(s, id, false, e, h);
    case EndedInFailure => HandedIsTold(s, id, true, e, h);
  }

  lemma AwayIsTold(s: State, id: RunId, st: RunState, e: Option<bool>, h: Option<bool>)
    requires id in s.sh.controls && Executing(st)
    ensures id in Set(s, id, st).sh.controls && Told(Set(s, id, st).(driver := Away), id, e, h)
  {
  }

  lemma StillIsTold(s: State, id: RunId, e: Option<bool>, h: Option<bool>)
    requires id in s.sh.controls && Executing(s.sh.controls[id].state)
    ensures Told(s.(driver := Away), id, e, h)
  {
  }

  lemma HandedIsTold(s: State, id: RunId, failed: bool, e: Option<bool>, h: Option<bool>)
    requires id in s.sh.controls && Executing(s.sh.controls[id].state)
    requires !s.sh.controls[id].failed && e == Some(failed)
    ensures var s' := s.(sh := HandOver(s.sh, id), driver := HandedOver(id, failed));
      id in s'.sh.controls && Told(s', id, e, h)
  {
  }

  lemma PublishOther(s: State, d: RunId, outcome: SliceOutcome, id: RunId)
    requires d != id && id in s.sh.controls
    ensures var s' := PublishSlice(s, d, outcome);
      && id in s'.sh.controls && s'.sh.controls[id] == s.sh.controls[id]
      && (s'.driver == Away || (s'.driver.HandedOver? && s'.driver.id == d))
      && s'.owner == s.owner && s'.calls == s.calls
  {
    match outcome
    case Paused => SetControls(s, d, DebugPaused, id);
    case BodyReturned => SetControls(s, d, MainReturned, id);
    case Yielded | Blocked => SetControls(s, d, Running, id);
    case _ =>
  }

  /** The driver has nothing to do with the run any more. */
  lemma OtherIsTold(s: State, s': State, id: RunId, e: Option<bool>, h: Option<bool>)
    requires id in s.sh.controls && Told(s, id, e, h) && id in s'.sh.controls
    requires s'.sh.controls[id] == s.sh.controls[id]
    requires s'.driver == Away || (s'.driver.HandedOver? && s'.driver.id != id)
    requires s'.owner == s.owner && s'.calls == s.calls
    ensures Told(s', id, e, h)
  {
  }

  lemma NoteTells(s: State, x: Step, id: RunId, e: Option<bool>, h: Option<bool>)
    requires Before(s, x, id, e, h) && x.DriverNote?
    ensures Tells(s, x, id, e, h)
  {
    assert Placed(s, id);
  }

  lemma OfferTells(s: State, x: Step, id: RunId, e: Option<bool>, h: Option<bool>)
    requires Before(s, x, id, e, h) && x.DriverOffer?
    ensures Tells(s, x, id, e, h)
  {
    assert Placed(s, id);
  }

  lemma SubmitTells(s: State, x: Step, id: RunId, e: Option<bool>, h: Option<bool>)
    requires Before(s, x, id, e, h) && x.Submit?
    ensures Tells(s, x, id, e, h)
  {
    SameIsTold(s, Apply(s, x).value, id, e, h);
  }

  /** A step of a call that neither owns a run nor comes to own one. */
  lemma CallTells(s: State, x: Step, id: RunId, e: Option<bool>, h: Option<bool>)
    requires Before(s, x, id, e, h) && QuietCallStep(x)
    ensures Tells(s, x, id, e, h)
  {
    QuietStep(s, x);
    CallLeaves(s, x);
    assert id in s.owner ==> OwnerIn(s, id);
    SameIsTold(s, Apply(s, x).value, id, e, h);
  }

  lemma CallLeaves(s: State, x: Step)
    requires QuietCallStep(x) && Apply(s, x).Some?
    ensures var s' := Apply(s, x).value;
      && s'.driver == s.driver && s'.owner == s.owner && SameCalls(s, s', x.c)
      && (x.c in s'.calls ==> !Owns(s'.calls[x.c], s'.calls[x.c].id))
  {
  }

  lemma ExchangeTells(s: State, x: Step, id: RunId, e: Option<bool>, h: Option<bool>)
    requires Before(s, x, id, e, h) && x.Exchange?
    ensures Tells(s, x, id, e, h)
  {
    assert Sound(s, x.c) && Placed(s, id);
  }

  /** The owner w of run d makes a step; what is known of another run is not touched. */
  lemma OwnerElsewhere(s: State, s': State, w: nat, d: RunId, id: RunId, e: Option<bool>, h: Option<bool>)
    requires Inv(s) && id in s.sh.controls && id != d && Told(s, id, e, h)
    requires w in s.calls && s.calls[w].id == d && SameCalls(s, s', w) && s'.driver == s.driver
    requires id in s'.sh.controls && s'.sh.controls[id] == s.sh.controls[id]
    requires (id in s'.owner <==> id in s.owner) && (id in s.owner ==> s'.owner[id] == s.owner[id])
    ensures Told(s', id, e, h)
  {
    if OwnerIn(s', id) {
      assert OwnerIn(s, id);
      assert s.owner[id] != w;
    }
    SameIsTold(s, s', id, e, h);
  }

  lemma FinalizingTells(s: State, x: Step, id: RunId, e: Option<bool>, h: Option<bool>)
    requires Before(s, x, id, e, h) && x.PublishFinalizing?
    ensures Tells(s, x, id, e, h)
  {
    assert Sound(s, x.c);
    if s.calls[x.c].id != id {
      OwnerElsewhere(s, Apply(s, x).value, x.c, s.calls[x.c].id, id, e, h);
    }
  }

  lemma TakeTells(s: State, x: Step, id: RunId, e: Option<bool>, h: Option<bool>)
    requires Before(s, x, id, e, h) && x.Take?
    ensures Tells(s, x, id, e, h)
  {
    assert Sound(s, x.c);
    if s.calls[x.c].id != id {
      OwnerElsewhere(s, Apply(s, x).value, x.c, s.calls[x.c].id, id, e, h);
    }
  }

  lemma HooksTell(s: State, x: Step, id: RunId, e: Option<bool>, h: Option<bool>)
    requires Before(s, x, id, e, h) && x.RunHooks?
    ensures Tells(s, x, id, e, h)
  {
    assert Sound(s, x.c) && Placed(s, id);
    if s.calls[x.c].id != id {
      OwnerElsewhere(s, Apply(s, x).value, x.c, s.calls[x.c].id, id, e, h);
    }
  }

  lemma ReleaseTells(s: State, x: Step, id: RunId, e: Option<bool>, h: Option<bool>)
    requires Before(s, x, id, e, h) && x.Release?
    ensures Tells(s, x, id, e, h)
  {
    assert Sound(s, x.c) && Placed(s, id);
    if s.calls[x.c].id != id {
      OwnerElsewhere(s, Apply(s, x).value, x.c, s.calls[x.c].id, id, e, h);
    }
  }

  lemma TerminalTells(s: State, x: Step, id: RunId, e: Option<bool>, h: Option<bool>)
    requires Before(s, x, id, e, h) && x.PublishTerminal?
    ensures Tells(s, x, id, e, h)
  {
    assert Sound(s, x.c) && Placed(s, id);
    if s.calls[x.c].id != id {
      OwnerElsewhere(s, Apply(s, x).value, x.c, s.calls[x.c].id, id, e, h);
    }
  }

  lemma DiscardTells(s: State, x: Step, id: RunId, e: Option<bool>, h: Option<bool>)
    requires Before(s, x, id, e, h) && x.Discard?
    ensures Tells(s, x, id, e, h)
  {
    assert Sound(s, x.c) && Placed(s, id);
    if s.calls[x.c].id != id {
      OwnerElsewhere(s, Apply(s, x).value, x.c, s.calls[x.c].id, id, e, h);
    }
  }

  /** A cancel region: only a queued run is touched. */
  lemma CancelIsTold(s: State, c: nat, d: RunId, id: RunId, e: Option<bool>, h: Option<bool>)
    requires Inv(s) && id in s.sh.controls && Told(s, id, e, h) && c !in s.calls
    ensures id in CancelStep(s, c, d).sh.controls && Told(CancelStep(s, c, d), id, e, h)
  {
    assert id in s.owner ==> OwnerIn(s, id);
    if d != id {
      SameIsTold(s, CancelStep(s, c, d), id, e, h);
    }
  }

  lemma CancelTells(s: State, x: Step, id: RunId, e: Option<bool>, h: Option<bool>)
    requires Before(s, x, id, e, h) && x.CancelBeforeStart?
    ensures Tells(s, x, id, e, h)
  {
    CancelIsTold(s, x.c, x.id, id, e, h);
  }

  lemma WithdrawTells(s: State, x: Step, id: RunId, e: Option<bool>, h: Option<bool>)
    requires Before(s, x, id, e, h) && x.Withdraw?
    ensures Tells(s, x, id, e, h)
  {
    assert Sound(s, x.c);
    assert id in s.owner ==> OwnerIn(s, id);
    var d := s.calls[x.c].id;
    if CancelStatusOf(s.sh, d) == AlreadyRunning {
      SameIsTold(s, Apply(s, x).value, id, e, h);
    } else {
      EndedIsTold(s, x.c, id, e, h);
      CancelIsTold(EndCall(s, x.c), x.c, d, id, e, h);
    }
  }

  lemma EndedIsTold(s: State, c: nat, id: RunId, e: Option<bool>, h: Option<bool>)
    requires Inv(s) && id in s.sh.controls && Told(s, id, e, h) && c in s.calls && s.calls[c].Withdrawing?
    ensures Inv(EndCall(s, c)) && Told(EndCall(s, c), id, e, h)
  {
    assert Sound(s, c);
    assert id in s.owner ==> OwnerIn(s, id);
    QuietCall(s, EndCall(s, c), s.calls[c].id, c);
    SameIsTold(s, EndCall(s, c), id, e, h);
  }

  lemma ExitTells(s: State, x: Step, id: RunId, e: Option<bool>, h: Option<bool>)
    requires Before(s, x, id, e, h) && (x.RequestExit? || x.Retry? || x.BeginShutdown?)
    ensures Tells(s, x, id, e, h)
  {
    assert id in s.owner ==> OwnerIn(s, id);
    if x.Retry? {
      assert Sound(s, x.c);
    }
    QuietStep(s, x);
    SameIsTold(s, Apply(s, x).value, id, e, h);
  }

  lemma ShutdownTells(s: State, x: Step, id: RunId, e: Option<bool>, h: Option<bool>)
    requires Before(s, x, id, e, h) && x.FinishShutdown?
    ensures Tells(s, x, id, e, h)
  {
    assert Placed(s, id);
  }

  lemma StepTells(s: State, x: Step, id: RunId, e: Option<bool>, h: Option<bool>)
    requires Before(s, x, id, e, h)
    ensures Tells(s, x, id, e, h)
  {
    if x.Submit? {
      SubmitTells(s, x, id, e, h);
    } else if QuietCallStep(x) {
      CallTells(s, x, id, e, h);
    } else if x.RequestExit? || x.Retry? || x.BeginShutdown? {
      ExitTells(s, x, id, e, h);
    } else if x.CancelBeforeStart? {
      CancelTells(s, x, id, e, h);
    } else if x.Withdraw? {
      WithdrawTells(s, x, id, e, h);
    } else if x.Discard? {
      DiscardTells(s, x, id, e, h);
    } else if x.FinishShutdown? {
      ShutdownTells(s, x, id, e, h);
    } else if x.Exchange? || x.PublishFinalizing? || x.Take? || x.RunHooks? || x.Release? || x.PublishTerminal? {
      WinnerTells(s, x, id, e, h);
    } else {
      AnyDriverTells(s, x, id, e, h);
    }
  }

  lemma WinnerTells(s: State, x: Step, id: RunId, e: Option<bool>, h: Option<bool>)
    requires Before(s, x, id, e, h)
    requires x.Exchange? || x.PublishFinalizing? || x.Take? || x.RunHooks? || x.Release? || x.PublishTerminal?
    ensures Tells(s, x, id, e, h)
  {
    match x
    case Exchange(_) => ExchangeTells(s, x, id, e, h);
    case PublishFinalizing(_) => FinalizingTells(s, x, id, e, h);
    case Take(_) => TakeTells(s, x, id, e, h);
    case RunHooks(_, _) => HooksTell(s, x, id, e, h);
    case Release(_) => ReleaseTells(s, x, id, e, h);
    case PublishTerminal(_) => TerminalTells(s, x, id, e, h);
  }

  lemma AnyDriverTells(s: State, x: Step, id: RunId, e: Option<bool>, h: Option<bool>)
    requires Before(s, x, id, e, h)
    requires x.DriverEnter? || x.DriverClaim? || x.DriverBegin? || x.DriverReturn? || x.DriverPublish? || x.DriverNote?
      || x.DriverOffer?
    ensures Tells(s, x, id, e, h)
  {
    match x
    case DriverClaim => ClaimTells(s, x, id, e, h);
    case DriverPublish => PublishTells(s, x, id, e, h);
    case DriverNote => NoteTells(s, x, id, e, h);
    case DriverOffer => OfferTells(s, x, id, e, h);
    case _ => DriverTells(s, x, id, e, h);
  }

  /** Of a run that a step accepts nothing has been reported. */
  lemma NewIsTold(s: State, x: Step, id: RunId, e: Option<bool>, h: Option<bool>)
    requires id !in s.sh.controls && Apply(s, x).Some? && id in Apply(s, x).value.sh.controls
    ensures Told(Apply(s, x).value, id, e, h)
  {
    if !x.Submit? {
      OnlySubmitAdds(s, x, id);
    }
  }

  lemma OnlySubmitAdds(s: State, x: Step, id: RunId)
    requires Apply(s, x).Some? && !x.Submit? && id !in s.sh.controls
    ensures id !in Apply(s, x).value.sh.controls
  {
    if QuietDriverStep(x) || QuietCallStep(x) || QuietOwnerStep(x) {
      QuietStep(s, x);
    } else if x.DriverPublish? {
      SliceAddsNone(s, s.driver.id, s.driver.outcome, id);
      assert Apply(s, x) == DriverPublishStep(s);
    } else if x.DriverClaim? || x.DriverNote? || x.DriverOffer? {
      DriverAddsNone(s, x, id);
    } else {
      WinnerAddsNone(s, x, id);
    }
  }

  lemma SliceAddsNone(s: State, d: RunId, outcome: SliceOutcome, id: RunId)
    requires id !in s.sh.controls
    ensures id !in PublishSlice(s, d, outcome).sh.controls
  {
  }

  lemma DriverAddsNone(s: State, x: Step, id: RunId)
    requires Apply(s, x).Some? && id !in s.sh.controls && (x.DriverClaim? || x.DriverNote? || x.DriverOffer?)
    ensures id !in Apply(s, x).value.sh.controls
  {
  }

  lemma WinnerAddsNone(s: State, x: Step, id: RunId)
    requires Apply(s, x).Some? && id !in s.sh.controls
    requires x.Exchange? || x.PublishFinalizing? || x.PublishTerminal? || x.CancelBeforeStart? || x.Withdraw?
      || x.FinishShutdown?
    ensures id !in Apply(s, x).value.sh.controls
  {
  }

  lemma {:induction false} ReachableIsTold(steps: seq<Step>, id: RunId)
    requires Exec(steps).Some? && id in Exec(steps).value.sh.controls
    ensures Told(Exec(steps).value, id, EndReport(steps, id), HookReport(steps, id))
    decreases |steps|
  {
    if steps != [] {
      var n := |steps| - 1;
      var s := Exec(steps[..n]).value;
      ReachableInv(steps[..n]);
      if id in s.sh.controls {
        ReachableIsTold(steps[..n], id);
        StepTells(s, steps[n], id, EndReport(steps[..n], id), HookReport(steps[..n], id));
      } else {
        NewIsTold(s, steps[n], id, EndReport(steps, id), HookReport(steps, id));
      }
    }
  }

  /** In every execution a finished run's last slice and its hooks have both reported, and the
      run is Failed exactly when one of them reported failure, Completed when neither did. */
  lemma FinishedAsReported(steps: seq<Step>, id: RunId)
    requires Exec(steps).Some? && id in Exec(steps).value.sh.controls
    requires var st := Exec(steps).value.sh.controls[id].state; st == Completed || st == Failed
    ensures EndReport(steps, id).Some? && HookReport(steps, id).Some?
    ensures Exec(steps).value.sh.controls[id].state
      == if EndReport(steps, id).value || HookReport(steps, id).value then Failed else Completed
  {
    ReachableIsTold(steps, id);
  }

  /** From the moment a run can be finalized, its control says how its execution ended. */
  lemma FailureIsAsReported(steps: seq<Step>, id: RunId)
    requires Exec(steps).Some? && id in Exec(steps).value.sh.controls
    requires var st := Exec(steps).value.sh.controls[id].state; st == FinalizationPending || st == Finalizing
    ensures EndReport(steps, id) == Some(Exec(steps).value.sh.controls[id].failed)
  {
    ReachableIsTold(steps, id);
  }
}
