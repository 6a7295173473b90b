/** The promises of the embedded runtime, over every interleaving of its threads. */
module EmbeddedTheorems {
  import opened Utils
  import opened EmbeddedState
  import opened EmbeddedProtocol
  import opened EmbeddedInvariant

  function Rank(st: RunState): nat {
    match st
    case Queued => 0
    case Running | DebugPaused | MainReturned => 1
    case FinalizationPending => 2
    case Finalizing => 3
    case Completed | Failed | Cancelled => 4
  }

  /** How one step may change what a host sees of a run: the rank never falls, a terminal
      state stays, and failure is settled once the run is visible as handed over. */
  predicate Advances(k: Control, k': Control) {
    && Rank(k.state) <= Rank(k'.state)
    && (Terminal(k.state) ==> k'.state == k.state)
    && (Rank(k.state) >= 2 ==> k'.failed == k.failed)
    && (k.claimed ==> k'.claimed)
  }

  lemma StepAdvances(s: State, step: Step, id: RunId)
    requires Inv(s) && Apply(s, step).Some? && id in s.sh.controls
    ensures id in Apply(s, step).value.sh.controls
    ensures Advances(s.sh.controls[id], Apply(s, step).value.sh.controls[id])
  {
    assert Placed(s, id);
    if step.DriverClaim? || step.DriverPublish? || step.DriverNote? || step.DriverOffer? {
      DriverAdvances(s, step, id);
    } else if step.Exchange? || step.PublishFinalizing? || step.PublishTerminal? || step.Withdraw? {
      assert Sound(s, step.c);
      CallAdvances(s, step, id);
    } else if step.FinishShutdown? {
      ShutdownAdvances(s, id);
    } else if !step.Submit? && !step.CancelBeforeStart? {
      QuietStep(s, step);
      SameAdvances(s.sh.controls[id]);
    }
  }

  lemma QuietStep(s: State, step: Step)
    requires Apply(s, step).Some?
    requires QuietDriverStep(step) || QuietCallStep(step) || QuietOwnerStep(step)
    ensures Apply(s, step).value.sh.controls == s.sh.controls
  {
    if QuietDriverStep(step) {
      DriverIsQuiet(s, step);
    } else if QuietCallStep(step) {
      CallIsQuiet(s, step);
    } else {
      OwnerIsQuiet(s, step);
    }
  }

  predicate QuietDriverStep(step: Step) {
    step.DriverEnter? || step.DriverBegin? || step.DriverReturn? || step.BeginShutdown? || step.RequestExit?
    || step.Retry?
  }

  predicate QuietCallStep(step: Step) {
    step.StartWait? || step.Wake? || step.Lease? || step.StartFinalize? || step.Observe? || step.WakeLoser?
  }

  predicate QuietOwnerStep(step: Step) { step.Take? || step.RunHooks? || step.Release? || step.Discard? }

  lemma DriverIsQuiet(s: State, step: Step)
    requires QuietDriverStep(step) && Apply(s, step).Some?
    ensures Apply(s, step).value.sh.controls == s.sh.controls
  {
  }

  lemma CallIsQuiet(s: State, step: Step)
    requires QuietCallStep(step) && Apply(s, step).Some?
    ensures Apply(s, step).value.sh.controls == s.sh.controls
  {
  }

  lemma OwnerIsQuiet(s: State, step: Step)
    requires QuietOwnerStep(step) && Apply(s, step).Some?
    ensures Apply(s, step).value.sh.controls == s.sh.controls
  {
  }

  lemma DriverAdvances(s: State, step: Step, id: RunId)
    requires Shape(s) && Apply(s, step).Some? && id in s.sh.controls && Placed(s, id)
    requires step.DriverClaim? || step.DriverPublish? || step.DriverNote? || step.DriverOffer?
    ensures id in Apply(s, step).value.sh.controls
    ensures Advances(s.sh.controls[id], Apply(s, step).value.sh.controls[id])
  {
    match step
    case DriverClaim => ClaimAdvances(s, id);
    case DriverPublish => SliceAdvances(s, id);
    case DriverNote => NoteAdvances(s, id);
    case DriverOffer => OfferAdvances(s, id);
  }

  lemma ClaimAdvances(s: State, id: RunId)
    requires Shape(s) && DriverClaimStep(s).Some? && id in s.sh.controls && Placed(s, id)
    ensures id in DriverClaimStep(s).value.sh.controls
    ensures Advances(s.sh.controls[id], DriverClaimStep(s).value.sh.controls[id])
  {
  }

  lemma SliceAdvances(s: State, id: RunId)
    requires Shape(s) && DriverPublishStep(s).Some? && id in s.sh.controls && Placed(s, id)
    ensures id in DriverPublishStep(s).value.sh.controls
    ensures Advances(s.sh.controls[id], DriverPublishStep(s).value.sh.controls[id])
  {
    var d, k := s.driver.id, s.sh.controls[id];
    assert d == id ==> Executing(k.state);
    match s.driver.outcome
    case Paused => SetControls(s, d, DebugPaused, id);
    case BodyReturned => SetControls(s, d, MainReturned, id);
    case Yielded | Blocked =>
      SetControls(s, d, Running, id);
      SameAdvances(k);
    case _ => SameAdvances(k);
  }

  lemma SameAdvances(k: Control)
    ensures Advances(k, k)
  {
  }

  lemma SetControls(s: State, d: RunId, st: RunState, id: RunId)
    requires id in s.sh.controls
    ensures var after := Set(s, d, st).sh.controls;
      id in after && after[id] == if d == id then s.sh.controls[id].(state := st) else s.sh.controls[id]
  {
  }

  lemma NoteAdvances(s: State, id: RunId)
    requires Shape(s) && DriverNoteStep(s).Some? && id in s.sh.controls && Placed(s, id)
    ensures id in DriverNoteStep(s).value.sh.controls
    ensures Advances(s.sh.controls[id], DriverNoteStep(s).value.sh.controls[id])
  {
  }

  lemma OfferAdvances(s: State, id: RunId)
    requires Shape(s) && DriverOfferStep(s).Some? && id in s.sh.controls && Placed(s, id)
    ensures id in DriverOfferStep(s).value.sh.controls
    ensures Advances(s.sh.controls[id], DriverOfferStep(s).value.sh.controls[id])
  {
  }

  lemma CallAdvances(s: State, step: Step, id: RunId)
    requires Apply(s, step).Some? && id in s.sh.controls && Placed(s, id)
    requires step.Exchange? || step.PublishFinalizing? || step.PublishTerminal? || step.Withdraw?
    requires step.c in s.calls && Sound(s, step.c)
    ensures id in Apply(s, step).value.sh.controls
    ensures Advances(s.sh.controls[id], Apply(s, step).value.sh.controls[id])
  {
    match step
    case Exchange(c) => ExchangeAdvances(s, c, id);
    case PublishFinalizing(c) => PublishAdvances(s, step, id);
    case PublishTerminal(c) => PublishAdvances(s, step, id);
    case Withdraw(c) => WithdrawAdvances(s, c, id);
  }

  lemma ExchangeAdvances(s: State, c: nat, id: RunId)
    requires ExchangeStep(s, c).Some? && id in s.sh.controls && Placed(s, id) && c in s.calls && Sound(s, c)
    ensures id in ExchangeStep(s, c).value.sh.controls
    ensures Advances(s.sh.controls[id], ExchangeStep(s, c).value.sh.controls[id])
  {
  }

  lemma PublishAdvances(s: State, step: Step, id: RunId)
    requires step.PublishFinalizing? || step.PublishTerminal?
    requires Apply(s, step).Some? && id in s.sh.controls && Placed(s, id) && step.c in s.calls && Sound(s, step.c)
    ensures id in Apply(s, step).value.sh.controls
    ensures Advances(s.sh.controls[id], Apply(s, step).value.sh.controls[id])
  {
  }

  lemma WithdrawAdvances(s: State, c: nat, id: RunId)
    requires WithdrawStep(s, c).Some? && id in s.sh.controls && Placed(s, id) && c in s.calls && Sound(s, c)
    ensures id in WithdrawStep(s, c).value.sh.controls
    ensures Advances(s.sh.controls[id], WithdrawStep(s, c).value.sh.controls[id])
  {
  }

  lemma ShutdownAdvances(s: State, id: RunId)
    requires Inv(s) && FinishShutdownStep(s).Some? && id in s.sh.controls
    ensures id in FinishShutdownStep(s).value.sh.controls
    ensures Advances(s.sh.controls[id], FinishShutdownStep(s).value.sh.controls[id])
  {
    NothingOwned(s);
    assert Placed(s, id);
  }

  /** Over any continuation of any run: ranks never fall, terminal states stay, and a
      failure seen from FinalizationPending on is final. */
  lemma {:induction false} RunsOnlyAdvance(steps: seq<Step>, n: nat, id: RunId)
    requires n <= |steps| && Exec(steps).Some? && Exec(steps[..n]).Some?
    requires id in Exec(steps[..n]).value.sh.controls
    ensures id in Exec(steps).value.sh.controls
    ensures Advances(Exec(steps[..n]).value.sh.controls[id], Exec(steps).value.sh.controls[id])
    decreases |steps|
  {
    if n == |steps| {
      assert steps[..n] == steps;
    } else {
      var m := |steps| - 1;
      assert steps[..m][..n] == steps[..n];
      RunsOnlyAdvance(steps[..m], n, id);
      ReachableInv(steps[..m]);
      StepAdvances(Exec(steps[..m]).value, steps[m], id);
    }
  }

  /** One record at a time: no slot is ever overwritten, whichever move comes next. */
  lemma NoRecordIsOverwritten(steps: seq<Step>)
    requires Exec(steps).Some?
    ensures var s := Exec(steps).value;
      && OneSlot(s.sh)
      && (s.sh.pending.Some? ==> s.sh.active.None?)
      && (s.driver.Deciding? ==> Holds(s.sh.active, s.driver.id) && s.sh.finalizing.None?)
  {
    ReachableInv(steps);
  }

  /** A submission is accepted exactly when no record is live, and a refused one changes
      nothing. */
  lemma SubmitDecides(steps: seq<Step>, valid: bool)
    requires Exec(steps).Some? && !Exec(steps).value.gone
    ensures var s := Exec(steps).value;
      && (SubmitStatusOf(s.sh, valid) == Accepted <==>
            valid && !s.sh.shuttingDown && forall id | id in s.sh.controls :: !InSlot(s.sh, id))
      && (SubmitStatusOf(s.sh, valid) != Accepted ==> SubmitStep(s, valid) == Some(s))
      && (SubmitStatusOf(s.sh, valid) == Accepted ==> s.sh.nextRunId !in s.sh.controls)
      && (SubmitStatusOf(s.sh, valid) == DriverUnavailable <==> !valid)
      && (SubmitStatusOf(s.sh, valid) == ShuttingDown <==> valid && s.sh.shuttingDown)
  {
    ReachableInv(steps);
    var s := Exec(steps).value;
    if s.sh.pending.Some? {
      assert InSlot(s.sh, s.sh.pending.value.id);
    }
    if s.sh.active.Some? {
      assert InSlot(s.sh, s.sh.active.value.id);
    }
    if s.sh.finalizing.Some? {
      assert InSlot(s.sh, s.sh.finalizing.value.id);
    }
  }

  /** The call that keeps a record out of the slots until it releases it. */
  predicate HeldByCall(s: State, id: RunId) {
    OwnerIn(s, id) &&
    var call := s.calls[s.owner[id]];
    (call.Hooking? && call.holds) || (call.Releasing? && call.holds) || call.Discarding?
  }

  /** Conservation: an accepted record is in a slot, or held by the one call that will
      release it, or released, and in exactly one of these places; no record is released
      twice and no run's hooks run twice. */
  lemma RecordsAreConserved(steps: seq<Step>, id: RunId)
    requires Exec(steps).Some? && id in Exec(steps).value.sh.controls
    ensures var s := Exec(steps).value;
      && (InSlot(s.sh, id) || HeldByCall(s, id) || id in s.released)
      && !(InSlot(s.sh, id) && HeldByCall(s, id))
      && !(InSlot(s.sh, id) && id in s.released)
      && !(HeldByCall(s, id) && id in s.released)
      && NoDuplicates(s.released) && NoDuplicates(s.hooked)
  {
    ReachableInv(steps);
    var s := Exec(steps).value;
    assert Placed(s, id);
    if id in s.owner {
      assert OwnerIn(s, id) && Sound(s, s.owner[id]);
    }
  }

  /** A run visible as FinalizationPending is out of the driver's hands: its record waits
      in the finalizing slot, the driver is neither in a slice of it nor about to change
      it, it is claimed exactly when a winner is on its way, and whether it has failed is
      settled whatever happens next. */
  lemma PendingIsHandedOver(steps: seq<Step>, id: RunId)
    requires Exec(steps).Some? && id in Exec(steps).value.sh.controls
    requires Exec(steps).value.sh.controls[id].state == FinalizationPending
    ensures var s := Exec(steps).value;
      && Holds(s.sh.finalizing, id)
      && !(s.driver != Away && !s.driver.Entered? && !s.driver.Ready? && s.driver.id == id)
      && (s.sh.controls[id].claimed <==> OwnerIn(s, id) && s.calls[s.owner[id]].Winning?)
    ensures forall more | Exec(steps + more).Some? ::
      FailureStays(Exec(steps).value.sh.controls[id], steps + more, id)
  {
    ReachableInv(steps);
    var s := Exec(steps).value;
    assert Placed(s, id);
    forall more | Exec(steps + more).Some?
      ensures FailureStays(s.sh.controls[id], steps + more, id)
    {
      assert (steps + more)[..|steps|] == steps;
      RunsOnlyAdvance(steps + more, |steps|, id);
    }
  }

  /** After the given steps the run is marked as failed exactly as it was. */
  predicate FailureStays(was: Control, steps: seq<Step>, id: RunId)
    requires Exec(steps).Some?
  {
    id in Exec(steps).value.sh.controls && Exec(steps).value.sh.controls[id].failed == was.failed
  }

  /** The winner always finds the record it came for. */
  lemma WinnerFindsTheRecord(steps: seq<Step>, c: nat)
    requires Exec(steps).Some? && c in Exec(steps).value.calls && Exec(steps).value.calls[c].Taking?
    ensures var s := Exec(steps).value; TakeStep(s, c).Some? && TakeStep(s, c).value.calls[c].holds
  {
    ReachableInv(steps);
    var s := Exec(steps).value;
    assert Sound(s, c) && Placed(s, s.calls[c].id);
  }

  function ExecFrom(s: State, steps: seq<Step>): Option<State>
    decreases |steps|
  {
    if steps == [] then Some(s)
    else match Apply(s, steps[0])
      case None => None
      case Some(s') => ExecFrom(s', steps[1..])
  }

  /** The steps a winner still has to take; fails says how its hooks end. */
  function WinnersSteps(call: Call, w: nat, fails: bool): seq<Step> {
    match call
    case Winning(_) => [PublishFinalizing(w), Take(w), RunHooks(w, fails), Release(w), PublishTerminal(w)]
    case Taking(_) => [Take(w), RunHooks(w, fails), Release(w), PublishTerminal(w)]
    case Hooking(_, _) => [RunHooks(w, fails), Release(w), PublishTerminal(w)]
    case Releasing(_, _, _) => [Release(w), PublishTerminal(w)]
    case Publishing(_, _) => [PublishTerminal(w)]
    case _ => []
  }

  predicate Finalizer(call: Call) {
    call.Winning? || call.Taking? || call.Hooking? || call.Releasing? || call.Publishing?
  }

  /** How the run of a winner ends: failed if it has failed, or if its hooks, unless they
      have run, throw. */
  function Verdict(s: State, call: Call, fails: bool): RunState {
    var failed :=
      if call.Releasing? || call.Publishing? then call.failed else Known(s, call.id).failed || fails;
    if failed then Failed else Completed
  }

  /** The last step of a winner. */
  lemma WinnerPublishes(s: State, w: nat, fails: bool)
    requires w in s.calls && s.calls[w].Publishing? && Sound(s, w)
    ensures var id, next := s.calls[w].id, PublishTerminalStep(s, w);
      && next.Some? && next.value.calls == s.calls - {w}
      && id in next.value.sh.controls && next.value.sh.controls[id].state == Verdict(s, s.calls[w], fails)
  {
  }

  /** Winner w has come one stage on; every other call is where it was, and how the run will
      end has not changed. */
  predicate OneStageOn(s: State, s': State, w: nat, fails: bool)
    requires w in s.calls
  {
    && w in s'.calls && s'.calls == s.calls[w := s'.calls[w]]
    && Finalizer(s'.calls[w]) && s'.calls[w].id == s.calls[w].id
    && Verdict(s', s'.calls[w], fails) == Verdict(s, s.calls[w], fails)
  }

  /** Step x is the next one of winner w and leads to s'. */
  predicate GoesOnBy(s: State, x: Step, s': State, w: nat, fails: bool)
    requires w in s.calls
  {
    && Apply(s, x) == Some(s') && OneStageOn(s, s', w, fails)
    && WinnersSteps(s.calls[w], w, fails) == [x] + WinnersSteps(s'.calls[w], w, fails)
  }

  lemma WinningGoesOn(s: State, w: nat, fails: bool) returns (s': State)
    requires w in s.calls && s.calls[w].Winning?
    ensures GoesOnBy(s, PublishFinalizing(w), s', w, fails)
  {
    s' := PublishFinalizingStep(s, w).value;
    var id := s.calls[w].id;
    if id in s.sh.controls {
      SetControls(s, id, Finalizing, id);
    }
  }

  lemma TakingGoesOn(s: State, w: nat, fails: bool) returns (s': State)
    requires w in s.calls && s.calls[w].Taking?
    ensures GoesOnBy(s, Take(w), s', w, fails)
  {
    s' := TakeStep(s, w).value;
  }

  lemma HookingGoesOn(s: State, w: nat, fails: bool) returns (s': State)
    requires w in s.calls && s.calls[w].Hooking? && s.calls[w].holds
    ensures GoesOnBy(s, RunHooks(w, fails), s', w, fails)
  {
    s' := RunHooksStep(s, w, fails).value;
  }

  lemma ReleasingGoesOn(s: State, w: nat, fails: bool) returns (s': State)
    requires w in s.calls && s.calls[w].Releasing?
    ensures GoesOnBy(s, Release(w), s', w, fails)
  {
    s' := ReleaseStep(s, w).value;
  }

  lemma HookingHolds(s: State, w: nat)
    requires Inv(s) && w in s.calls && s.calls[w].Hooking?
    ensures s.calls[w].holds
  {
    assert Sound(s, w) && Placed(s, s.calls[w].id);
  }

  /** Any step of a winner but the last. */
  lemma WinnerGoesOn(s: State, w: nat, fails: bool) returns (x: Step, s': State)
    requires w in s.calls && Finalizer(s.calls[w]) && !s.calls[w].Publishing?
    requires s.calls[w].Hooking? ==> s.calls[w].holds
    ensures GoesOnBy(s, x, s', w, fails)
  {
    if s.calls[w].Winning? {
      x := PublishFinalizing(w);
      s' := WinningGoesOn(s, w, fails);
    } else if s.calls[w].Taking? {
      x := Take(w);
      s' := TakingGoesOn(s, w, fails);
    } else if s.calls[w].Hooking? {
      x := RunHooks(w, fails);
      s' := HookingGoesOn(s, w, fails);
    } else {
      x := Release(w);
      s' := ReleasingGoesOn(s, w, fails);
    }
  }

  lemma OneMoreStep(s: State, x: Step, rest: seq<Step>, s': State)
    requires Apply(s, x) == Some(s')
    ensures ExecFrom(s, [x] + rest) == ExecFrom(s', rest)
  {
    assert ([x] + rest)[1..] == rest;
  }

  /** Winner w is done, the others are where they were, and its run has ended as it says. */
  predicate FinishedAs(s: State, end: Option<State>, w: nat, verdict: RunState)
    requires w in s.calls
  {
    && end.Some? && s.calls[w].id in end.value.sh.controls
    && end.value.sh.controls[s.calls[w].id].state == verdict
    && end.value.calls == s.calls - {w}
  }

  /** However its hooks end, a winner that is left alone reaches the terminal state that they
      and its execution call for. */
  lemma {:induction false} WinnerFinishes(s: State, w: nat, fails: bool)
    requires Inv(s) && w in s.calls && Finalizer(s.calls[w])
    ensures FinishedAs(s, ExecFrom(s, WinnersSteps(s.calls[w], w, fails)), w, Verdict(s, s.calls[w], fails))
    decreases |WinnersSteps(s.calls[w], w, fails)|
  {
    if s.calls[w].Publishing? {
      assert Sound(s, w);
      LastStep(s, w, fails);
    } else {
      if s.calls[w].Hooking? {
        HookingHolds(s, w);
      }
      var x, s' := WinnerGoesOn(s, w, fails);
      StepInv(s, x);
      WinnerFinishes(s', w, fails);
      OneMoreStep(s, x, WinnersSteps(s'.calls[w], w, fails), s');
      FinishedLater(s, s', ExecFrom(s', WinnersSteps(s'.calls[w], w, fails)), w, fails);
    }
  }

  lemma LastStep(s: State, w: nat, fails: bool)
    requires w in s.calls && s.calls[w].Publishing? && Sound(s, w)
    ensures FinishedAs(s, ExecFrom(s, WinnersSteps(s.calls[w], w, fails)), w, Verdict(s, s.calls[w], fails))
  {
    WinnerPublishes(s, w, fails);
    OneMoreStep(s, PublishTerminal(w), [], PublishTerminalStep(s, w).value);
    assert WinnersSteps(s.calls[w], w, fails) == [PublishTerminal(w)] + [];
  }

  lemma FinishedLater(s: State, s': State, end: Option<State>, w: nat, fails: bool)
    requires w in s.calls && OneStageOn(s, s', w, fails)
    requires FinishedAs(s', end, w, Verdict(s', s'.calls[w], fails))
    ensures FinishedAs(s, end, w, Verdict(s, s.calls[w], fails))
  {
    assert s'.calls - {w} == s.calls - {w};
  }

  /** No loser is left behind: a call waiting for another finalizer either may wake now, or
      the winner is on its way, and its remaining steps, however the hooks end, enable the
      loser's wake-up. */
  lemma LosersAreReleased(steps: seq<Step>, c: nat, fails: bool)
    requires Exec(steps).Some? && c in Exec(steps).value.calls && Exec(steps).value.calls[c].Losing?
    ensures var s := Exec(steps).value;
      var id := s.calls[c].id;
      || WakeLoserStep(s, c).Some?
      || (OwnerIn(s, id) && s.owner[id] != c
          && var end := ExecFrom(s, WinnersSteps(s.calls[s.owner[id]], s.owner[id], fails));
             end.Some? && WakeLoserStep(end.value, c).Some?)
  {
    ReachableInv(steps);
    var s := Exec(steps).value;
    var id := s.calls[c].id;
    assert Sound(s, c) && Placed(s, id);
    if !Terminal(s.sh.controls[id].state) {
      assert OwnerIn(s, id);
      WinnerFinishes(s, s.owner[id], fails);
    }
  }

  /** After shutdown every accepted run is terminal and its record released, so every
      waiting call can wake. */
  lemma ShutdownSettlesEverything(steps: seq<Step>, id: RunId)
    requires Exec(steps).Some? && Exec(steps).value.gone && id in Exec(steps).value.sh.controls
    ensures var s := Exec(steps).value;
      && Terminal(s.sh.controls[id].state) && id in s.released
      && forall c | c in s.calls && s.calls[c] == Waiting(id) :: WakeStep(s, c).Some?
  {
    ReachableInv(steps);
    var s := Exec(steps).value;
    NothingOwned(s);
    assert Placed(s, id);
  }

  /** A cancelled run never runs its hooks, and a finished run has run them once. */
  lemma HooksMatchOutcome(steps: seq<Step>, id: RunId)
    requires Exec(steps).Some? && id in Exec(steps).value.sh.controls
    ensures var s := Exec(steps).value;
      && (s.sh.controls[id].state == Cancelled ==> id !in s.hooked)
      && (s.sh.controls[id].state == Completed || s.sh.controls[id].state == Failed ==>
            id in s.hooked && id in s.released)
      && (id in s.hooked ==> s.sh.controls[id].claimed)
  {
    ReachableInv(steps);
    var s := Exec(steps).value;
    assert Placed(s, id);
  }

  // ---- What a host's requests do ------------------------------------------------------------------------

  /** A run is withdrawn exactly while no driver has claimed it; its record then is the
      caller's to destroy. Otherwise the status says where the run is and nothing changes. */
  lemma CancelDecides(steps: seq<Step>, c: nat, id: RunId)
    requires Exec(steps).Some? && id in Exec(steps).value.sh.controls && c !in Exec(steps).value.calls
    ensures var s := Exec(steps).value;
      var status, st, s' := CancelStatusOf(s.sh, id), s.sh.controls[id].state, CancelStep(s, c, id);
      && (status == CancelDone <==> st == Queued)
      && (status == AlreadyRunning <==> Executing(st) && !Offering(s, id))
      && (status == AlreadyTerminal <==> st == Cancelled)
      && (status == CancelDone ==>
            !InSlot(s'.sh, id) && s'.sh.controls[id].state == Cancelled && s'.calls[c] == Discarding(id))
      && (status != CancelDone ==> s' == s)
  {
    ReachableInv(steps);
    assert Placed(Exec(steps).value, id);
  }

  /** The code a run is to exit with: the one that stands for no request is replaced. */
  predicate LeftWith(sh: Shared, id: RunId, code: int) {
    && Holds(sh.active, id) && sh.active.value.exitRequest.Some?
    && sh.active.value.exitRequest.value != NO_EXIT_REQUEST
    && (code != NO_EXIT_REQUEST ==> sh.active.value.exitRequest.value == code)
  }

  /** An exit request reaches a run that has not ended: a running one is left the code, a
      queued one is to be withdrawn, and any other is left alone. */
  lemma ExitRequestDecides(steps: seq<Step>, c: nat, id: RunId, code: int)
    requires Exec(steps).Some? && !Exec(steps).value.gone && Fresh(Exec(steps).value, c, id)
    ensures var s := Exec(steps).value;
      var st, r := s.sh.controls[id].state, RequestExitStep(s, c, id, code);
      && r.Some?
      && (st == Queued ==> r == Some(SetCall(s, c, Withdrawing(id, code))))
      && (Executing(st) && !Offering(s, id) ==> LeftWith(r.value.sh, id, code))
      && (st != Queued && !(Executing(st) && !Offering(s, id)) ==> r.value == s)
  {
    ReachableInv(steps);
    assert Placed(Exec(steps).value, id);
  }

  /** A run to be withdrawn is cancelled, or if the driver has come first, is left the code by
      the next step of the call, unless it has ended by then. */
  lemma WithdrawDecides(steps: seq<Step>, c: nat)
    requires Exec(steps).Some? && c in Exec(steps).value.calls && Exec(steps).value.calls[c].Withdrawing?
    ensures var s := Exec(steps).value;
      var id, code, r := s.calls[c].id, s.calls[c].code, WithdrawStep(s, c);
      && r.Some? && id in s.sh.controls
      && (s.sh.controls[id].state == Queued ==>
            r.value.sh.controls[id].state == Cancelled && r.value.calls[c] == Discarding(id))
      && (Executing(s.sh.controls[id].state) && !Offering(s, id) ==> r.value == SetCall(s, c, Retrying(id, code)))
  {
    ReachableInv(steps);
    var s := Exec(steps).value;
    assert Sound(s, c);
    assert Placed(s, s.calls[c].id);
  }

  lemma RetryDecides(steps: seq<Step>, c: nat)
    requires Exec(steps).Some? && c in Exec(steps).value.calls && Exec(steps).value.calls[c].Retrying?
    ensures var s := Exec(steps).value;
      var id, code, r := s.calls[c].id, s.calls[c].code, RetryStep(s, c);
      && r.Some? && id in s.sh.controls && r.value.calls == s.calls - {c}
      && (Executing(s.sh.controls[id].state) && !Offering(s, id) ==> LeftWith(r.value.sh, id, code))
  {
    ReachableInv(steps);
    var s := Exec(steps).value;
    assert Sound(s, c);
    assert Placed(s, s.calls[c].id);
  }

  /** What a host sees once the driver has left a slice: a pause, a body that has returned, a
      paused run that goes on; a run that has ended is not shown as such, but its record is in
      the finalizing slot. */
  lemma SliceDecides(steps: seq<Step>)
    requires Exec(steps).Some? && Exec(steps).value.driver.Deciding?
    ensures var s := Exec(steps).value;
      s.driver.id in s.sh.controls && SliceShown(s, PublishSlice(s, s.driver.id, s.driver.outcome), s.driver.id)
    ensures DriverPublishStep(Exec(steps).value)
      == Some(PublishSlice(Exec(steps).value, Exec(steps).value.driver.id, Exec(steps).value.driver.outcome))
  {
    ReachableInv(steps);
    var s := Exec(steps).value;
    SliceIsShown(s, s.driver.id, s.driver.outcome);
  }

  predicate SliceShown(s: State, s': State, id: RunId)
    requires s.driver.Deciding? && id in s.sh.controls
  {
    var outcome := s.driver.outcome;
    && id in s'.sh.controls
    && (outcome == Ended || outcome == EndedInFailure <==> Holds(s'.sh.finalizing, id))
    && (Holds(s'.sh.finalizing, id) ==> s'.sh.controls == s.sh.controls)
    && (!Holds(s'.sh.finalizing, id) ==> (outcome == Paused <==> s'.sh.controls[id].state == DebugPaused))
    && (outcome == BodyReturned ==> s'.sh.controls[id].state == MainReturned)
    && ((outcome == Yielded || outcome == Blocked) && s.sh.controls[id].state != DebugPaused ==> s'.sh == s.sh)
  }

  lemma SliceIsShown(s: State, id: RunId, outcome: SliceOutcome)
    requires s.driver == Deciding(id, outcome) && Shape(s)
    ensures id in s.sh.controls && SliceShown(s, PublishSlice(s, id, outcome), id)
  {
    match outcome
    case Paused => SetControls(s, id, DebugPaused, id);
    case BodyReturned => SetControls(s, id, MainReturned, id);
    case Yielded | Blocked => SetControls(s, id, Running, id);
    case _ =>
  }

  /** A waiting call can wake exactly when its run is not queued, running or being finalized;
      then nobody is in a slice of it. */
  lemma WaitersWakeIff(steps: seq<Step>, c: nat)
    requires Exec(steps).Some? && c in Exec(steps).value.calls && Exec(steps).value.calls[c].Waiting?
    ensures var s := Exec(steps).value;
      var id := s.calls[c].id;
      && id in s.sh.controls
      && (WakeStep(s, c).Some? <==>
            !(s.sh.controls[id].state == Queued || Executing(s.sh.controls[id].state)
              || s.sh.controls[id].state == Finalizing))
      && (WakeStep(s, c).Some? ==> WakeStep(s, c).value == SetCall(s, c, Woken(id)) && s.driver != Slicing(id))
  {
    ReachableInv(steps);
    var s := Exec(steps).value;
    assert Sound(s, c);
    assert Placed(s, s.calls[c].id);
  }

  /** The first thread that claims is the driver from then on: it alone takes runs. */
  lemma DriverIsLatched(sh: Shared, thread: nat, other: nat)
    requires SlotsKnown(sh) && !sh.shuttingDown && other != thread
    requires sh.driver == None || sh.driver == Some(thread)
    ensures var claimed := ClaimRegion(sh, thread);
      && claimed.driver == Some(thread)
      && (sh.pending.Some? ==> claimed.active == sh.pending && claimed.pending == None
                               && claimed.controls[sh.pending.value.id].state == Running)
      && (SlotsKnown(claimed) ==> ClaimRegion(claimed, other) == claimed && !MayBegin(claimed, other))
  {
  }
}
