/** What every interleaving of the embedded-runtime protocol keeps. */
module EmbeddedInvariant {
  import opened Utils
  import opened EmbeddedState
  import opened EmbeddedProtocol

  predicate Owns(call: Call, id: RunId) {
    call.id == id
    && (call.Winning? || call.Taking? || call.Hooking? || call.Releasing? || call.Publishing? || call.Discarding?)
  }

  predicate InSlot(sh: Shared, id: RunId) {
    Holds(sh.pending, id) || Holds(sh.active, id) || Holds(sh.finalizing, id)
  }

  /** The driver has moved the record to the finalizers but not published it yet. */
  predicate Offering(s: State, id: RunId) {
    Holds(s.sh.finalizing, id) && ((s.driver.HandedOver? || s.driver.Noted?) && s.driver.id == id)
  }

  predicate NoDuplicates(ids: seq<RunId>) {
    forall i, j | 0 <= i < j < |ids| :: ids[i] != ids[j]
  }

  /** At most one of the three slots is occupied. */
  predicate OneSlot(sh: Shared) {
    && !(sh.pending.Some? && sh.active.Some?)
    && !(sh.pending.Some? && sh.finalizing.Some?)
    && !(sh.active.Some? && sh.finalizing.Some?)
  }

  predicate OwnerIn(s: State, id: RunId) {
    id in s.owner && s.owner[id] in s.calls && Owns(s.calls[s.owner[id]], id)
  }

  /** Where a run's record is, and who may touch it, for each state its control shows. */
  predicate Placed(s: State, id: RunId)
    requires id in s.sh.controls
  {
    var k := s.sh.controls[id];
    match k.state
    case Queued =>
      Holds(s.sh.pending, id) && !k.claimed && !k.failed && id !in s.owner
      && id !in s.released && id !in s.hooked
    case Running | DebugPaused | MainReturned =>
      (Holds(s.sh.active, id) || Offering(s, id)) && !k.claimed && id !in s.owner
      && id !in s.released && id !in s.hooked && (k.failed ==> s.driver == Noted(id))
    case FinalizationPending =>
      Holds(s.sh.finalizing, id) && id !in s.released && id !in s.hooked
      && (k.claimed <==> id in s.owner) && (k.claimed ==> OwnerIn(s, id) && s.calls[s.owner[id]].Winning?)
    case Finalizing =>
      k.claimed && OwnerIn(s, id) && FinalizingStage(s, id, s.calls[s.owner[id]])
    case Completed | Failed =>
      k.claimed && id !in s.owner && !InSlot(s.sh, id) && id in s.released && id in s.hooked
    case Cancelled =>
      !k.claimed && !InSlot(s.sh, id) && id !in s.hooked
      && (id in s.owner ==> OwnerIn(s, id) && s.calls[s.owner[id]].Discarding? && id !in s.released)
      && (id !in s.owner ==> id in s.released)
  }

  predicate FinalizingStage(s: State, id: RunId, call: Call) {
    match call
    case Taking(_) => Holds(s.sh.finalizing, id) && id !in s.released && id !in s.hooked
    case Hooking(_, holds) => holds && !InSlot(s.sh, id) && id !in s.released && id !in s.hooked
    case Releasing(_, holds, _) => holds && !InSlot(s.sh, id) && id !in s.released && id in s.hooked
    case Publishing(_, _) => !InSlot(s.sh, id) && id in s.released && id in s.hooked
    case _ => false
  }

  /** What a call in flight may rely on about its run. */
  predicate Sound(s: State, c: nat)
    requires c in s.calls
  {
    var call := s.calls[c];
    && call.id in s.sh.controls
    && (Owns(call, call.id) ==> call.id in s.owner && s.owner[call.id] == c)
    && (call.Observed? || call.Losing? ==>
          var st := s.sh.controls[call.id].state;
          st == FinalizationPending || st == Finalizing || st == Completed || st == Failed)
    && (call.Losing? ==> s.sh.controls[call.id].claimed)
    && (call.Winning? ==> s.sh.controls[call.id].state == FinalizationPending)
    && (call.Taking? || call.Hooking? || call.Releasing? || call.Publishing? ==>
          s.sh.controls[call.id].state == Finalizing)
    && (call.Discarding? ==> s.sh.controls[call.id].state == Cancelled)
  }

  predicate DriverSound(s: State) {
    && (s.sh.sliceInProgress <==> s.driver.Slicing?)
    && (s.driver.Slicing? || s.driver.Deciding? ==> Holds(s.sh.active, s.driver.id))
    && (s.driver.HandedOver? || s.driver.Noted? ==>
          Offering(s, s.driver.id) && s.driver.id in s.sh.controls
          && Executing(s.sh.controls[s.driver.id].state))
    && (s.gone ==> s.driver == Away && s.sh.shuttingDown && QuietForShutdown(s))
    && (s.gone ==> s.sh.pending.None? && s.sh.active.None? && s.sh.finalizing.None?)
  }

  predicate StatesFitSlots(sh: Shared) {
    && (sh.pending.Some? ==> sh.pending.value.id in sh.controls && sh.controls[sh.pending.value.id].state == Queued)
    && (sh.active.Some? ==> sh.active.value.id in sh.controls && Executing(sh.controls[sh.active.value.id].state))
    && (sh.finalizing.Some? ==> sh.finalizing.value.id in sh.controls)
  }

  predicate Logs(s: State) {
    && NoDuplicates(s.released) && NoDuplicates(s.hooked)
    && (forall id | id in s.released :: id in s.sh.controls)
    && (forall id | id in s.hooked :: id in s.sh.controls)
  }

  predicate Shape(s: State) {
    && OneSlot(s.sh) && StatesFitSlots(s.sh) && DriverSound(s)
    && forall id | id in s.sh.controls :: id < s.sh.nextRunId
  }

  predicate AllPlaced(s: State) { forall id | id in s.sh.controls :: Placed(s, id) }

  predicate AllSound(s: State) { forall c | c in s.calls :: Sound(s, c) }

  predicate AllOwned(s: State) { forall id | id in s.owner :: id in s.sh.controls && OwnerIn(s, id) }

  predicate Inv(s: State) { Shape(s) && AllPlaced(s) && AllSound(s) && AllOwned(s) && Logs(s) }

  // ---- Framing: a step touches one run and one call --------------------------------------------

  /** Run j looks the same in both states. */
  predicate SameRun(s: State, s': State, j: RunId) {
    && (j in s.sh.controls <==> j in s'.sh.controls)
    && (j in s.sh.controls ==> s'.sh.controls[j] == s.sh.controls[j])
    && (Holds(s.sh.pending, j) <==> Holds(s'.sh.pending, j))
    && (Holds(s.sh.active, j) <==> Holds(s'.sh.active, j))
    && (Holds(s.sh.finalizing, j) <==> Holds(s'.sh.finalizing, j))
    && (Offering(s, j) <==> Offering(s', j))
    && (s.driver == Noted(j) <==> s'.driver == Noted(j))
    && (j in s.owner <==> j in s'.owner)
    && (j in s.owner ==> s'.owner[j] == s.owner[j])
    && (j in s.released <==> j in s'.released)
    && (j in s.hooked <==> j in s'.hooked)
  }

  ghost predicate SameCalls(s: State, s': State, c: nat) {
    forall d | d != c :: (d in s.calls <==> d in s'.calls) && (d in s.calls ==> s'.calls[d] == s.calls[d])
  }

  ghost predicate OnlyTouches(s: State, s': State, id: RunId, c: nat) {
    SameCalls(s, s', c) && (c in s.calls ==> s.calls[c].id == id) && forall j | j != id :: SameRun(s, s', j)
  }

  lemma PlacedFrame(s: State, s': State, id: RunId, c: nat, j: RunId)
    requires AllPlaced(s) && AllOwned(s) && OnlyTouches(s, s', id, c)
    requires j != id && j in s'.sh.controls
    ensures Placed(s', j)
  {
    assert SameRun(s, s', j);
    assert Placed(s, j);
    if j in s.owner {
      assert OwnerIn(s, j);
      assert s.owner[j] != c;
      assert s'.calls[s'.owner[j]] == s.calls[s.owner[j]];
    }
  }

  lemma OwnedFrame(s: State, s': State, id: RunId, c: nat, j: RunId)
    requires AllOwned(s) && OnlyTouches(s, s', id, c)
    requires j != id && j in s'.owner
    ensures j in s'.sh.controls && OwnerIn(s', j)
  {
    assert SameRun(s, s', j);
    assert OwnerIn(s, j);
  }

  lemma SoundFrame(s: State, s': State, id: RunId, c: nat, d: nat)
    requires AllSound(s) && OnlyTouches(s, s', id, c)
    requires d != c && d in s'.calls && s'.calls[d].id != id
    ensures Sound(s', d)
  {
    assert Sound(s, d);
    assert SameRun(s, s', s.calls[d].id);
  }

  /** A step that touches run id and call c only has to answer for those. */
  lemma Frame(s: State, s': State, id: RunId, c: nat)
    requires Inv(s) && OnlyTouches(s, s', id, c)
    requires id in s'.sh.controls ==> Placed(s', id)
    requires c in s'.calls ==> Sound(s', c)
    requires forall d | d in s'.calls && d != c && s'.calls[d].id == id :: Sound(s', d)
    requires id in s'.owner ==> id in s'.sh.controls && OwnerIn(s', id)
    ensures AllPlaced(s') && AllSound(s') && AllOwned(s')
  {
    forall j | j in s'.sh.controls
      ensures Placed(s', j)
    {
      if j != id {
        PlacedFrame(s, s', id, c, j);
      }
    }
    forall d | d in s'.calls
      ensures Sound(s', d)
    {
      if d != c && s'.calls[d].id != id {
        SoundFrame(s, s', id, c, d);
      }
    }
    forall j | j in s'.owner
      ensures j in s'.sh.controls && OwnerIn(s', j)
    {
      if j != id {
        OwnedFrame(s, s', id, c, j);
      }
    }
  }

  lemma InitInv()
    ensures Inv(Init())
  {
  }

  /** A call that comes or goes, or moves on, without touching its run. */
  lemma QuietCall(s: State, s': State, id: RunId, c: nat)
    requires Inv(s) && id in s.sh.controls
    requires s' == s.(calls := s'.calls) && SameCalls(s, s', c)
    requires c in s.calls ==> s.calls[c].id == id && !Owns(s.calls[c], id)
    requires c in s'.calls ==> s'.calls[c].id == id && !Owns(s'.calls[c], id) && Sound(s', c)
    requires s.gone ==> (c in s'.calls ==> !Leased(s'.calls[c]))
    ensures Inv(s')
  {
    assert Placed(s, id);
    assert id in s.owner ==> OwnerIn(s, id);
    forall d | d in s'.calls && d != c && s'.calls[d].id == id
      ensures Sound(s', d)
    {
      assert Sound(s, d);
    }
    Frame(s, s', id, c);
  }

  lemma StartWaitInv(s: State, c: nat, id: RunId)
    requires Inv(s) && StartWaitStep(s, c, id).Some?
    ensures Inv(StartWaitStep(s, c, id).value)
  {
    QuietCall(s, StartWaitStep(s, c, id).value, id, c);
  }

  lemma WakeInv(s: State, c: nat)
    requires Inv(s) && WakeStep(s, c).Some?
    ensures Inv(WakeStep(s, c).value)
  {
    assert Sound(s, c);
    QuietCall(s, WakeStep(s, c).value, s.calls[c].id, c);
  }

  lemma LeaseInv(s: State, c: nat)
    requires Inv(s) && LeaseStep(s, c).Some?
    ensures Inv(LeaseStep(s, c).value)
  {
    assert Sound(s, c);
    QuietCall(s, LeaseStep(s, c).value, s.calls[c].id, c);
  }

  lemma StartFinalizeInv(s: State, c: nat, id: RunId)
    requires Inv(s) && StartFinalizeStep(s, c, id).Some?
    ensures Inv(StartFinalizeStep(s, c, id).value)
  {
    QuietCall(s, StartFinalizeStep(s, c, id).value, id, c);
  }

  lemma ObserveInv(s: State, c: nat)
    requires Inv(s) && ObserveStep(s, c).Some?
    ensures Inv(ObserveStep(s, c).value)
  {
    assert Sound(s, c);
    QuietCall(s, ObserveStep(s, c).value, s.calls[c].id, c);
  }

  lemma WakeLoserInv(s: State, c: nat)
    requires Inv(s) && WakeLoserStep(s, c).Some?
    ensures Inv(WakeLoserStep(s, c).value)
  {
    assert Sound(s, c);
    QuietCall(s, WakeLoserStep(s, c).value, s.calls[c].id, c);
  }

  predicate HandedOverState(st: RunState) {
    st == FinalizationPending || st == Finalizing || st == Completed || st == Failed
  }

  /** A step of the call that owns run id, or comes to own it. */
  lemma OwnerCall(s: State, s': State, id: RunId, c: nat)
    requires Inv(s) && OnlyTouches(s, s', id, c) && id in s.sh.controls && id in s'.sh.controls
    requires id in s.owner ==> s.owner[id] == c
    requires s.sh.controls[id].claimed ==> s'.sh.controls[id].claimed
    requires HandedOverState(s.sh.controls[id].state) ==> HandedOverState(s'.sh.controls[id].state)
    requires Placed(s', id) && (c in s'.calls ==> Sound(s', c)) && (id in s'.owner ==> OwnerIn(s', id))
    requires Shape(s') && Logs(s')
    ensures Inv(s')
  {
    forall d | d in s'.calls && d != c && s'.calls[d].id == id
      ensures Sound(s', d)
    {
      assert Sound(s, d);
    }
    Frame(s, s', id, c);
  }

  lemma ExchangeInv(s: State, c: nat)
    requires Inv(s) && ExchangeStep(s, c).Some?
    ensures Inv(ExchangeStep(s, c).value)
  {
    assert Sound(s, c);
    var id := s.calls[c].id;
    var s' := ExchangeStep(s, c).value;
    assert Placed(s, id);
    if s.sh.controls[id].claimed {
      QuietCall(s, s', id, c);
    } else {
      WinnerInv(s, c);
    }
  }

  lemma WinnerInv(s: State, c: nat)
    requires Inv(s) && ExchangeStep(s, c).Some? && !s.sh.controls[s.calls[c].id].claimed
    ensures Inv(ExchangeStep(s, c).value)
  {
    var id := s.calls[c].id;
    var s' := ExchangeStep(s, c).value;
    assert Sound(s, c) && Placed(s, id);
    assert id in s.owner ==> OwnerIn(s, id);
    WinnerPlaced(s, s', id, c);
    WinnerTouches(s, s', id, c);
    OwnerCall(s, s', id, c);
  }

  lemma WinnerTouches(s: State, s': State, id: RunId, c: nat)
    requires c in s.calls && s.calls[c] == Observed(id) && id in s.sh.controls
    requires s' == SetCall(s, c, Winning(id)).(sh := Claim(s.sh, id), owner := s.owner[id := c])
    ensures OnlyTouches(s, s', id, c)
  {
  }

  lemma WinnerPlaced(s: State, s': State, id: RunId, c: nat)
    requires Shape(s) && Logs(s) && c in s.calls && s.calls[c] == Observed(id)
    requires id in s.sh.controls && !s.sh.controls[id].claimed && id !in s.owner
    requires Sound(s, c) && Placed(s, id) && !s.gone
    requires s' == SetCall(s, c, Winning(id)).(sh := Claim(s.sh, id), owner := s.owner[id := c])
    ensures Shape(s') && Logs(s') && Placed(s', id) && Sound(s', c) && OwnerIn(s', id)
  {
  }

  lemma PublishFinalizingInv(s: State, c: nat)
    requires Inv(s) && PublishFinalizingStep(s, c).Some?
    ensures Inv(PublishFinalizingStep(s, c).value)
  {
    assert Sound(s, c);
    assert Placed(s, s.calls[c].id);
    OwnerCall(s, PublishFinalizingStep(s, c).value, s.calls[c].id, c);
  }

  lemma TakeInv(s: State, c: nat)
    requires Inv(s) && TakeStep(s, c).Some?
    ensures Inv(TakeStep(s, c).value)
  {
    assert Sound(s, c);
    assert Placed(s, s.calls[c].id);
    OwnerCall(s, TakeStep(s, c).value, s.calls[c].id, c);
  }

  lemma RunHooksInv(s: State, c: nat, fails: bool)
    requires Inv(s) && RunHooksStep(s, c, fails).Some?
    ensures Inv(RunHooksStep(s, c, fails).value)
  {
    assert Sound(s, c);
    assert Placed(s, s.calls[c].id);
    OwnerCall(s, RunHooksStep(s, c, fails).value, s.calls[c].id, c);
  }

  lemma ReleaseInv(s: State, c: nat)
    requires Inv(s) && ReleaseStep(s, c).Some?
    ensures Inv(ReleaseStep(s, c).value)
  {
    assert Sound(s, c);
    assert Placed(s, s.calls[c].id);
    OwnerCall(s, ReleaseStep(s, c).value, s.calls[c].id, c);
  }

  lemma PublishTerminalInv(s: State, c: nat)
    requires Inv(s) && PublishTerminalStep(s, c).Some?
    ensures Inv(PublishTerminalStep(s, c).value)
  {
    assert Sound(s, c);
    assert Placed(s, s.calls[c].id);
    OwnerCall(s, PublishTerminalStep(s, c).value, s.calls[c].id, c);
  }

  lemma DiscardInv(s: State, c: nat)
    requires Inv(s) && DiscardStep(s, c).Some?
    ensures Inv(DiscardStep(s, c).value)
  {
    assert Sound(s, c);
    assert Placed(s, s.calls[c].id);
    OwnerCall(s, DiscardStep(s, c).value, s.calls[c].id, c);
  }

  lemma CancelInv(s: State, c: nat, id: RunId)
    requires Inv(s) && c !in s.calls && !s.gone
    ensures Inv(CancelStep(s, c, id))
  {
    if id in s.sh.controls && CancelStatusOf(s.sh, id) == CancelDone {
      assert Placed(s, id);
      OwnerCall(s, CancelStep(s, c, id), id, c);
    }
  }

  lemma CancelBeforeStartInv(s: State, c: nat, id: RunId)
    requires Inv(s) && CancelBeforeStartStep(s, c, id).Some?
    ensures Inv(CancelBeforeStartStep(s, c, id).value)
  {
    CancelInv(s, c, id);
  }

  lemma WithdrawInv(s: State, c: nat)
    requires Inv(s) && WithdrawStep(s, c).Some?
    ensures Inv(WithdrawStep(s, c).value)
  {
    assert Sound(s, c);
    var id := s.calls[c].id;
    if CancelStatusOf(s.sh, id) == AlreadyRunning {
      QuietCall(s, WithdrawStep(s, c).value, id, c);
    } else {
      QuietCall(s, EndCall(s, c), id, c);
      CancelInv(EndCall(s, c), c, id);
    }
  }

  /** Leaving an exit code on the active run moves nothing. */
  lemma ExitInv(s: State, id: RunId, code: int)
    requires Inv(s) && id in s.sh.controls
    ensures Inv(s.(sh := ExitRegion(s.sh, id, code)))
  {
    var s' := s.(sh := ExitRegion(s.sh, id, code));
    assert Placed(s, id);
    assert id in s.owner ==> OwnerIn(s, id);
    var c := if id in s.owner then s.owner[id] else 0;
    SlotsUnmoved(s, s');
  }

  /** A change that moves no record, call or control keeps the invariant. */
  lemma SlotsUnmoved(s: State, s': State)
    requires Inv(s) && Shape(s')
    requires s'.calls == s.calls && s'.owner == s.owner && s'.released == s.released && s'.hooked == s.hooked
    requires s'.sh.controls == s.sh.controls
    requires forall j :: SameRun(s, s', j)
    ensures Inv(s')
  {
    forall j | j in s'.sh.controls
      ensures Placed(s', j)
    {
      assert SameRun(s, s', j);
      assert Placed(s, j);
    }
    forall d | d in s'.calls
      ensures Sound(s', d)
    {
      assert Sound(s, d);
    }
    forall j | j in s'.owner
      ensures j in s'.sh.controls && OwnerIn(s', j)
    {
      assert OwnerIn(s, j);
    }
  }

  lemma RequestExitInv(s: State, c: nat, id: RunId, code: int)
    requires Inv(s) && RequestExitStep(s, c, id, code).Some?
    ensures Inv(RequestExitStep(s, c, id, code).value)
  {
    if Holds(s.sh.pending, id) {
      QuietCall(s, RequestExitStep(s, c, id, code).value, id, c);
    } else {
      ExitInv(s, id, code);
    }
  }

  lemma RetryInv(s: State, c: nat)
    requires Inv(s) && RetryStep(s, c).Some?
    ensures Inv(RetryStep(s, c).value)
  {
    assert Sound(s, c);
    QuietCall(s, EndCall(s, c), s.calls[c].id, c);
    ExitInv(EndCall(s, c), s.calls[c].id, s.calls[c].code);
  }

  lemma BeginShutdownInv(s: State)
    requires Inv(s) && BeginShutdownStep(s).Some?
    ensures Inv(BeginShutdownStep(s).value)
  {
    SlotsUnmoved(s, BeginShutdownStep(s).value);
  }
  // ---- The driver, submission and shutdown -------------------------------------------------------

  /** A step that moves one run no call owns. */
  lemma UnownedRun(s: State, s': State, id: RunId)
    requires Inv(s) && s'.calls == s.calls && s'.owner == s.owner
    requires forall j | j != id :: SameRun(s, s', j)
    requires id in s'.sh.controls && id !in s.owner && Placed(s', id)
    requires id in s.sh.controls ==>
      s'.sh.controls[id].claimed == s.sh.controls[id].claimed && !HandedOverState(s.sh.controls[id].state)
    requires Shape(s') && Logs(s')
    ensures Inv(s')
  {
    forall j | j in s'.sh.controls
      ensures Placed(s', j)
    {
      if j != id {
        assert SameRun(s, s', j);
        assert Placed(s, j);
      }
    }
    forall d | d in s'.calls
      ensures Sound(s', d)
    {
      assert Sound(s, d);
      assert s.calls[d].id != id ==> SameRun(s, s', s.calls[d].id);
    }
    forall j | j in s'.owner
      ensures j in s'.sh.controls && OwnerIn(s', j)
    {
      assert OwnerIn(s, j);
    }
  }

  lemma SubmitInv(s: State, valid: bool)
    requires Inv(s) && SubmitStep(s, valid).Some?
    ensures Inv(SubmitStep(s, valid).value)
  {
    if SubmitStatusOf(s.sh, valid) == Accepted {
      UnownedRun(s, SubmitStep(s, valid).value, s.sh.nextRunId);
    }
  }

  lemma DriverEnterInv(s: State)
    requires Inv(s) && DriverEnterStep(s).Some?
    ensures Inv(DriverEnterStep(s).value)
  {
    SlotsUnmoved(s, DriverEnterStep(s).value);
  }

  lemma DriverClaimInv(s: State)
    requires Inv(s) && DriverClaimStep(s).Some?
    ensures Inv(DriverClaimStep(s).value)
  {
    var s' := DriverClaimStep(s).value;
    if s.sh.active.None? && MayClaim(s.sh, DRIVER_THREAD) && s.sh.pending.Some? {
      var id := s.sh.pending.value.id;
      assert Placed(s, id);
      UnownedRun(s, s', id);
    } else {
      SlotsUnmoved(s, s');
    }
  }

  lemma DriverBeginInv(s: State)
    requires Inv(s) && DriverBeginStep(s).Some?
    ensures Inv(DriverBeginStep(s).value)
  {
    SlotsUnmoved(s, DriverBeginStep(s).value);
  }

  lemma DriverReturnInv(s: State, outcome: SliceOutcome)
    requires Inv(s) && DriverReturnStep(s, outcome).Some?
    ensures Inv(DriverReturnStep(s, outcome).value)
  {
    SlotsUnmoved(s, DriverReturnStep(s, outcome).value);
  }

  lemma DriverPublishInv(s: State)
    requires Inv(s) && DriverPublishStep(s).Some?
    ensures Inv(DriverPublishStep(s).value)
  {
    var id := s.driver.id;
    assert Placed(s, id);
    match s.driver.outcome
    case Paused => ExecutingInv(s, id, DebugPaused);
    case BodyReturned => ExecutingInv(s, id, MainReturned);
    case Yielded => ResumeInv(s, id);
    case Blocked => ResumeInv(s, id);
    case Ended => HandOverInv(s, id, false);
    case EndedInFailure => HandOverInv(s, id, true);
  }

  lemma ResumeInv(s: State, id: RunId)
    requires Inv(s) && s.driver.Deciding? && s.driver.id == id && id in s.sh.controls && Placed(s, id)
    ensures Inv((if Known(s, id).state == DebugPaused then Set(s, id, Running) else s).(driver := Away))
  {
    if Known(s, id).state == DebugPaused {
      ExecutingInv(s, id, Running);
    } else {
      SlotsUnmoved(s, s.(driver := Away));
    }
  }

  lemma ExecutingInv(s: State, id: RunId, st: RunState)
    requires Inv(s) && s.driver.Deciding? && s.driver.id == id && id in s.sh.controls && Placed(s, id)
    requires Executing(st)
    ensures Inv(Set(s, id, st).(driver := Away))
  {
    ExecutingPlaced(s, id, st);
    UnownedRun(s, Set(s, id, st).(driver := Away), id);
  }

  lemma ExecutingPlaced(s: State, id: RunId, st: RunState)
    requires Shape(s) && Logs(s) && s.driver.Deciding? && s.driver.id == id
    requires id in s.sh.controls && Placed(s, id) && Executing(st)
    ensures var s' := Set(s, id, st).(driver := Away);
      Shape(s') && Logs(s') && Placed(s', id) && id !in s.owner && forall j | j != id :: SameRun(s, s', j)
  {
  }

  lemma HandOverInv(s: State, id: RunId, failed: bool)
    requires Inv(s) && s.driver.Deciding? && s.driver.id == id && id in s.sh.controls && Placed(s, id)
    ensures Inv(s.(sh := HandOver(s.sh, id), driver := HandedOver(id, failed)))
  {
    HandOverPlaced(s, id, failed);
    UnownedRun(s, s.(sh := HandOver(s.sh, id), driver := HandedOver(id, failed)), id);
  }

  lemma HandOverPlaced(s: State, id: RunId, failed: bool)
    requires Shape(s) && Logs(s) && s.driver.Deciding? && s.driver.id == id
    requires id in s.sh.controls && Placed(s, id)
    ensures var s' := s.(sh := HandOver(s.sh, id), driver := HandedOver(id, failed));
      Shape(s') && Logs(s') && Placed(s', id) && id !in s.owner && forall j | j != id :: SameRun(s, s', j)
  {
  }

  lemma DriverNoteInv(s: State)
    requires Inv(s) && DriverNoteStep(s).Some?
    ensures Inv(DriverNoteStep(s).value)
  {
    assert Placed(s, s.driver.id);
    UnownedRun(s, DriverNoteStep(s).value, s.driver.id);
  }

  lemma DriverOfferInv(s: State)
    requires Inv(s) && DriverOfferStep(s).Some?
    ensures Inv(DriverOfferStep(s).value)
  {
    assert Placed(s, s.driver.id);
    UnownedRun(s, DriverOfferStep(s).value, s.driver.id);
  }

  /** Shutdown finds no call that owns a run, so it cancels the one record left, if any. */
  lemma FinishShutdownInv(s: State)
    requires Inv(s) && FinishShutdownStep(s).Some?
    ensures Inv(FinishShutdownStep(s).value)
  {
    var s' := FinishShutdownStep(s).value;
    NothingOwned(s);
    if SlotIds(s.sh) == [] {
      assert s'.released == s.released;
      SlotsUnmoved(s, s');
    } else {
      var id := SlotIds(s.sh)[0];
      assert SlotIds(s.sh) == [id];
      assert Placed(s, id);
      ShutdownOne(s, s', id);
    }
  }

  lemma OwnersLease(s: State)
    requires AllOwned(s)
    ensures forall id | id in s.owner :: s.owner[id] in s.calls && Leased(s.calls[s.owner[id]])
  {
    forall id | id in s.owner
      ensures s.owner[id] in s.calls && Leased(s.calls[s.owner[id]])
    {
      assert OwnerIn(s, id);
    }
  }

  lemma NothingOwned(s: State)
    requires Inv(s) && QuietForShutdown(s)
    ensures s.owner == map[]
  {
    OwnersLease(s);
    assert forall id :: id !in s.owner;
  }

  lemma ShutdownOne(s: State, s': State, id: RunId)
    requires Inv(s) && FinishShutdownStep(s) == Some(s') && s.owner == map[]
    requires SlotIds(s.sh) == [id] && InSlot(s.sh, id) && id in s.sh.controls && Placed(s, id)
    ensures Inv(s')
  {
    assert s'.released == s.released + [id];
    assert s'.sh.controls == s.sh.controls[id := s.sh.controls[id].(state := Cancelled)];
    forall d | d in s'.calls
      ensures Sound(s', d)
    {
      assert Sound(s, d) && !Leased(s.calls[d]);
    }
    forall j | j in s'.sh.controls
      ensures Placed(s', j)
    {
      assert Placed(s, j);
      assert j != id ==> SameRun(s, s', j);
    }
  }

  /** Every step of every thread keeps the invariant. */
  lemma StepInv(s: State, step: Step)
    requires Inv(s) && Apply(s, step).Some?
    ensures Inv(Apply(s, step).value)
  {
    match step
    case Submit(valid) => SubmitInv(s, valid);
    case DriverEnter => DriverEnterInv(s);
    case DriverClaim => DriverClaimInv(s);
    case DriverBegin => DriverBeginInv(s);
    case DriverReturn(outcome) => DriverReturnInv(s, outcome);
    case DriverPublish => DriverPublishInv(s);
    case DriverNote => DriverNoteInv(s);
    case DriverOffer => DriverOfferInv(s);
    case StartWait(c, id) => StartWaitInv(s, c, id);
    case Wake(c) => WakeInv(s, c);
    case Lease(c) => LeaseInv(s, c);
    case StartFinalize(c, id) => StartFinalizeInv(s, c, id);
    case Observe(c) => ObserveInv(s, c);
    case Exchange(c) => ExchangeInv(s, c);
    case PublishFinalizing(c) => PublishFinalizingInv(s, c);
    case Take(c) => TakeInv(s, c);
    case RunHooks(c, fails) => RunHooksInv(s, c, fails);
    case Release(c) => ReleaseInv(s, c);
    case PublishTerminal(c) => PublishTerminalInv(s, c);
    case WakeLoser(c) => WakeLoserInv(s, c);
    case CancelBeforeStart(c, id) => CancelBeforeStartInv(s, c, id);
    case Discard(c) => DiscardInv(s, c);
    case RequestExit(c, id, code) => RequestExitInv(s, c, id, code);
    case Withdraw(c) => WithdrawInv(s, c);
    case Retry(c) => RetryInv(s, c);
    case BeginShutdown => BeginShutdownInv(s);
    case FinishShutdown => FinishShutdownInv(s);
  }

  /** At every point of every interleaving the invariant holds. */
  lemma {:induction false} ReachableInv(steps: seq<Step>)
    requires Exec(steps).Some?
    ensures Inv(Exec(steps).value)
    decreases |steps|
  {
    if steps != [] {
      var n := |steps| - 1;
      ReachableInv(steps[..n]);
      StepInv(Exec(steps[..n]).value, steps[n]);
    }
  }
}
