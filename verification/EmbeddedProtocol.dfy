/** The embedded runtime as a protocol: one driver, any number of waiting, finalizing and
    cancelling calls, and shutdown, interleaved at every lock region and atomic step. */
module EmbeddedProtocol {
  import opened Utils
  import opened EmbeddedState

  datatype SliceOutcome = Yielded | Blocked | Paused | BodyReturned | Ended | EndedInFailure

  /** Where the driver thread stands inside driveFor. */
  datatype Driver =
    | Away
    | Entered
    | Ready
    | Slicing(id: RunId)
    | Deciding(id: RunId, outcome: SliceOutcome)
    | HandedOver(id: RunId, failed: bool)
    | Noted(id: RunId)

  /** Where another thread's call stands. A call that waits, or has just been woken, holds
      no lease on the runtime; every other call does. */
  datatype Call =
    | Waiting(id: RunId)
    | Woken(id: RunId)
    | Entering(id: RunId)
    | Observed(id: RunId)
    | Losing(id: RunId)
    | Winning(id: RunId)
    | Taking(id: RunId)
    | Hooking(id: RunId, holds: bool)
    | Releasing(id: RunId, holds: bool, failed: bool)
    | Publishing(id: RunId, failed: bool)
    | Discarding(id: RunId)
    | Withdrawing(id: RunId, code: int)
    | Retrying(id: RunId, code: int)

  /** released and hooked are the logs of record releases and of hook runs; owner names the
      call that has claimed or withdrawn a run, while that call is in flight. */
  datatype State = State(
    sh: Shared,
    driver: Driver,
    calls: map<nat, Call>,
    gone: bool,
    released: seq<RunId>,
    hooked: seq<RunId>,
    owner: map<RunId, nat>)

  datatype Step =
    | Submit(valid: bool)
    | DriverEnter | DriverClaim | DriverBegin
    | DriverReturn(outcome: SliceOutcome) | DriverPublish | DriverNote | DriverOffer
    | StartWait(c: nat, id: RunId) | Wake(c: nat) | Lease(c: nat)
    | StartFinalize(c: nat, id: RunId) | Observe(c: nat) | Exchange(c: nat)
    | PublishFinalizing(c: nat) | Take(c: nat) | RunHooks(c: nat, fails: bool)
    | Release(c: nat) | PublishTerminal(c: nat) | WakeLoser(c: nat)
    | CancelBeforeStart(c: nat, id: RunId) | Discard(c: nat)
    | RequestExit(c: nat, id: RunId, code: int) | Withdraw(c: nat) | Retry(c: nat)
    | BeginShutdown | FinishShutdown

  const DRIVER_THREAD: nat := 0

  predicate Terminal(st: RunState) { st == Completed || st == Failed || st == Cancelled }

  predicate Executing(st: RunState) { st == Running || st == DebugPaused || st == MainReturned }

  predicate Leased(call: Call) { !call.Waiting? && !call.Woken? }

  predicate Fresh(s: State, c: nat, id: RunId) {
    c !in s.calls && id in s.sh.controls
  }

  function Known(s: State, id: RunId): Control {
    if id in s.sh.controls then s.sh.controls[id] else Control(Queued, false, false)
  }

  function SetCall(s: State, c: nat, call: Call): State { s.(calls := s.calls[c := call]) }

  function EndCall(s: State, c: nat): State { s.(calls := s.calls - {c}) }

  /** setState under the control's own lock; a run without control does not occur. */
  function Set(s: State, id: RunId, st: RunState): State {
    if id in s.sh.controls then s.(sh := SetState(s.sh, id, st)) else s
  }

  function Init(): State { State(Empty(), Away, map[], false, [], [], map[]) }

  predicate QuietForShutdown(s: State) { forall c | c in s.calls :: !Leased(s.calls[c]) }

  function SubmitStep(s: State, valid: bool): Option<State> {
    if s.gone then None else Some(s.(sh := SubmitRegion(s.sh, valid)))
  }

  // the driver thread

  function DriverEnterStep(s: State): Option<State> {
    if s.gone || s.driver != Away then None
    else Some(s.(driver := if s.sh.shuttingDown then Away else Entered))
  }

  function DriverClaimStep(s: State): Option<State> {
    if s.driver != Entered || !SlotsKnown(s.sh) then None
    else Some(s.(driver := Ready, sh := if s.sh.active.Some? then s.sh else ClaimRegion(s.sh, DRIVER_THREAD)))
  }

  function DriverBeginStep(s: State): Option<State> {
    if s.driver != Ready then None
    else if !MayBegin(s.sh, DRIVER_THREAD) then Some(s.(driver := Away))
    else Some(s.(driver := Slicing(s.sh.active.value.id), sh := BeginSlice(s.sh)))
  }

  function DriverReturnStep(s: State, outcome: SliceOutcome): Option<State> {
    if !s.driver.Slicing? then None
    else Some(s.(driver := Deciding(s.driver.id, outcome), sh := EndSlice(s.sh)))
  }

  function DriverPublishStep(s: State): Option<State> {
    if !s.driver.Deciding? then None else Some(PublishSlice(s, s.driver.id, s.driver.outcome))
  }

  function DriverNoteStep(s: State): Option<State> {
    if !s.driver.HandedOver? || !s.driver.failed || s.driver.id !in s.sh.controls then None
    else Some(s.(driver := Noted(s.driver.id), sh := NoteFailure(s.sh, s.driver.id)))
  }

  function DriverOfferStep(s: State): Option<State> {
    if s.driver.Noted? || (s.driver.HandedOver? && !s.driver.failed)
    then Some(Set(s, s.driver.id, FinalizationPending).(driver := Away)) else None
  }

  // waiting and finalizing

  function StartWaitStep(s: State, c: nat, id: RunId): Option<State> {
    if Fresh(s, c, id) then Some(SetCall(s, c, Waiting(id))) else None
  }

  function WakeStep(s: State, c: nat): Option<State> {
    if c !in s.calls || !s.calls[c].Waiting? then None
    else
      var id := s.calls[c].id;
      var st := Known(s, id).state;
      if st == FinalizationPending || Terminal(st) then Some(SetCall(s, c, Woken(id))) else None
  }

  function LeaseStep(s: State, c: nat): Option<State> {
    if c !in s.calls || !s.calls[c].Woken? then None
    else if Known(s, s.calls[c].id).state == Cancelled || s.sh.shuttingDown then Some(EndCall(s, c))
    else Some(SetCall(s, c, Entering(s.calls[c].id)))
  }

  function StartFinalizeStep(s: State, c: nat, id: RunId): Option<State> {
    if Fresh(s, c, id) && !s.gone && !s.sh.shuttingDown then Some(SetCall(s, c, Entering(id))) else None
  }

  function ObserveStep(s: State, c: nat): Option<State> {
    if c !in s.calls || !s.calls[c].Entering? then None
    else
      var id := s.calls[c].id;
      var st := Known(s, id).state;
      if st == FinalizationPending || st == Finalizing || st == Completed || st == Failed
      then Some(SetCall(s, c, Observed(id))) else Some(EndCall(s, c))
  }

  function ExchangeStep(s: State, c: nat): Option<State> {
    if c !in s.calls || !s.calls[c].Observed? || s.calls[c].id !in s.sh.controls then None
    else
      var id := s.calls[c].id;
      if s.sh.controls[id].claimed then Some(SetCall(s, c, Losing(id)))
      else Some(SetCall(s, c, Winning(id)).(sh := Claim(s.sh, id), owner := s.owner[id := c]))
  }

  function PublishFinalizingStep(s: State, c: nat): Option<State> {
    if c !in s.calls || !s.calls[c].Winning? then None
    else Some(SetCall(Set(s, s.calls[c].id, Finalizing), c, Taking(s.calls[c].id)))
  }

  function TakeStep(s: State, c: nat): Option<State> {
    if c !in s.calls || !s.calls[c].Taking? then None
    else
      var id := s.calls[c].id;
      Some(SetCall(s, c, Hooking(id, Holds(s.sh.finalizing, id))).(sh := TakeRecord(s.sh, id)))
  }

  /** A run that has failed stays failed, and one whose hooks throw fails with them. */
  function RunHooksStep(s: State, c: nat, fails: bool): Option<State> {
    if c !in s.calls || !s.calls[c].Hooking? then None
    else
      var call := s.calls[c];
      var failed := Known(s, call.id).failed || (call.holds && fails);
      Some(SetCall(s, c, Releasing(call.id, call.holds, failed))
           .(hooked := if call.holds then s.hooked + [call.id] else s.hooked))
  }

  function ReleaseStep(s: State, c: nat): Option<State> {
    if c !in s.calls || !s.calls[c].Releasing? then None
    else
      var call := s.calls[c];
      Some(SetCall(s, c, Publishing(call.id, call.failed))
           .(released := if call.holds then s.released + [call.id] else s.released))
  }

  function PublishTerminalStep(s: State, c: nat): Option<State> {
    if c !in s.calls || !s.calls[c].Publishing? then None
    else
      var call := s.calls[c];
      Some(EndCall(Set(s, call.id, if call.failed then Failed else Completed), c)
           .(owner := s.owner - {call.id}))
  }

  function WakeLoserStep(s: State, c: nat): Option<State> {
    if c in s.calls && s.calls[c].Losing? && Terminal(Known(s, s.calls[c].id).state)
    then Some(EndCall(s, c)) else None
  }

  // cancelling and exit requests

  function CancelBeforeStartStep(s: State, c: nat, id: RunId): Option<State> {
    if Fresh(s, c, id) && !s.gone then Some(CancelStep(s, c, id)) else None
  }

  function DiscardStep(s: State, c: nat): Option<State> {
    if c !in s.calls || !s.calls[c].Discarding? then None
    else Some(EndCall(s, c).(released := s.released + [s.calls[c].id], owner := s.owner - {s.calls[c].id}))
  }

  function RequestExitStep(s: State, c: nat, id: RunId, code: int): Option<State> {
    if !Fresh(s, c, id) || s.gone then None
    else if Holds(s.sh.pending, id) then Some(SetCall(s, c, Withdrawing(id, code)))
    else Some(s.(sh := ExitRegion(s.sh, id, code)))
  }

  function WithdrawStep(s: State, c: nat): Option<State> {
    if c !in s.calls || !s.calls[c].Withdrawing? || s.calls[c].id !in s.sh.controls then None
    else
      var call := s.calls[c];
      if CancelStatusOf(s.sh, call.id) == AlreadyRunning then Some(SetCall(s, c, Retrying(call.id, call.code)))
      else Some(CancelStep(EndCall(s, c), c, call.id))
  }

  function RetryStep(s: State, c: nat): Option<State> {
    if c !in s.calls || !s.calls[c].Retrying? then None
    else Some(EndCall(s, c).(sh := ExitRegion(s.sh, s.calls[c].id, s.calls[c].code)))
  }

  // shutdown: no leased call can be in flight when it begins, and it ends with the
  // driver out of the runtime

  function BeginShutdownStep(s: State): Option<State> {
    if !s.gone && QuietForShutdown(s) then Some(s.(sh := s.sh.(shuttingDown := true))) else None
  }

  function FinishShutdownStep(s: State): Option<State> {
    if s.gone || !s.sh.shuttingDown || s.driver != Away || !QuietForShutdown(s) || !SlotsKnown(s.sh) then None
    else Some(s.(sh := ShutdownRegion(s.sh), gone := true, released := s.released + SlotIds(s.sh)))
  }

  /** One step of one thread; None when the step is not enabled. */
  function Apply(s: State, step: Step): Option<State> {
    match step
    case Submit(valid) => SubmitStep(s, valid)
    case DriverEnter => DriverEnterStep(s)
    case DriverClaim => DriverClaimStep(s)
    case DriverBegin => DriverBeginStep(s)
    case DriverReturn(outcome) => DriverReturnStep(s, outcome)
    case DriverPublish => DriverPublishStep(s)
    case DriverNote => DriverNoteStep(s)
    case DriverOffer => DriverOfferStep(s)
    case StartWait(c, id) => StartWaitStep(s, c, id)
    case Wake(c) => WakeStep(s, c)
    case Lease(c) => LeaseStep(s, c)
    case StartFinalize(c, id) => StartFinalizeStep(s, c, id)
    case Observe(c) => ObserveStep(s, c)
    case Exchange(c) => ExchangeStep(s, c)
    case PublishFinalizing(c) => PublishFinalizingStep(s, c)
    case Take(c) => TakeStep(s, c)
    case RunHooks(c, fails) => RunHooksStep(s, c, fails)
    case Release(c) => ReleaseStep(s, c)
    case PublishTerminal(c) => PublishTerminalStep(s, c)
    case WakeLoser(c) => WakeLoserStep(s, c)
    case CancelBeforeStart(c, id) => CancelBeforeStartStep(s, c, id)
    case Discard(c) => DiscardStep(s, c)
    case RequestExit(c, id, code) => RequestExitStep(s, c, id, code)
    case Withdraw(c) => WithdrawStep(s, c)
    case Retry(c) => RetryStep(s, c)
    case BeginShutdown => BeginShutdownStep(s)
    case FinishShutdown => FinishShutdownStep(s)
  }

  function SlotIds(sh: Shared): seq<RunId> {
    (if sh.pending.Some? then [sh.pending.value.id] else [])
    + (if sh.active.Some? then [sh.active.value.id] else [])
    + (if sh.finalizing.Some? then [sh.finalizing.value.id] else [])
  }

  /** What the driver does with a slice's outcome once it has left the slice. */
  function PublishSlice(s: State, id: RunId, outcome: SliceOutcome): State {
    match outcome
    case Paused => Set(s, id, DebugPaused).(driver := Away)
    case BodyReturned => Set(s, id, MainReturned).(driver := Away)
    case Yielded | Blocked =>
      (if Known(s, id).state == DebugPaused then Set(s, id, Running) else s).(driver := Away)
    case Ended => s.(sh := HandOver(s.sh, id), driver := HandedOver(id, false))
    case EndedInFailure => s.(sh := HandOver(s.sh, id), driver := HandedOver(id, true))
  }

  /** The cancel region, and the call left with the record to destroy when it took one. */
  function CancelStep(s: State, c: nat, id: RunId): State {
    if id in s.sh.controls && CancelStatusOf(s.sh, id) == CancelDone
    then SetCall(s, c, Discarding(id)).(sh := CancelRegion(s.sh, id), owner := s.owner[id := c])
    else s
  }

  /** Every interleaving: the state after a sequence of steps, if all are enabled. */
  function Exec(steps: seq<Step>): Option<State> {
    if steps == [] then Some(Init())
    else
      var n := |steps| - 1;
      match Exec(steps[..n])
      case None => None
      case Some(s) => Apply(s, steps[n])
  }
}
