/** The memory the embedded runtime shares between its threads, and what each lock region
    and each atomic operation does to it. */
module EmbeddedState {
  import opened Utils

  type RunId = nat

  datatype RunState =
    | Queued | Running | DebugPaused | MainReturned
    | FinalizationPending | Finalizing | Completed | Failed | Cancelled

  /** What a host observes of one run. */
  datatype Control = Control(state: RunState, failed: bool, claimed: bool)

  /** The runtime's side of one accepted run. */
  datatype Record = Record(id: RunId, exitRequest: Option<int>)

  datatype Shared = Shared(
    pending: Option<Record>,
    active: Option<Record>,
    finalizing: Option<Record>,
    nextRunId: RunId,
    controls: map<RunId, Control>,
    sliceInProgress: bool,
    driver: Option<nat>,
    shuttingDown: bool)

  datatype SubmitStatus = Accepted | RunActive | DriverUnavailable | ShuttingDown
  datatype CancelStatus = CancelDone | AlreadyRunning | AlreadyTerminal | CancelUnknown

  predicate Holds(slot: Option<Record>, id: RunId) { slot.Some? && slot.value.id == id }

  function Empty(): Shared {
    Shared(None, None, None, 1, map[], false, None, false)
  }

  function SetState(sh: Shared, id: RunId, state: RunState): Shared
    requires id in sh.controls
  {
    sh.(controls := sh.controls[id := sh.controls[id].(state := state)])
  }

  /** submit: one run at a time, and a run handed over still counts. */
  function SubmitStatusOf(sh: Shared, valid: bool): SubmitStatus {
    if !valid then DriverUnavailable
    else if sh.shuttingDown then ShuttingDown
    else if sh.pending.Some? || sh.active.Some? || sh.finalizing.Some? then RunActive
    else Accepted
  }

  function SubmitRegion(sh: Shared, valid: bool): Shared {
    if SubmitStatusOf(sh, valid) != Accepted then sh
    else sh.(
      pending := Some(Record(sh.nextRunId, None)),
      nextRunId := sh.nextRunId + 1,
      controls := sh.controls[sh.nextRunId := Control(Queued, false, false)])
  }

  predicate MayClaim(sh: Shared, thread: nat) {
    !sh.shuttingDown && (sh.driver == None || sh.driver == Some(thread))
  }

  /** claimPendingRun: the first claim latches the driver; only the driver claims. */
  function ClaimRegion(sh: Shared, thread: nat): Shared
    requires sh.pending.Some? ==> sh.pending.value.id in sh.controls
  {
    if !MayClaim(sh, thread) then sh
    else
      var latched := sh.(driver := Some(thread));
      if sh.pending.None? then latched
      else SetState(latched.(active := sh.pending, pending := None), sh.pending.value.id, Running)
  }

  predicate MayBegin(sh: Shared, thread: nat) {
    sh.active.Some? && (sh.driver == None || sh.driver == Some(thread))
  }

  function BeginSlice(sh: Shared): Shared { sh.(sliceInProgress := true) }

  function EndSlice(sh: Shared): Shared { sh.(sliceInProgress := false) }

  /** The ownership transfer: out of the driver's slot, into the finalizers'. */
  function HandOver(sh: Shared, id: RunId): Shared {
    if Holds(sh.active, id) then sh.(finalizing := sh.active, active := None) else sh
  }

  function NoteFailure(sh: Shared, id: RunId): Shared
    requires id in sh.controls
  {
    sh.(controls := sh.controls[id := sh.controls[id].(failed := true)])
  }

  function Claim(sh: Shared, id: RunId): Shared
    requires id in sh.controls
  {
    sh.(controls := sh.controls[id := sh.controls[id].(claimed := true)])
  }

  function TakeRecord(sh: Shared, id: RunId): Shared {
    if Holds(sh.finalizing, id) then sh.(finalizing := None) else sh
  }

  function CancelStatusOf(sh: Shared, id: RunId): CancelStatus
    requires id in sh.controls
  {
    if Holds(sh.pending, id) then CancelDone
    else if Holds(sh.active, id) then AlreadyRunning
    else if sh.controls[id].state == Cancelled then AlreadyTerminal
    else CancelUnknown
  }

  /** cancelBeforeStart: only a run the driver has not claimed is withdrawn. */
  function CancelRegion(sh: Shared, id: RunId): Shared
    requires id in sh.controls
  {
    if Holds(sh.pending, id) then SetState(sh.(pending := None), id, Cancelled) else sh
  }

  const NO_EXIT_REQUEST: int := -0x8000_0000

  function ExitCode(code: int): int { if code == NO_EXIT_REQUEST then NO_EXIT_REQUEST + 1 else code }

  /** requestExit: a claimed run is left the code; nothing else changes. */
  function ExitRegion(sh: Shared, id: RunId, code: int): Shared {
    if Holds(sh.active, id) then sh.(active := Some(sh.active.value.(exitRequest := Some(ExitCode(code)))))
    else sh
  }

  function CancelSlot(sh: Shared, slot: Option<Record>): Shared
    requires slot.Some? ==> slot.value.id in sh.controls
  {
    if slot.None? then sh else SetState(sh, slot.value.id, Cancelled)
  }

  predicate SlotsKnown(sh: Shared) {
    && (sh.pending.Some? ==> sh.pending.value.id in sh.controls)
    && (sh.active.Some? ==> sh.active.value.id in sh.controls)
    && (sh.finalizing.Some? ==> sh.finalizing.value.id in sh.controls)
  }

  /** cancelPendingForShutdown: whatever is left in a slot is cancelled and its record
      taken out. */
  function ShutdownRegion(sh: Shared): Shared
    requires SlotsKnown(sh)
  {
    var a := CancelSlot(sh, sh.pending);
    var b := CancelSlot(a, sh.active);
    var c := CancelSlot(b, sh.finalizing);
    c.(pending := None, active := None, finalizing := None, shuttingDown := true)
  }

  /** The slots emptied one after the other, as the code does. */
  function EmptiedInOrder(sh: Shared): Shared
    requires SlotsKnown(sh)
  {
    var s1 := CancelSlot(sh, sh.pending).(pending := None);
    var s2 := CancelSlot(s1, s1.active).(active := None);
    CancelSlot(s2, s2.finalizing).(finalizing := None)
  }

  /** That is the whole region. */
  lemma ShutdownInOrder(sh: Shared)
    requires SlotsKnown(sh)
    ensures EmptiedInOrder(sh.(shuttingDown := true)) == ShutdownRegion(sh)
  {
  }
}
