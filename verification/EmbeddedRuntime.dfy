/** The runtime's objects and their lock regions, updated in place. Each method is one lock
    region or atomic operation and is tied to the step function the protocol is built on. */
module EmbeddedRuntimeObjects {
  import opened Utils
  import opened EmbeddedState

  /** A prepared program; a successful submission moves its record out. */
  class PreparedProgram {
    var record: Option<nat>

    constructor (record: Option<nat>)
      ensures this.record == record
    {
      this.record := record;
    }
  }

  class RunControl {
    const id: RunId
    var state: RunState
    var failed: bool
    var claimed: bool

    constructor (id: RunId)
      ensures this.id == id && View() == Control(Queued, false, false)
    {
      this.id := id;
      state, failed, claimed := Queued, false, false;
    }

    function View(): Control
      reads this
    {
      Control(state, failed, claimed)
    }

    method SetState(next: RunState)
      modifies this`state
      ensures state == next
    {
      state := next;
    }

    method NoteFailure()
      modifies this`failed
      ensures failed
    {
      failed := true;
    }

    /** The finalizer claim: the first caller finds it unset, every later one set. */
    method ExchangeClaim() returns (was: bool)
      modifies this`claimed
      ensures was == old(claimed) && claimed
    {
      was := claimed;
      claimed := true;
    }
  }

  class RunRecord {
    const id: RunId
    const control: RunControl
    const prepared: nat
    var exitRequest: Option<int>

    constructor (control: RunControl, prepared: nat)
      ensures id == control.id && this.control == control && this.prepared == prepared && exitRequest == None
    {
      this.id := control.id;
      this.control := control;
      this.prepared := prepared;
      exitRequest := None;
    }
  }

  class EmbeddedRuntime {
    var pending: RunRecord?
    var active: RunRecord?
    var finalizing: RunRecord?
    var nextRunId: RunId
    var sliceInProgress: bool
    var driver: Option<nat>
    var shuttingDown: bool
    ghost var controls: map<RunId, RunControl>

    ghost function Slots(): set<RunRecord>
      reads this
    {
      (if pending != null then {pending} else {}) + (if active != null then {active} else {})
      + (if finalizing != null then {finalizing} else {})
    }

    ghost predicate Valid()
      reads this, controls.Values, Slots()
    {
      && (forall id | id in controls :: controls[id].id == id && id < nextRunId)
      && (forall r | r in Slots() :: r.id in controls && r.control == controls[r.id])
      && !(pending != null && active != null)
      && !(pending != null && finalizing != null)
      && !(active != null && finalizing != null)
    }

    ghost function View(slot: RunRecord?): Option<Record>
      reads slot
    {
      if slot == null then None else Some(Record(slot.id, slot.exitRequest))
    }

    /** The shared memory these objects stand for. */
    ghost function Snapshot(): (sh: Shared)
      requires Valid()
      reads this, controls.Values, Slots()
      ensures SlotsKnown(sh)
    {
      Shared(View(pending), View(active), View(finalizing), nextRunId,
             map id | id in controls :: controls[id].View(), sliceInProgress, driver, shuttingDown)
    }

    constructor ()
      ensures Valid() && Snapshot() == Empty()
    {
      pending, active, finalizing := null, null, null;
      nextRunId, sliceInProgress, driver, shuttingDown := 1, false, None, false;
      controls := map[];
    }

    /** A program is taken on acceptance only; on every rejection the caller keeps it. */
    method Submit(program: PreparedProgram) returns (status: SubmitStatus, run: RunControl?)
      requires Valid()
      modifies this, program
      ensures Valid() && Snapshot() == SubmitRegion(old(Snapshot()), old(program.record.Some?))
      ensures status == SubmitStatusOf(old(Snapshot()), old(program.record.Some?))
      ensures status != Accepted ==> program.record == old(program.record) && run == null
      ensures status == Accepted ==>
        program.record == None && pending != null && Some(pending.prepared) == old(program.record)
        && run != null && fresh(run) && controls[old(nextRunId)] == run
    {
      run := null;
      if program.record == None {
        return DriverUnavailable, null;
      }
      if shuttingDown {
        return ShuttingDown, null;
      }
      if pending != null || active != null || finalizing != null {
        return RunActive, null;
      }
      var prepared := program.record.value;
      program.record := None;
      run := Enlist(prepared);
      status := Accepted;
    }

    /** A new run, waiting for the driver. */
    method Enlist(prepared: nat) returns (run: RunControl)
      requires Valid() && pending == null && active == null && finalizing == null
      modifies this`pending, this`nextRunId, this`controls
      ensures Valid() && fresh(run) && controls == old(controls)[old(nextRunId) := run]
      ensures pending != null && fresh(pending) && pending.prepared == prepared
      ensures var sh := old(Snapshot());
        Snapshot() == sh.(pending := Some(Record(sh.nextRunId, None)), nextRunId := sh.nextRunId + 1,
                          controls := sh.controls[sh.nextRunId := Control(Queued, false, false)])
    {
      run := new RunControl(nextRunId);
      pending := new RunRecord(run, prepared);
      controls := controls[nextRunId := run];
      nextRunId := nextRunId + 1;
    }

    method ClaimPendingRun(thread: nat) returns (id: RunId)
      requires Valid()
      modifies this, controls.Values
      ensures Valid() && controls == old(controls)
      ensures Snapshot() == ClaimRegion(old(Snapshot()), thread)
      ensures id == (if MayClaim(old(Snapshot()), thread) && old(pending) != null then old(pending).id else 0)
    {
      if shuttingDown {
        return 0;
      }
      if driver == None {
        driver := Some(thread);
      } else if driver != Some(thread) {
        return 0;
      }
      if pending == null {
        return 0;
      }
      id := Activate();
    }

    method Activate() returns (id: RunId)
      requires Valid() && pending != null
      modifies this`active, this`pending, controls.Values
      ensures Valid() && id == old(pending).id
      ensures var sh := old(Snapshot());
        Snapshot() == SetState(sh.(active := sh.pending, pending := None), id, Running)
    {
      active, pending := pending, null;
      active.control.SetState(Running);
      id := active.id;
    }

    method BeginSlice(thread: nat) returns (record: RunRecord?)
      requires Valid()
      modifies this
      ensures Valid()
      ensures Snapshot() ==
        if MayBegin(old(Snapshot()), thread) then EmbeddedState.BeginSlice(old(Snapshot())) else old(Snapshot())
      ensures record == if MayBegin(old(Snapshot()), thread) then active else null
    {
      if active == null || (driver != None && driver != Some(thread)) {
        return null;
      }
      sliceInProgress := true;
      record := active;
    }

    method EndSlice()
      requires Valid()
      modifies this
      ensures Valid() && Snapshot() == EmbeddedState.EndSlice(old(Snapshot()))
    {
      sliceInProgress := false;
    }

    /** The end of execution: the record changes hands before the run may be seen as
        finalizable. */
    method HandOver(record: RunRecord)
      requires Valid() && (active != null && active.id == record.id ==> active == record)
      modifies this
      ensures Valid() && Snapshot() == EmbeddedState.HandOver(old(Snapshot()), record.id)
    {
      if active == record {
        finalizing, active := active, null;
      }
    }

    /** A failed run is marked before it may be seen as finalizable. */
    method NoteFailure(record: RunRecord)
      requires Valid() && record in Slots()
      modifies controls.Values
      ensures Valid() && Snapshot() == EmbeddedState.NoteFailure(old(Snapshot()), record.id)
    {
      record.control.NoteFailure();
    }

    method PublishState(record: RunRecord, next: RunState)
      requires Valid() && record in Slots()
      modifies controls.Values
      ensures Valid() && Snapshot() == SetState(old(Snapshot()), record.id, next)
    {
      record.control.SetState(next);
    }

    method CancelBeforeStart(run: RunControl) returns (status: CancelStatus, discarded: RunRecord?)
      requires Valid() && run.id in controls && controls[run.id] == run
      modifies this, controls.Values
      ensures Valid() && controls == old(controls)
      ensures Snapshot() == CancelRegion(old(Snapshot()), run.id)
      ensures status == CancelStatusOf(old(Snapshot()), run.id)
      ensures discarded == if status == CancelDone then old(pending) else null
    {
      discarded := null;
      if pending != null && pending.id == run.id {
        discarded := pending;
        pending.control.SetState(Cancelled);
        pending := null;
        status := CancelDone;
      } else if active != null && active.id == run.id {
        status := AlreadyRunning;
      } else {
        status := if run.state == Cancelled then AlreadyTerminal else CancelUnknown;
      }
    }

    method RequestExit(run: RunControl, code: int) returns (isActive: bool, isPending: bool)
      requires Valid() && run.id in controls && controls[run.id] == run
      modifies this, Slots()
      ensures Valid() && Snapshot() == ExitRegion(old(Snapshot()), run.id, code)
      ensures isActive == Holds(old(Snapshot()).active, run.id)
      ensures isPending == Holds(old(Snapshot()).pending, run.id)
    {
      isActive, isPending := false, false;
      if active != null && active.id == run.id {
        active.exitRequest := Some(if code == NO_EXIT_REQUEST then NO_EXIT_REQUEST + 1 else code);
        isActive := true;
      } else {
        isPending := pending != null && pending.id == run.id;
      }
    }

    /** The winner empties the finalizing slot, if its own record is there. */
    method TakeForFinalizing(run: RunControl) returns (record: RunRecord?)
      requires Valid()
      modifies this
      ensures Valid() && Snapshot() == TakeRecord(old(Snapshot()), run.id)
      ensures record == if Holds(old(Snapshot()).finalizing, run.id) then old(finalizing) else null
    {
      record := null;
      if finalizing != null && finalizing.id == run.id {
        record := finalizing;
        finalizing := null;
      }
    }

    method CancelPending() returns (dropped: RunRecord?)
      requires Valid()
      modifies this`pending, controls.Values
      ensures Valid() && Snapshot() == CancelSlot(old(Snapshot()), old(Snapshot()).pending).(pending := None)
      ensures dropped == old(pending) && pending == null
    {
      dropped := pending;
      if pending != null {
        pending.control.SetState(Cancelled);
        pending := null;
      }
    }

    method CancelActive() returns (dropped: RunRecord?)
      requires Valid()
      modifies this`active, controls.Values
      ensures Valid() && Snapshot() == CancelSlot(old(Snapshot()), old(Snapshot()).active).(active := None)
      ensures dropped == old(active) && active == null
    {
      dropped := active;
      if active != null {
        active.control.SetState(Cancelled);
        active := null;
      }
    }

    method CancelFinalizing() returns (dropped: RunRecord?)
      requires Valid()
      modifies this`finalizing, controls.Values
      ensures Valid() && Snapshot() == CancelSlot(old(Snapshot()), old(Snapshot()).finalizing).(finalizing := None)
      ensures dropped == old(finalizing) && finalizing == null
    {
      dropped := finalizing;
      if finalizing != null {
        finalizing.control.SetState(Cancelled);
        finalizing := null;
      }
    }

    method EmptySlots() returns (dropped: set<RunRecord>)
      requires Valid()
      modifies this`pending, this`active, this`finalizing, controls.Values
      ensures Valid() && Snapshot() == EmptiedInOrder(old(Snapshot()))
      ensures dropped == old(Slots())
    {
      var p := CancelPending();
      var a := CancelActive();
      var f := CancelFinalizing();
      dropped := (if p != null then {p} else {}) + (if a != null then {a} else {}) + (if f != null then {f} else {});
    }

    /** Shutdown: whatever a slot still holds is cancelled and handed back for release. */
    method CancelPendingForShutdown() returns (dropped: set<RunRecord>)
      requires Valid()
      modifies this, controls.Values
      ensures Valid() && controls == old(controls)
      ensures Snapshot() == ShutdownRegion(old(Snapshot()))
      ensures dropped == old(Slots())
    {
      ShutdownInOrder(Snapshot());
      shuttingDown := true;
      assert Snapshot() == old(Snapshot()).(shuttingDown := true);
      dropped := EmptySlots();
    }
  }
}
