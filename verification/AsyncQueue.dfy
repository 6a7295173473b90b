/** Asynchronous file operations: clients that queue them, and one worker that runs them. */
module AsyncQueue {
  import opened Utils

  type Client = nat
  type FileId = nat
  type OpId = nat
  type Byte = x: nat | x < 0x100

  datatype Kind = Write(data: seq<Byte>) | Close | Wait | Other

  /** deps are the operations whose futures this one waits for before it runs. */
  datatype Op = Op(file: Option<FileId>, kind: Kind, deps: seq<OpId>)

  datatype Entry = Entry(id: OpId, executed: bool)

  /** An open file is written to; closed it stays as it is. */
  datatype FileState = FileState(open: bool, data: seq<Byte>)

  /** Operations are numbered as they are made. held has what a client has made and, if it is
      on a file, tracked, but not queued yet. order is every operation ever queued and log every
      future resolved, both in sequence. */
  datatype State = State(
    ops: seq<Op>,
    held: map<Client, OpId>,
    tracked: map<FileId, seq<OpId>>,
    queue: seq<OpId>,
    batch: seq<OpId>,
    order: seq<OpId>,
    log: seq<Entry>,
    files: map<FileId, FileState>,
    running: bool,
    exited: bool)

  function Init(files: map<FileId, FileState>): State {
    State([], map[], map[], [], [], [], [], files, true, false)
  }

  datatype Step =
    | Submit(c: Client, file: Option<FileId>, kind: Kind, deps: seq<OpId>)
    | GetPending(c: Client, f: FileId)
    | Enqueue(c: Client)
    | TakeBatch
    | Execute
    | Abandon
    | Stop
    | Exit
    | AbandonLast

  function Ids(log: seq<Entry>): seq<OpId> {
    seq(|log|, i requires 0 <= i < |log| => log[i].id)
  }

  predicate Resolved(s: State, id: OpId) { id in Ids(s.log) }

  // ---- Steps ---------------------------------------------------------------------------------------------------

  predicate MayStart(s: State, c: Client) { s.running && c !in s.held }

  /** A client makes an operation that waits for futures there are; one on a file is tracked
      there first. */
  function SubmitStep(s: State, c: Client, file: Option<FileId>, kind: Kind, deps: seq<OpId>): Option<State> {
    if !MayStart(s, c) || (exists i :: 0 <= i < |deps| && deps[i] >= |s.ops|) then None
    else
      var id := |s.ops|;
      var s' := s.(ops := s.ops + [Op(file, kind, deps)], held := s.held[c := id]);
      if file.None? then Some(s')
      else Some(s'.(tracked := s.tracked[file.value := TrackedAt(s, file.value) + [id]]))
  }

  function TrackedAt(s: State, f: FileId): seq<OpId> { if f in s.tracked then s.tracked[f] else [] }

  function Unresolved(s: State, ids: seq<OpId>): seq<OpId> {
    if ids == [] then []
    else (if Resolved(s, ids[0]) then [] else [ids[0]]) + Unresolved(s, ids[1..])
  }

  /** A client asks for all that is outstanding on a file: resolved futures are forgotten, and
      for the others an operation is made that waits for them. */
  function GetPendingStep(s: State, c: Client, f: FileId): Option<State> {
    if !MayStart(s, c) then None
    else
      var deps := Unresolved(s, TrackedAt(s, f));
      var s' := s.(tracked := if deps == [] then s.tracked - {f} else s.tracked[f := deps]);
      if deps == [] then Some(s')
      else Some(s'.(ops := s.ops + [Op(Some(f), Wait, deps)], held := s.held[c := |s.ops|]))
  }

  function EnqueueStep(s: State, c: Client): Option<State> {
    if c !in s.held then None
    else Some(s.(held := s.held - {c}, queue := s.queue + [s.held[c]], order := s.order + [s.held[c]]))
  }

  /** The worker takes everything queued as its next batch. */
  function TakeBatchStep(s: State): Option<State> {
    if s.exited || s.batch != [] || s.queue == [] then None
    else Some(s.(batch := s.queue, queue := []))
  }

  predicate Ready(s: State, id: OpId) {
    id < |s.ops| && forall i | 0 <= i < |s.ops[id].deps| :: Resolved(s, s.ops[id].deps[i])
  }

  function Effect(files: map<FileId, FileState>, op: Op): map<FileId, FileState> {
    if op.file.None? || op.file.value !in files then files
    else
      var f := op.file.value;
      match op.kind
      case Write(data) => if files[f].open then files[f := FileState(true, files[f].data + data)] else files
      case Close => files[f := files[f].(open := false)]
      case _ => files
  }

  /** The head of the batch runs, once all it waits for is resolved, and its future resolves. */
  function ExecuteStep(s: State): Option<State> {
    if s.batch == [] || !Ready(s, s.batch[0]) then None
    else Some(s.(batch := s.batch[1..], log := s.log + [Entry(s.batch[0], true)],
                 files := Effect(s.files, s.ops[s.batch[0]])))
  }

  /** Past the deadline of a shutdown the head of the batch is given up. */
  function AbandonStep(s: State): Option<State> {
    if s.running || s.batch == [] then None
    else Some(s.(batch := s.batch[1..], log := s.log + [Entry(s.batch[0], false)]))
  }

  /** Shutdown begins when no client is in the middle of a call. */
  function StopStep(s: State): Option<State> {
    if !s.running || s.held != map[] then None else Some(s.(running := false))
  }

  function ExitStep(s: State): Option<State> {
    if s.running || s.exited || s.batch != [] then None else Some(s.(exited := true))
  }

  /** What was queued after the last batch is given up. */
  function AbandonLastStep(s: State): Option<State> {
    if !s.exited || s.queue == [] then None
    else Some(s.(queue := s.queue[1..], log := s.log + [Entry(s.queue[0], false)]))
  }

  function Apply(s: State, x: Step): Option<State> {
    match x
    case Submit(c, file, kind, deps) => SubmitStep(s, c, file, kind, deps)
    case GetPending(c, f) => GetPendingStep(s, c, f)
    case Enqueue(c) => EnqueueStep(s, c)
    case TakeBatch => TakeBatchStep(s)
    case Execute => ExecuteStep(s)
    case Abandon => AbandonStep(s)
    case Stop => StopStep(s)
    case Exit => ExitStep(s)
    case AbandonLast => AbandonLastStep(s)
  }

  function Exec(s: State, steps: seq<Step>): Option<State>
    decreases |steps|
  {
    if steps == [] then Some(s)
    else match Apply(s, steps[0])
      case None => None
      case Some(s') => Exec(s', steps[1..])
  }

  /** Which files each client works on. */
  type Owners = map<Client, set<FileId>>

  predicate Owns(owners: Owners, c: Client, f: FileId) { c in owners && f in owners[c] }

  /** Clients keep to their files, and the futures they give an operation to wait for are of
      queued operations, as getPending has returned them. */
  predicate Permitted(owners: Owners, s: State, x: Step) {
    match x
    case Submit(c, file, _, deps) =>
      (file.Some? ==> Owns(owners, c, file.value)) && forall i | 0 <= i < |deps| :: deps[i] in s.order
    case GetPending(c, f) => Owns(owners, c, f)
    case _ => true
  }

  predicate AllPermitted(owners: Owners, s: State, steps: seq<Step>)
    decreases |steps|
  {
    steps == []
    || (Permitted(owners, s, steps[0])
        && (Apply(s, steps[0]).Some? ==> AllPermitted(owners, Apply(s, steps[0]).value, steps[1..])))
  }

  // ---- Every future is resolved once, in the order of the queue ---------------------------------------------------

  predicate Distinct(ids: seq<OpId>) { forall i, j | 0 <= i < j < |ids| :: ids[i] != ids[j] }

  /** What was queued is resolved, in the batch or still queued, in this order; the rest is held
      by one client each. */
  ghost predicate Ordered(s: State) {
    && s.order == Ids(s.log) + s.batch + s.queue
    && Distinct(s.order)
    && (forall i | 0 <= i < |s.order| :: s.order[i] < |s.ops|)
    && (forall c | c in s.held :: s.held[c] < |s.ops| && s.held[c] !in s.order)
    && (forall c, d | c in s.held && d in s.held && s.held[c] == s.held[d] :: c == d)
    && (forall id: OpId | id < |s.ops| :: id in s.order || IsHeld(s, id))
    && (!s.running ==> s.held == map[])
    && (s.exited ==> !s.running && s.batch == [])
  }

  ghost predicate IsHeld(s: State, id: OpId) { exists c :: c in s.held && s.held[c] == id }

  lemma IdsMore(log: seq<Entry>, e: Entry)
    ensures Ids(log + [e]) == Ids(log) + [e.id]
  {
  }

  lemma MadeKeepsOrdered(s: State, s': State, c: Client)
    requires Ordered(s) && MayStart(s, c) && |s'.ops| == |s.ops| + 1 && s'.held == s.held[c := |s.ops|]
    requires s'.order == s.order && s'.log == s.log && s'.batch == s.batch && s'.queue == s.queue
    requires s'.running == s.running && s'.exited == s.exited
    ensures Ordered(s')
  {
    forall id: OpId | id < |s'.ops|
      ensures id in s'.order || IsHeld(s', id)
    {
      if id == |s.ops| {
        assert c in s'.held && s'.held[c] == id;
      } else if id !in s.order {
        assert IsHeld(s, id);
        var d :| d in s.held && s.held[d] == id;
        assert d in s'.held && s'.held[d] == id;
      }
    }
  }

  lemma EnqueueKeepsOrdered(s: State, c: Client)
    requires Ordered(s) && EnqueueStep(s, c).Some?
    ensures Ordered(EnqueueStep(s, c).value)
  {
    var s' := EnqueueStep(s, c).value;
    assert s'.order == Ids(s'.log) + s'.batch + s'.queue;
    forall id: OpId | id < |s'.ops|
      ensures id in s'.order || IsHeld(s', id)
    {
      assert s'.order[|s.order|] == s.held[c];
      if id !in s.order && id != s.held[c] {
        assert IsHeld(s, id);
        var d :| d in s.held && s.held[d] == id;
        assert d in s'.held && s'.held[d] == id;
      }
    }
  }

  predicate Grows(s: State, s': State) { s.order <= s'.order && s.log <= s'.log && s.ops <= s'.ops }

  lemma StepGrows(s: State, x: Step)
    requires Apply(s, x).Some?
    ensures Grows(s, Apply(s, x).value)
  {
  }

  lemma StepKeepsOrdered(s: State, x: Step)
    requires Ordered(s) && Apply(s, x).Some?
    ensures Ordered(Apply(s, x).value) && Grows(s, Apply(s, x).value)
  {
    var s' := Apply(s, x).value;
    StepGrows(s, x);
    match x
    case Submit(c, _, _, _) => MadeKeepsOrdered(s, s', c);
    case GetPending(c, f) =>
      if s'.ops != s.ops {
        MadeKeepsOrdered(s, s', c);
      } else {
        assert forall id: OpId | id < |s.ops| && IsHeld(s, id) :: IsHeld(s', id);
      }
    case Enqueue(c) => EnqueueKeepsOrdered(s, c);
    case Execute => ResolvedKeepsOrdered(s, s', Entry(s.batch[0], true));
    case Abandon => ResolvedKeepsOrdered(s, s', Entry(s.batch[0], false));
    case AbandonLast => ResolvedKeepsOrdered(s, s', Entry(s.queue[0], false));
    case _ =>
      assert forall id: OpId | id < |s.ops| && IsHeld(s, id) :: IsHeld(s', id);
  }

  lemma ResolvedKeepsOrdered(s: State, s': State, e: Entry)
    requires Ordered(s) && s'.log == s.log + [e] && s'.order == s.order && s'.ops == s.ops && s'.held == s.held
    requires s'.running == s.running && s'.exited == s.exited
    requires (s.batch != [] && e.id == s.batch[0] && s'.batch == s.batch[1..] && s'.queue == s.queue)
      || (s.batch == [] && s.queue != [] && e.id == s.queue[0] && s'.batch == [] && s'.queue == s.queue[1..])
    ensures Ordered(s')
  {
    IdsMore(s.log, e);
    assert s'.order == Ids(s'.log) + s'.batch + s'.queue;
    assert forall id: OpId | id < |s.ops| && IsHeld(s, id) :: IsHeld(s', id);
  }

  lemma {:induction false} RunIsOrdered(s: State, steps: seq<Step>)
    requires Ordered(s) && Exec(s, steps).Some?
    ensures Ordered(Exec(s, steps).value) && s.log <= Exec(s, steps).value.log
    decreases |steps|
  {
    if steps != [] {
      StepKeepsOrdered(s, steps[0]);
      RunIsOrdered(Apply(s, steps[0]).value, steps[1..]);
    }
  }

  lemma InitIsOrdered(files: map<FileId, FileState>)
    ensures Ordered(Init(files))
  {
  }

  /** No future is resolved twice, futures are resolved in the order their operations were
      queued, and when the worker is through none is left. */
  lemma EachResolvedOnce(files: map<FileId, FileState>, steps: seq<Step>)
    requires Exec(Init(files), steps).Some?
    ensures var s := Exec(Init(files), steps).value;
      && Distinct(Ids(s.log)) && Ids(s.log) <= s.order
      && (s.exited && s.queue == [] ==>
            Ids(s.log) == s.order && forall id: OpId | id < |s.ops| :: Resolved(s, id))
  {
    InitIsOrdered(files);
    RunIsOrdered(Init(files), steps);
    var s := Exec(Init(files), steps).value;
    var ids := Ids(s.log);
    assert forall i | 0 <= i < |ids| :: s.order[i] == ids[i];
    if s.exited && s.queue == [] {
      assert ids + [] + [] == ids;
    }
  }
}
