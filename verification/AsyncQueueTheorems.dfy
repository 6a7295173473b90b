/** When the single worker can block on itself, what files end up holding, and shutdown. */
module AsyncQueueTheorems {
  import opened Utils
  import opened AsyncQueue

  // ---- Whom an operation waits for ---------------------------------------------------------------------------------

  predicate AllIn(ids: seq<OpId>, place: seq<OpId>) { forall i | 0 <= i < |ids| :: ids[i] in place }

  /** Queued operations wait only for operations queued before them; held ones for queued ones.
      A client holds operations on its own files only. */
  ghost predicate Waits(owners: Owners, s: State) {
    && Ordered(s)
    && (forall k | 0 <= k < |s.order| :: AllIn(s.ops[s.order[k]].deps, s.order[..k]))
    && (forall c | c in s.held :: AllIn(s.ops[s.held[c]].deps, s.order))
    && (forall c, f | c in s.held && s.ops[s.held[c]].file == Some(f) :: Owns(owners, c, f))
    && (forall f, i | f in s.tracked && 0 <= i < |s.tracked[f]| :: TrackedOk(s, f, s.tracked[f][i]))
  }

  predicate TrackedOk(s: State, f: FileId, id: OpId) { id < |s.ops| && s.ops[id].file == Some(f) }

  /** No file is worked on by two clients. */
  ghost predicate Exclusive(owners: Owners) {
    forall c, d, f | Owns(owners, c, f) && Owns(owners, d, f) :: c == d
  }

  lemma {:induction false} UnresolvedIn(s: State, ids: seq<OpId>)
    ensures forall i | 0 <= i < |Unresolved(s, ids)| :: Unresolved(s, ids)[i] in ids
    decreases |ids|
  {
    if ids != [] {
      UnresolvedIn(s, ids[1..]);
    }
  }

  /** Client c makes an operation that waits for queued ones. */
  lemma MadeKeepsWaits(owners: Owners, s: State, s': State, c: Client, op: Op)
    requires Waits(owners, s) && Ordered(s') && s'.order == s.order
    requires s'.ops == s.ops + [op] && s'.held == s.held[c := |s.ops|]
    requires AllIn(op.deps, s.order) && (op.file.Some? ==> Owns(owners, c, op.file.value))
    requires forall f, i | f in s'.tracked && 0 <= i < |s'.tracked[f]| :: TrackedOk(s', f, s'.tracked[f][i])
    ensures Waits(owners, s')
  {
    forall k | 0 <= k < |s'.order|
      ensures AllIn(s'.ops[s'.order[k]].deps, s'.order[..k])
    {
      assert s'.ops[s'.order[k]] == s.ops[s.order[k]];
    }
    forall d | d in s'.held
      ensures AllIn(s'.ops[s'.held[d]].deps, s'.order)
    {
      assert d == c || s'.ops[s'.held[d]] == s.ops[s.held[d]];
    }
  }

  lemma SubmitKeepsWaits(owners: Owners, s: State, c: Client, file: Option<FileId>, kind: Kind, deps: seq<OpId>)
    requires Waits(owners, s) && SubmitStep(s, c, file, kind, deps).Some?
    requires Permitted(owners, s, Submit(c, file, kind, deps))
    ensures Waits(owners, SubmitStep(s, c, file, kind, deps).value)
  {
    StepKeepsOrdered(s, Submit(c, file, kind, deps));
    var s' := SubmitStep(s, c, file, kind, deps).value;
    forall f, i | f in s'.tracked && 0 <= i < |s'.tracked[f]|
      ensures TrackedOk(s', f, s'.tracked[f][i])
    {
      if f in s.tracked && i < |s.tracked[f]| {
        assert TrackedOk(s, f, s.tracked[f][i]);
      }
    }
    MadeKeepsWaits(owners, s, s', c, Op(file, kind, deps));
  }

  lemma GetPendingKeepsWaits(owners: Owners, s: State, c: Client, f: FileId)
    requires Waits(owners, s) && GetPendingStep(s, c, f).Some? && Owns(owners, c, f) && Exclusive(owners)
    ensures Waits(owners, GetPendingStep(s, c, f).value)
  {
    StepKeepsOrdered(s, GetPending(c, f));
    var deps := Unresolved(s, TrackedAt(s, f));
    PendingAreQueued(owners, s, c, f, deps);
    var s' := GetPendingStep(s, c, f).value;
    forall h, i | h in s'.tracked && 0 <= i < |s'.tracked[h]|
      ensures TrackedOk(s', h, s'.tracked[h][i])
    {
      assert TrackedOk(s, h, s'.tracked[h][i]);
    }
    if deps != [] {
      MadeKeepsWaits(owners, s, s', c, Op(Some(f), Wait, deps));
    }
  }

  lemma PendingAreQueued(owners: Owners, s: State, c: Client, f: FileId, deps: seq<OpId>)
    requires Waits(owners, s) && Owns(owners, c, f) && Exclusive(owners) && c !in s.held
    requires deps == Unresolved(s, TrackedAt(s, f))
    ensures AllIn(deps, s.order) && forall i | 0 <= i < |deps| :: TrackedOk(s, f, deps[i])
  {
    UnresolvedIn(s, TrackedAt(s, f));
    forall i | 0 <= i < |deps|
      ensures deps[i] in s.order && TrackedOk(s, f, deps[i])
    {
      assert deps[i] in s.tracked[f];
      var j :| 0 <= j < |s.tracked[f]| && s.tracked[f][j] == deps[i];
      assert TrackedOk(s, f, s.tracked[f][j]);
      OwnAreQueued(owners, s, c, f, deps[i]);
    }
  }

  /** What is tracked on a client's own file is queued, as long as it holds nothing. */
  lemma OwnAreQueued(owners: Owners, s: State, c: Client, f: FileId, id: OpId)
    requires Waits(owners, s) && Owns(owners, c, f) && Exclusive(owners) && c !in s.held && TrackedOk(s, f, id)
    ensures id in s.order
  {
    if IsHeld(s, id) {
      HolderOwns(owners, s, f, id);
    }
  }

  lemma HolderOwns(owners: Owners, s: State, f: FileId, id: OpId)
    requires Waits(owners, s) && TrackedOk(s, f, id) && IsHeld(s, id)
    ensures exists d :: d in s.held && Owns(owners, d, f)
  {
    var d :| d in s.held && s.held[d] == id;
    assert Owns(owners, d, f);
  }

  lemma EnqueueKeepsWaits(owners: Owners, s: State, c: Client)
    requires Waits(owners, s) && EnqueueStep(s, c).Some?
    ensures Waits(owners, EnqueueStep(s, c).value)
  {
    StepKeepsOrdered(s, Enqueue(c));
    var s' := EnqueueStep(s, c).value;
    forall k | 0 <= k < |s'.order|
      ensures AllIn(s'.ops[s'.order[k]].deps, s'.order[..k])
    {
      if k < |s.order| {
        assert s'.order[..k] == s.order[..k];
      } else {
        assert s'.order[..k] == s.order;
      }
    }
  }

  lemma StepKeepsWaits(owners: Owners, s: State, x: Step)
    requires Waits(owners, s) && Apply(s, x).Some? && Permitted(owners, s, x) && Exclusive(owners)
    ensures Waits(owners, Apply(s, x).value)
  {
    match x
    case Submit(c, file, kind, deps) => SubmitKeepsWaits(owners, s, c, file, kind, deps);
    case GetPending(c, f) => GetPendingKeepsWaits(owners, s, c, f);
    case Enqueue(c) => EnqueueKeepsWaits(owners, s, c);
    case _ => StepKeepsOrdered(s, x);
  }

  lemma {:induction false} RunWaits(owners: Owners, s: State, steps: seq<Step>)
    requires Waits(owners, s) && AllPermitted(owners, s, steps) && Exclusive(owners) && Exec(s, steps).Some?
    ensures Waits(owners, Exec(s, steps).value)
    decreases |steps|
  {
    if steps != [] {
      StepKeepsWaits(owners, s, steps[0]);
      RunWaits(owners, Apply(s, steps[0]).value, steps[1..]);
    }
  }

  // ---- What is outstanding on a file ------------------------------------------------------------------------------

  /** An operation on f that is neither resolved nor made only to wait. */
  predicate Outstanding(s: State, f: FileId, id: OpId) {
    id < |s.ops| && s.ops[id].file == Some(f) && s.ops[id].kind != Wait && !Resolved(s, id)
  }

  /** What is outstanding on a file is tracked there, and nothing but operations on the file. */
  ghost predicate Tracks(s: State) {
    && (forall f: FileId, id: OpId | Outstanding(s, f, id) :: id in TrackedAt(s, f))
    && (forall f, i | f in s.tracked && 0 <= i < |s.tracked[f]| :: TrackedOk(s, f, s.tracked[f][i]))
  }

  lemma {:induction false} UnresolvedIff(s: State, ids: seq<OpId>, id: OpId)
    ensures id in Unresolved(s, ids) <==> id in ids && !Resolved(s, id)
    decreases |ids|
  {
    if ids != [] {
      UnresolvedIff(s, ids[1..], id);
      assert ids == [ids[0]] + ids[1..];
    }
  }

  lemma StillResolved(s: State, s': State, id: OpId)
    requires s.log <= s'.log && Resolved(s, id)
    ensures Resolved(s', id)
  {
    var i :| 0 <= i < |s.log| && Ids(s.log)[i] == id;
    assert Ids(s'.log)[i] == id;
  }

  lemma SubmitTracks(s: State, c: Client, file: Option<FileId>, kind: Kind, deps: seq<OpId>)
    requires Tracks(s) && SubmitStep(s, c, file, kind, deps).Some?
    ensures Tracks(SubmitStep(s, c, file, kind, deps).value)
  {
    var s' := SubmitStep(s, c, file, kind, deps).value;
    forall f: FileId, id: OpId | Outstanding(s', f, id)
      ensures id in TrackedAt(s', f)
    {
      if id < |s.ops| {
        assert Outstanding(s, f, id);
      }
    }
    forall f, i | f in s'.tracked && 0 <= i < |s'.tracked[f]|
      ensures TrackedOk(s', f, s'.tracked[f][i])
    {
      if f in s.tracked && i < |s.tracked[f]| {
        assert TrackedOk(s, f, s.tracked[f][i]);
      }
    }
  }

  lemma GetPendingTracks(s: State, c: Client, f: FileId)
    requires Tracks(s) && GetPendingStep(s, c, f).Some?
    ensures Tracks(GetPendingStep(s, c, f).value)
  {
    var s' := GetPendingStep(s, c, f).value;
    var deps := Unresolved(s, TrackedAt(s, f));
    forall h: FileId, id: OpId | Outstanding(s', h, id)
      ensures id in TrackedAt(s', h)
    {
      assert Outstanding(s, h, id);
      UnresolvedIff(s, TrackedAt(s, f), id);
    }
    forall h, i | h in s'.tracked && 0 <= i < |s'.tracked[h]|
      ensures TrackedOk(s', h, s'.tracked[h][i])
    {
      var id := s'.tracked[h][i];
      UnresolvedIff(s, TrackedAt(s, f), id);
      var j :| 0 <= j < |s.tracked[h]| && s.tracked[h][j] == id;
      assert TrackedOk(s, h, s.tracked[h][j]);
    }
  }

  lemma OthersTrack(s: State, x: Step)
    requires Tracks(s) && Apply(s, x).Some? && !x.Submit? && !x.GetPending?
    ensures Tracks(Apply(s, x).value)
  {
    var s' := Apply(s, x).value;
    StepGrows(s, x);
    forall f: FileId, id: OpId | Outstanding(s', f, id)
      ensures id in TrackedAt(s', f)
    {
      if Resolved(s, id) {
        StillResolved(s, s', id);
      }
      assert Outstanding(s, f, id);
    }
    forall f, i | f in s'.tracked && 0 <= i < |s'.tracked[f]|
      ensures TrackedOk(s', f, s'.tracked[f][i])
    {
      assert TrackedOk(s, f, s.tracked[f][i]);
    }
  }

  lemma {:induction false} RunTracks(s: State, steps: seq<Step>)
    requires Tracks(s) && Exec(s, steps).Some?
    ensures Tracks(Exec(s, steps).value)
    decreases |steps|
  {
    if steps != [] {
      match steps[0] {
        case Submit(c, file, kind, deps) => SubmitTracks(s, c, file, kind, deps);
        case GetPending(c, f) => GetPendingTracks(s, c, f);
        case _ => OthersTrack(s, steps[0]);
      }
      RunTracks(Apply(s, steps[0]).value, steps[1..]);
    }
  }

  /** Whoever asks for what is outstanding on a file gets an operation that waits for all of
      it, and only for unresolved operations on the file; none is made only if nothing is
      outstanding. */
  lemma PendingIsComplete(files: map<FileId, FileState>, steps: seq<Step>, c: Client, f: FileId)
    requires Exec(Init(files), steps).Some? && GetPendingStep(Exec(Init(files), steps).value, c, f).Some?
    ensures var s := Exec(Init(files), steps).value;
      var s' := GetPendingStep(s, c, f).value;
      if |s'.ops| == |s.ops| then forall id: OpId :: !Outstanding(s, f, id)
      else
        var deps := s'.ops[|s.ops|].deps;
        && |s'.ops| == |s.ops| + 1
        && (forall id: OpId | Outstanding(s, f, id) :: id in deps)
        && (forall id | id in deps :: TrackedOk(s, f, id) && !Resolved(s, id))
  {
    var s := Exec(Init(files), steps).value;
    RunTracks(Init(files), steps);
    forall id: OpId
      ensures Outstanding(s, f, id) ==> id in Unresolved(s, TrackedAt(s, f))
      ensures id in Unresolved(s, TrackedAt(s, f)) ==> TrackedOk(s, f, id) && !Resolved(s, id)
    {
      UnresolvedIff(s, TrackedAt(s, f), id);
      if id in TrackedAt(s, f) {
        var j :| 0 <= j < |s.tracked[f]| && s.tracked[f][j] == id;
        assert TrackedOk(s, f, s.tracked[f][j]);
      }
    }
  }

  // ---- The worker never waits for work behind it --------------------------------------------------------------------

  /** The operation the worker is at waits for a future nobody but the worker can resolve. */
  predicate Blocked(s: State) { s.batch != [] && !Ready(s, s.batch[0]) }

  lemma HeadIsReady(owners: Owners, s: State)
    requires Waits(owners, s) && s.batch != []
    ensures Ready(s, s.batch[0])
  {
    var k := |s.log|;
    assert s.order[k] == s.batch[0];
    assert s.order[..k] == Ids(s.log);
    assert AllIn(s.ops[s.order[k]].deps, s.order[..k]);
  }

  /** Client c has tracked operation 0 on f; d asks for what is outstanding there and queues its
      operation first. */
  lemma BlockingRun(owners: Owners, files: map<FileId, FileState>, c: Client, d: Client, f: FileId)
    returns (steps: seq<Step>)
    requires c != d && Owns(owners, c, f) && Owns(owners, d, f)
    ensures AllPermitted(owners, Init(files), steps) && Exec(Init(files), steps).Some?
    ensures Blocked(Exec(Init(files), steps).value)
  {
    var s0 := Init(files);
    var s1 := Apply(s0, Submit(c, Some(f), Other, [])).value;
    var s2 := AskedFor(s1, d, f);
    var s3 := Apply(s2, Enqueue(d)).value;
    var s5 := BothQueued(s2, c, d);
    steps := [TakeBatch];
    ExecOne(owners, Apply(s3, Enqueue(c)).value, TakeBatch, [], s5, s5);
    ExecOne(owners, s3, Enqueue(c), steps, Apply(s3, Enqueue(c)).value, s5);
    steps := [Enqueue(c)] + steps;
    ExecOne(owners, s2, Enqueue(d), steps, s3, s5);
    steps := [Enqueue(d)] + steps;
    ExecOne(owners, s1, GetPending(d, f), steps, s2, s5);
    steps := [GetPending(d, f)] + steps;
    ExecOne(owners, s0, Submit(c, Some(f), Other, []), steps, s1, s5);
    steps := [Submit(c, Some(f), Other, [])] + steps;
  }

  /** What d gets to wait for is the operation that another client has made but not queued. */
  lemma AskedFor(s: State, d: Client, f: FileId) returns (s': State)
    requires MayStart(s, d) && |s.ops| == 1 && TrackedAt(s, f) == [0] && s.log == []
    ensures GetPendingStep(s, d, f) == Some(s') && s'.held == s.held[d := 1] && |s'.ops| == 2 && s'.ops[1].deps == [0]
    ensures s'.queue == s.queue && s'.batch == s.batch && s'.order == s.order && s'.log == [] && s'.exited == s.exited
  {
    var tracked := TrackedAt(s, f);
    assert !Resolved(s, tracked[0]) && tracked[1..] == [];
    assert Unresolved(s, tracked) == [tracked[0]] + Unresolved(s, tracked[1..]);
    s' := GetPendingStep(s, d, f).value;
  }

  lemma BothQueued(s: State, c: Client, d: Client) returns (s': State)
    requires c != d && c in s.held && d in s.held && s.held[c] == 0 && s.held[d] == 1
    requires |s.ops| == 2 && s.ops[1].deps == [0] && s.queue == [] && s.batch == [] && s.log == [] && !s.exited
    ensures var s3 := Apply(s, Enqueue(d));
      s3.Some? && var s4 := Apply(s3.value, Enqueue(c)); s4.Some? && Apply(s4.value, TakeBatch) == Some(s')
    ensures Blocked(s')
  {
    s' := Apply(Apply(Apply(s, Enqueue(d)).value, Enqueue(c)).value, TakeBatch).value;
    assert s'.batch == [1, 0];
    assert s'.ops[1].deps[0] == 0 && !Resolved(s', 0);
  }

  lemma ExecOne(owners: Owners, s: State, x: Step, rest: seq<Step>, s': State, last: State)
    requires Apply(s, x) == Some(s') && Exec(s', rest) == Some(last)
    ensures Exec(s, [x] + rest) == Some(last)
    ensures Permitted(owners, s, x) && AllPermitted(owners, s', rest) ==> AllPermitted(owners, s, [x] + rest)
  {
    assert ([x] + rest)[1..] == rest;
  }

  /** The worker can come to wait for work behind it exactly when two clients share a file:
      one may be between tracking an operation and queueing it when the other asks for what
      is outstanding. */
  lemma NeverBlocksIffExclusive(owners: Owners, files: map<FileId, FileState>)
    ensures Exclusive(owners) <==>
      forall steps | AllPermitted(owners, Init(files), steps) && Exec(Init(files), steps).Some? ::
        !Blocked(Exec(Init(files), steps).value)
  {
    if Exclusive(owners) {
      forall steps | AllPermitted(owners, Init(files), steps) && Exec(Init(files), steps).Some?
        ensures !Blocked(Exec(Init(files), steps).value)
      {
        InitIsOrdered(files);
        RunWaits(owners, Init(files), steps);
        var s := Exec(Init(files), steps).value;
        if s.batch != [] {
          HeadIsReady(owners, s);
        }
      }
    } else {
      var c, d, f :| Owns(owners, c, f) && Owns(owners, d, f) && c != d;
      var steps := BlockingRun(owners, files, c, d, f);
    }
  }

  // ---- Shutdown ends ----------------------------------------------------------------------------------

  predicate WorkerStep(x: Step) {
    x.TakeBatch? || x.Execute? || x.Abandon? || x.Exit? || x.AbandonLast?
  }

  predicate Through(s: State) { s.exited && s.queue == [] && Ids(s.log) == s.order }

  /** An upper bound on the steps the worker still takes. */
  function WorkLeft(s: State): nat { |s.batch| + 2 * |s.queue| + (if s.exited then 0 else 1) }

  /** Each step of the worker brings it nearer to its end, and once it is stopped there are no
      other steps. */
  lemma WorkerAdvances(s: State, x: Step)
    requires Ordered(s) && Apply(s, x).Some?
    ensures WorkerStep(x) ==> WorkLeft(Apply(s, x).value) < WorkLeft(s)
    ensures !s.running ==> WorkerStep(x) && !Apply(s, x).value.running && Apply(s, x).value.order == s.order
  {
  }

  /** A stopped worker that is not through can go on without giving up an operation it has
      taken. */
  lemma WorkerGoesOn(owners: Owners, s: State)
    requires Waits(owners, s) && !s.running && !Through(s)
    ensures exists x :: WorkerStep(x) && !x.Abandon? && Apply(s, x).Some?
  {
    if s.batch != [] {
      HeadIsReady(owners, s);
      assert Apply(s, Execute).Some?;
    } else if !s.exited {
      assert Apply(s, Exit).Some?;
    } else {
      assert s.queue == [] ==> Ids(s.log) + [] + [] == Ids(s.log);
      assert Apply(s, AbandonLast).Some?;
    }
  }

  /** Once stopped, every run there is has no more than WorkLeft steps, and as long as some
      queued operation is not resolved it goes on, whether or not the deadline has passed. */
  lemma {:induction false} StopDrains(owners: Owners, s: State, steps: seq<Step>)
    requires Waits(owners, s) && !s.running && Exclusive(owners) && Exec(s, steps).Some?
    ensures |steps| <= WorkLeft(s)
    ensures var s' := Exec(s, steps).value;
      && s'.order == s.order
      && (Through(s') || exists x :: WorkerStep(x) && !x.Abandon? && Apply(s', x).Some?)
    decreases |steps|
  {
    if steps == [] {
      if !Through(s) {
        WorkerGoesOn(owners, s);
      }
    } else {
      WorkerAdvances(s, steps[0]);
      StepKeepsWaits(owners, s, steps[0]);
      StopDrains(owners, Apply(s, steps[0]).value, steps[1..]);
    }
  }

  // ---- What files hold --------------------------------------------------------------------------------

  /** The executed writes on a file among the first n resolved operations, up to its close. */
  function Written(ops: seq<Op>, log: seq<Entry>, f: FileId, n: nat): FileState
    requires n <= |log|
  {
    if n == 0 then FileState(true, [])
    else
      var before := Written(ops, log, f, n - 1);
      var e := log[n - 1];
      if !e.executed || e.id >= |ops| || ops[e.id].file != Some(f) then before
      else match ops[e.id].kind
        case Write(data) => if before.open then FileState(true, before.data + data) else before
        case Close => before.(open := false)
        case _ => before
  }

  /** What a file that began in the given state holds then. */
  function Onto(start: FileState, w: FileState): FileState {
    if start.open then FileState(w.open, start.data + w.data) else start
  }

  ghost predicate FilesAre(start: map<FileId, FileState>, s: State) {
    s.files.Keys == start.Keys
    && forall f | f in start :: s.files[f] == Onto(start[f], Written(s.ops, s.log, f, |s.log|))
  }

  lemma {:induction false} WrittenSame(ops: seq<Op>, log: seq<Entry>, ops': seq<Op>, log': seq<Entry>, f: FileId,
                                       n: nat)
    requires n <= |log| && log <= log' && ops <= ops' && forall i | 0 <= i < n :: log[i].id < |ops|
    ensures Written(ops', log', f, n) == Written(ops, log, f, n)
    decreases n
  {
    if n > 0 {
      WrittenSame(ops, log, ops', log', f, n - 1);
    }
  }

  lemma LoggedAreOps(s: State)
    requires Ordered(s)
    ensures forall i | 0 <= i < |s.log| :: s.log[i].id < |s.ops|
  {
    forall i | 0 <= i < |s.log|
      ensures s.log[i].id < |s.ops|
    {
      assert s.order[i] == Ids(s.log)[i];
    }
  }

  lemma StepKeepsFiles(start: map<FileId, FileState>, s: State, x: Step)
    requires Ordered(s) && FilesAre(start, s) && Apply(s, x).Some?
    ensures FilesAre(start, Apply(s, x).value)
  {
    var s' := Apply(s, x).value;
    StepKeepsOrdered(s, x);
    LoggedAreOps(s);
    forall f | f in start
      ensures s'.files[f] == Onto(start[f], Written(s'.ops, s'.log, f, |s'.log|))
    {
      WrittenSame(s.ops, s.log, s'.ops, s'.log, f, |s.log|);
      if x.Execute? {
        ExecuteKeepsFile(start, s, f);
      }
    }
  }

  lemma ExecuteKeepsFile(start: map<FileId, FileState>, s: State, f: FileId)
    requires FilesAre(start, s) && ExecuteStep(s).Some? && f in start
    requires var s' := ExecuteStep(s).value;
      Written(s.ops, s'.log, f, |s.log|) == Written(s.ops, s.log, f, |s.log|)
    ensures var s' := ExecuteStep(s).value;
      s'.files[f] == Onto(start[f], Written(s.ops, s'.log, f, |s'.log|))
  {
    var s' := ExecuteStep(s).value;
    var op := s.ops[s.batch[0]];
    assert s'.log[|s.log|] == Entry(s.batch[0], true);
    if op.file == Some(f) && op.kind.Write? {
      var w := Written(s.ops, s.log, f, |s.log|);
      assert start[f].data + (w.data + op.kind.data) == start[f].data + w.data + op.kind.data;
    }
  }

  lemma {:induction false} RunKeepsFiles(start: map<FileId, FileState>, s: State, steps: seq<Step>)
    requires Ordered(s) && FilesAre(start, s) && Exec(s, steps).Some?
    ensures FilesAre(start, Exec(s, steps).value)
    decreases |steps|
  {
    if steps != [] {
      StepKeepsFiles(start, s, steps[0]);
      StepKeepsOrdered(s, steps[0]);
      RunKeepsFiles(start, Apply(s, steps[0]).value, steps[1..]);
    }
  }

  lemma InitFilesAre(start: map<FileId, FileState>)
    ensures FilesAre(start, Init(start))
  {
    forall f | f in start
      ensures start[f] == Onto(start[f], FileState(true, []))
    {
      assert start[f].data + [] == start[f].data;
    }
  }

  /** At every moment of every run each file holds what it held at first and then, in the order
      they were queued, the data of the writes executed on it up to its close. */
  lemma FilesHoldWrites(start: map<FileId, FileState>, steps: seq<Step>)
    requires Exec(Init(start), steps).Some?
    ensures FilesAre(start, Exec(Init(start), steps).value)
  {
    InitIsOrdered(start);
    InitFilesAre(start);
    RunKeepsFiles(start, Init(start), steps);
  }
}
