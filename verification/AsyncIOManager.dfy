/** The manager object: its lock regions and the worker's turns, as methods. */
module AsyncIOManagerObject {
  import opened Utils
  import opened AsyncQueue

  class AsyncIOManager {
    var pendingOps: seq<OpId>
    var processingOps: seq<OpId>
    var fileFutures: map<FileId, seq<OpId>>
    var running: bool
    var ops: seq<Op>
    var log: seq<Entry>
    var files: map<FileId, FileState>
    ghost var held: map<Client, OpId>
    ghost var order: seq<OpId>
    ghost var exited: bool

    constructor (files: map<FileId, FileState>)
      ensures View() == Init(files)
    {
      pendingOps, processingOps, fileFutures, running, ops, log := [], [], map[], true, [], [];
      this.files := files;
      held, order, exited := map[], [], false;
    }

    ghost function View(): State
      reads this
    {
      State(ops, held, fileFutures, pendingOps, processingOps, order, log, files, running, exited)
    }

    /** The first half of a submission: the future exists and is tracked with its file. */
    method TrackFuture(ghost c: Client, op: Op) returns (id: OpId)
      requires MayStart(View(), c) && forall i | 0 <= i < |op.deps| :: op.deps[i] < |ops|
      modifies this
      ensures id == |old(ops)| && SubmitStep(old(View()), c, op.file, op.kind, op.deps) == Some(View())
    {
      id := |ops|;
      ops := ops + [op];
      held := held[c := id];
      if op.file.Some? {
        var f := op.file.value;
        fileFutures := fileFutures[f := (if f in fileFutures then fileFutures[f] else []) + [id]];
      }
    }

    /** The second half, under another lock. */
    method PushOp(ghost c: Client, id: OpId)
      requires c in held && held[c] == id
      modifies this
      ensures EnqueueStep(old(View()), c) == Some(View())
    {
      pendingOps := pendingOps + [id];
      held := held - {c};
      order := order + [id];
    }

    method IsReady(id: OpId) returns (ready: bool)
      ensures ready <==> Resolved(View(), id)
    {
      var ids := Ids(log);
      ready := id in ids;
    }

    /** Forgets the resolved futures of a file; the others, if any, get an operation that waits
        for them. */
    method TakePending(ghost c: Client, f: FileId) returns (id: Option<OpId>)
      requires MayStart(View(), c)
      modifies this
      ensures GetPendingStep(old(View()), c, f) == Some(View())
      ensures id == if Unresolved(old(View()), TrackedAt(old(View()), f)) == [] then None else Some(|old(ops)|)
    {
      var futures := if f in fileFutures then fileFutures[f] else [];
      var i := |futures|;
      var deps: seq<OpId> := [];
      while i > 0
        invariant 0 <= i <= |futures| && View() == old(View()) && deps == Unresolved(View(), futures[i..])
      {
        i := i - 1;
        assert futures[i..][1..] == futures[i + 1..];
        var ready := IsReady(futures[i]);
        if !ready {
          deps := [futures[i]] + deps;
        }
        assert deps == Unresolved(View(), futures[i..]);
      }
      assert futures[0..] == futures;
      if deps == [] {
        fileFutures := fileFutures - {f};
        return None;
      }
      fileFutures := fileFutures[f := deps];
      id := Some(|ops|);
      held := held[c := |ops|];
      ops := ops + [Op(Some(f), Wait, deps)];
    }

    method SpliceBatch() returns (took: bool)
      requires !exited && processingOps == []
      modifies this
      ensures took <==> old(pendingOps) != []
      ensures took ==> TakeBatchStep(old(View())) == Some(View())
      ensures !took ==> View() == old(View())
    {
      took := pendingOps != [];
      processingOps := processingOps + pendingOps;
      pendingOps := [];
      assert [] + old(pendingOps) == old(pendingOps);
    }

    /** One turn of the worker on its batch: the next operation is given up, or runs once what it
        waits for is there. */
    method RunNext(pastDeadline: bool) returns (done: bool)
      requires processingOps != [] && processingOps[0] < |ops|
      modifies this
      ensures done && !old(running) && pastDeadline ==> AbandonStep(old(View())) == Some(View())
      ensures done && (old(running) || !pastDeadline) ==> ExecuteStep(old(View())) == Some(View())
      ensures !done ==> View() == old(View()) && ExecuteStep(View()) == None && (running || !pastDeadline)
    {
      var id := processingOps[0];
      if !running && pastDeadline {
        processingOps := processingOps[1..];
        log := log + [Entry(id, false)];
        return true;
      }
      var op := ops[id];
      var k := 0;
      while k < |op.deps|
        invariant 0 <= k <= |op.deps| && View() == old(View())
        invariant forall i | 0 <= i < k :: Resolved(View(), op.deps[i])
      {
        var ready := IsReady(op.deps[k]);
        if !ready {
          return false;
        }
        k := k + 1;
      }
      processingOps := processingOps[1..];
      log := log + [Entry(id, true)];
      RunOp(op);
      done := true;
    }

    /** The executor of an operation. */
    method RunOp(op: Op)
      modifies this`files
      ensures files == Effect(old(files), op)
    {
      if op.file.None? || op.file.value !in files {
        return;
      }
      var f := op.file.value;
      match op.kind
      case Write(data) =>
        if files[f].open {
          files := files[f := FileState(true, files[f].data + data)];
        }
      case Close =>
        files := files[f := files[f].(open := false)];
      case Wait =>
      case Other =>
    }

    method Stop()
      requires running && held == map[]
      modifies this
      ensures StopStep(old(View())) == Some(View())
    {
      running := false;
    }

    /** After the loop everything still queued is resolved as given up. */
    method AbandonRest()
      requires exited
      modifies this
      ensures pendingOps == [] && exited
      ensures log == old(log)
        + seq(|old(pendingOps)|, i requires 0 <= i < |old(pendingOps)| => Entry(old(pendingOps)[i], false))
      ensures unchanged(this`ops, this`processingOps, this`files, this`fileFutures, this`running, this`held, this`order)
    {
      var abandoned := pendingOps;
      pendingOps := [];
      var i := 0;
      while i < |abandoned|
        invariant 0 <= i <= |abandoned|
        invariant log == old(log) + seq(i, k requires 0 <= k < i => Entry(abandoned[k], false))
        invariant pendingOps == [] && exited
        invariant unchanged(this`ops, this`processingOps, this`files, this`fileFutures, this`running)
        invariant unchanged(this`held, this`order)
      {
        log := log + [Entry(abandoned[i], false)];
        i := i + 1;
      }
    }
  }
}
