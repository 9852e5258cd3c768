// The store object (internal/store/store.go, snapshot.go). Each method holds the
// store's mutex throughout and is proved to do what the function of the same name
// in StoreState says. The log has a mutex of its own: SetBatch lets go of that one
// between its calls, and Others is what other goroutines may do to the log then.
module KVStore {
  import opened Bytes
  import opened LogState
  import opened LogReads
  import opened LogBackground
  import opened Snapshots
  import opened Wal
  import S = StoreState

  class Store {
    const json: Json
    const log: WAL
    var kv: map<Key, Value>
    var applied: nat
    var snap: Option<seq<byte>>

    ghost predicate Valid()
      reads this, log, log.segments
    {
      log.Valid()
    }

    function Model(): (w: S.World)
      reads this, log, log.pending, log.index, log.segments
    {
      S.World(log.Model(), kv, applied, snap)
    }

    // The empty memory New starts from.
    constructor (json: Json, log: WAL, snap: Option<seq<byte>>)
      ensures this.json == json && this.log == log
      ensures kv == map[] && applied == 0 && this.snap == snap
    {
      this.json, this.log := json, log;
      this.kv, this.applied, this.snap := map[], 0, snap;
    }

    // Only the log's own objects may have been replaced, and only by new ones.
    twostate predicate LogFramed()
      reads log
    {
      && log.index == old(log.index)
      && (log.cur == old(log.cur) || fresh(log.cur))
      && forall x :: x in log.segments ==> x in old(log.segments) || fresh(x)
    }

    method ApplyLocked(c: Command)
      modifies this`kv
      ensures kv == S.ApplyCommand(old(kv), c)
    {
      match c
      case Set(key, value) => kv := kv[key := value];
      case Delete(key) => kv := kv - {key};
    }

    method Apply(s: nat, payload: seq<byte>) returns (reply: S.Reply)
      modifies this`kv, this`applied
      ensures S.Result(Model(), reply) == S.Apply(json, old(Model()), s, payload)
    {
      hide WAL.Model;
      assert log.Model() == old(log.Model());
      var c := DecodeCommand(json, payload);
      if c == None {
        return S.Failed(S.BadCommand);
      }
      if s <= applied {
        return S.Done([]);
      }
      ApplyLocked(c.value);
      assert log.Model() == old(log.Model());
      applied := s;
      return S.Done([]);
    }

    // Set and Delete: the record is durable before memory changes.
    method Mutate(op: Op, key: Key, value: Value, io: AppendIO) returns (reply: S.Reply)
      requires Valid()
      modifies this`kv, this`applied, log, log.pending, log.index, log.cur
      ensures Valid() && LogFramed()
      ensures S.Result(Model(), reply) == S.Mutate(json, old(Model()), op, key, value, io)
    {
      hide WAL.Model, LogState.Append, S.Apply;
      var payload := EncodeCommand(json, op, key, value);
      if payload == None {
        return S.Failed(S.EmptyKey);
      }
      var outcome := log.Append(payload.value, true, io);
      if !outcome.Assigned? {
        return S.Failed(S.AppendFailed(outcome));
      }
      var done := Apply(outcome.s, payload.value);
      return if done.Done? then S.Done([outcome.s]) else done;
    }

    method Set(key: Key, value: Value, io: AppendIO) returns (reply: S.Reply)
      requires Valid()
      modifies this`kv, this`applied, log, log.pending, log.index, log.cur
      ensures Valid() && LogFramed()
      ensures S.Result(Model(), reply) == S.Mutate(json, old(Model()), OpSet, key, value, io)
    {
      reply := Mutate(OpSet, key, value, io);
    }

    method Delete(key: Key, io: AppendIO) returns (reply: S.Reply)
      requires Valid()
      modifies this`kv, this`applied, log, log.pending, log.index, log.cur
      ensures Valid() && LogFramed()
      ensures S.Result(Model(), reply) == S.Mutate(json, old(Model()), OpDelete, key, [], io)
    {
      reply := Mutate(OpDelete, key, [], io);
    }

    // ----- SetBatch -----

    method EncodePairs(pairs: seq<S.Pair>) returns (payloads: Option<seq<seq<byte>>>)
      ensures payloads == S.EncodeAll(json, pairs)
    {
      var done: seq<seq<byte>> := [];
      assert pairs[0..] == pairs;
      assert forall rest: seq<seq<byte>> :: done + rest == rest;
      for i := 0 to |pairs|
        invariant S.EncodeAll(json, pairs) == match S.EncodeAll(json, pairs[i..])
                                              case None => None
                                              case Some(rest) => Some(done + rest)
      {
        var payload := EncodeCommand(json, OpSet, pairs[i].key, pairs[i].value);
        if payload == None {
          return None;
        }
        assert pairs[i..][1..] == pairs[i + 1..];
        ghost var rest := S.EncodeAll(json, pairs[i + 1..]);
        assert rest.Some? ==> done + ([payload.value] + rest.value) == done + [payload.value] + rest.value;
        done := done + [payload.value];
      }
      assert done + [] == done;
      return Some(done);
    }

    // Flushes and cleanings that other goroutines get in.
    method Others(bs: seq<Background>)
      requires Valid() && NoRescan(bs)
      modifies log, log.pending, log.index, log.cur
      ensures Valid() && LogFramed()
      ensures log.Model() == AllBackground(old(log.Model()), bs)
    {
      hide WAL.Model, LogState.Flush, LogClean.Clean;
      for i := 0 to |bs|
        invariant Valid() && LogFramed()
        invariant AllBackground(old(log.Model()), bs) == AllBackground(log.Model(), bs[i..])
      {
        assert bs[i..][1..] == bs[i + 1..];
        match bs[i]
        case Ticking(io) => var _, _ := log.Sync(io);
        case Cleaning(io, before) => var _ := log.CleanOldSegments(before, io);
      }
    }

    method AppendPayloads(payloads: seq<seq<byte>>, ios: seq<S.BatchIO>) returns (outcome: Outcome, seqs: seq<nat>)
      requires Valid() && |ios| == |payloads| && forall i :: 0 <= i < |ios| ==> NoRescan(ios[i].before)
      modifies log, log.pending, log.index, log.cur
      ensures Valid() && LogFramed()
      ensures var r := S.AppendAll(old(log.Model()), payloads, ios);
              && log.Model() == r.log && (outcome.Assigned? <==> r.outcome.Assigned?)
              && (!outcome.Assigned? ==> outcome == r.outcome)
      ensures outcome.Assigned? ==> seqs == S.Numbers(old(log.nextSeq), |payloads|)
    {
      hide WAL.Model, LogState.Append, AllBackground;
      ghost var first := log.nextSeq;
      seqs := [];
      for i := 0 to |payloads|
        invariant Valid() && LogFramed()
        invariant S.AppendAll(old(log.Model()), payloads, ios) == S.AppendAll(log.Model(), payloads[i..], ios[i..])
        invariant log.Model().nextSeq == first + i && seqs == S.Numbers(first, i)
      {
        assert payloads[i..][1..] == payloads[i + 1..] && ios[i..][1..] == ios[i + 1..];
        SameNext(log.Model(), ios[i].before);
        Others(ios[i].before);
        ghost var v := log.Model();
        outcome := log.Append(payloads[i], false, ios[i].append);
        if !outcome.Assigned? {
          return;
        }
        AssignedNext(v, payloads[i], false, ios[i].append);
        seqs := seqs + [outcome.s];
      }
      outcome := Assigned(log.nextSeq);
    }

    method ApplyPayloads(seqs: seq<nat>, payloads: seq<seq<byte>>, ghost first: nat) returns (reply: S.Reply)
      requires seqs == S.Numbers(first, |payloads|)
      modifies this`kv, this`applied
      ensures S.Result(Model(), reply) == S.ApplyAll(json, old(Model()), first, payloads)
    {
      hide WAL.Model, S.Apply;
      for i := 0 to |seqs|
        invariant S.ApplyAll(json, old(Model()), first, payloads) == S.ApplyAll(json, Model(), first + i, payloads[i..])
      {
        assert payloads[i..][1..] == payloads[i + 1..];
        reply := Apply(seqs[i], payloads[i]);
        if reply.Failed? {
          return;
        }
      }
      return S.Done([]);
    }

    // Group commit: every command is appended, one sync confirms them, and only
    // then memory changes.
    method SetBatch(pairs: seq<S.Pair>, ios: seq<S.BatchIO>, sync: S.SyncIO) returns (reply: S.Reply)
      requires Valid() && |ios| == |pairs|
      requires NoRescan(sync.before) && forall i :: 0 <= i < |ios| ==> NoRescan(ios[i].before)
      modifies this`kv, this`applied, log, log.pending, log.index, log.cur
      ensures Valid() && LogFramed()
      ensures S.Result(Model(), reply) == S.SetBatch(json, old(Model()), pairs, ios, sync)
    {
      hide WAL.Model, S.AppendAll, S.ApplyAll, Flush, AllBackground;
      if |pairs| == 0 {
        return S.Done([]);
      }
      var payloads := EncodePairs(pairs);
      if payloads == None {
        return S.Failed(S.EmptyKey);
      }
      var outcome, seqs := AppendPayloads(payloads.value, ios);
      if !outcome.Assigned? {
        return S.Failed(S.AppendFailed(outcome));
      }
      Others(sync.before);
      var high, synced := log.Sync(sync.flush);
      if !synced {
        return S.Failed(S.SyncFailed);
      }
      var done := ApplyPayloads(seqs, payloads.value, old(log.nextSeq));
      return if done.Done? then S.Done(seqs) else done;
    }

    // ----- Snapshots and reload -----

    // writeAtomic on snapshot.dat. Until the rename everything happens to a
    // temporary file, which is removed on the way out.
    method WriteAtomic(data: seq<byte>, io: S.AtomicIO) returns (ok: bool)
      modifies this`snap
      ensures snap == S.AfterAtomic(old(snap), data, io) && ok == S.AtomicOk(data, io)
    {
      if io.createErr {
        return false;
      }
      var temp := data[..if io.wrote < |data| then io.wrote else |data|];
      if io.writeErr || |temp| != |data| {
        return false;
      }
      if io.syncErr {
        return false;
      }
      if io.closeErr {
        return false;
      }
      if io.renameErr {
        return false;
      }
      assert temp == data;
      snap := Some(temp);
      return !io.dirErr;
    }

    method Snapshot(sync: FlushIO, file: S.SnapshotIO) returns (reply: S.Reply)
      requires Valid()
      modifies this`snap, log, log.pending, log.cur
      ensures Valid() && LogFramed()
      ensures S.Result(Model(), reply) == S.TakeSnapshot(json, old(Model()), sync, file)
    {
      hide WAL.Model, Flush;
      var high, synced := log.Sync(sync);
      if !synced {
        return S.Failed(S.SyncFailed);
      }
      var data := SnapshotFrame(json.renderBody(Body(applied, kv)));
      if file.mkdirErr {
        return S.Failed(S.SnapshotNotWritten);
      }
      ghost var v := log.Model();
      var written := WriteAtomic(data, file.atomic);
      assert log.Model() == v;
      if !written || file.backErr {
        return S.Failed(S.SnapshotNotWritten);
      }
      var back := ReadSnapshot(json, snap.value);
      return if back.Loaded? then S.Done([back.body.applied]) else S.Failed(S.SnapshotNotWritten);
    }

    // ok is false when the file cannot be read; one that does not check is ignored.
    method LoadSnapshot(readErr: bool) returns (ok: bool)
      modifies this`kv, this`applied
      ensures ok == !readErr
      ensures Model() == if ok then S.LoadSnapshot(json, old(Model())) else old(Model())
    {
      hide WAL.Model;
      assert log.Model() == old(log.Model());
      if readErr {
        return false;
      }
      if snap.Some? {
        var r := ReadSnapshot(json, snap.value);
        if r.Loaded? {
          kv, applied := r.body.values, r.body.applied;
        }
      }
      assert log.Model() == old(log.Model());
      return true;
    }

    // log.Replay(s.Apply).
    method ReplayLog(io: FlushIO) returns (reply: S.Reply)
      requires Valid()
      modifies this`kv, this`applied, log, log.pending, log.cur
      ensures Valid() && LogFramed()
      ensures var f := Flush(old(log.Model()), io);
              S.Result(Model(), reply) == if f.ok then S.ReplayFrom(json, old(Model()).(log := f.log), 1)
                                          else S.Result(old(Model()).(log := f.log), S.Failed(S.SyncFailed))
    {
      hide WAL.Model, Flush, S.Apply;
      ghost var flushed := Flush(log.Model(), io).ok;
      var found, stop := log.Replay(io);
      ghost var w := Model();
      if flushed {
        ReplayIsWalk(json, w, 1);
        WalkIsPastFlush(w.log, 1);
        assert found[0..] == found;
      }
      for i := 0 to |found|
        invariant Valid() && LogFramed()
        invariant flushed ==> S.ReplayFrom(json, w, 1) == Deliver(json, Model(), found[i..], stop)
        invariant !flushed ==> found == [] && Model() == w
      {
        assert found[i..][1..] == found[i + 1..];
        reply := Apply(found[i].0, found[i].1);
        if reply.Failed? {
          return;
        }
      }
      return match stop
             case None => S.Done([])
             case Some(FlushError) => S.Failed(S.SyncFailed)
             case Some(e) => S.Failed(S.LogUnreadable(e));
    }

    method Reload(io: S.ReloadIO) returns (reply: S.Reply)
      requires Valid()
      modifies this`kv, this`applied, log, log.pending, log.cur
      ensures Valid() && LogFramed()
      ensures S.Result(Model(), reply) == S.Reload(json, old(Model()), io)
    {
      hide WAL.Model, Flush, S.ReplayFrom, S.LoadSnapshot;
      kv, applied := map[], 0;
      assert Model() == S.Blank(old(Model()));
      var loaded := LoadSnapshot(io.readErr);
      if !loaded {
        return S.Failed(S.SnapshotUnreadable);
      }
      reply := ReplayLog(io.flush);
    }
  }

  predicate NoRescan(bs: seq<Background>) {
    forall b :: b in bs ==> !b.Rescanning?
  }

  lemma {:induction false} SameNext(v: Log, bs: seq<Background>)
    requires v.segs != [] && NoRescan(bs)
    ensures AllBackground(v, bs).nextSeq == v.nextSeq
    decreases bs
  {
    hide Flush, LogClean.KeptFrom, LogClean.From;
    if bs != [] {
      assert bs[0] in bs;
      SameNext(InBackground(v, bs[0]), bs[1..]);
    }
  }

  lemma AssignedNext(v: Log, p: seq<byte>, force: bool, io: AppendIO)
    requires v.segs != [] && v.opts.maxRecord >= 1
    ensures var r := LogState.Append(v, p, force, io);
            r.outcome.Assigned? ==> r.outcome == Assigned(v.nextSeq) && r.log.nextSeq == v.nextSeq + 1
  {
  }

  // Records handed to Apply in order, then the error the walk ended with.
  function Deliver(json: Json, w: S.World, found: seq<(nat, seq<byte>)>, stop: Option<ReadError>): S.Result
    decreases found
  {
    if found == [] then S.Result(w, if stop == None then S.Done([]) else S.Failed(S.LogUnreadable(stop.value)))
    else
      var a := S.Apply(json, w, found[0].0, found[0].1);
      if a.reply.Failed? then a else Deliver(json, a.world, found[1..], stop)
  }

  // Replaying with Apply as the callback is delivering what the walk reads.
  lemma {:induction false} ReplayIsWalk(json: Json, w: S.World, s: nat)
    ensures var walk := WalkFrom(w.log, s);
            S.ReplayFrom(json, w, s) == Deliver(json, w, walk.found, walk.stop)
    decreases w.log.durable + 1 - s
  {
    hide S.Apply, ReadIndexed;
    if s <= w.log.durable {
      if s !in w.log.index {
        ReplayIsWalk(json, w, s + 1);
      } else if ReadIndexed(w.log, s).Payload? {
        var p := ReadIndexed(w.log, s).data;
        var next := S.Apply(json, w, s, p).world;
        ReplayIsWalk(json, next, s + 1);
        var rest := WalkFrom(w.log, s + 1).found;
        assert ([(s, p)] + rest)[1..] == rest;
      }
    }
  }

  lemma {:induction false} WalkIsPastFlush(v: Log, s: nat)
    ensures WalkFrom(v, s).stop != Some(FlushError)
    decreases v.durable + 1 - s
  {
    if s <= v.durable {
      WalkIsPastFlush(v, s + 1);
    }
  }

  // New: the store over an opened log. A snapshot that does not check is ignored;
  // one that cannot be read, or a log that cannot be replayed, is an error.
  method New(json: Json, log: WAL, snap: Option<seq<byte>>, io: S.ReloadIO) returns (store: Store?, reply: S.Reply)
    requires log.Valid()
    modifies log, log.pending, log.cur
    ensures var r := S.New(json, old(log.Model()), snap, io);
            && reply == r.reply && log.Model() == r.world.log && log.Valid()
            && (store != null <==> reply.Done?)
            && (store != null ==> fresh(store) && store.log == log && store.json == json && store.Model() == r.world)
  {
    hide WAL.Model, Flush, S.ReplayFrom;
    var s := new Store(json, log, snap);
    reply := s.Reload(io);
    store := if reply.Done? then s else null;
  }
}
