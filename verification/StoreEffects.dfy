// What callers see: the commands a call logs, what a successful call leaves in
// memory, and which reply each failure gets.
module StoreEffects {
  import opened Bytes
  import opened LogState
  import opened LogSteps
  import opened LogReads
  import opened LogFaults
  import opened LogBackground
  import opened Snapshots
  import opened StoreState
  import opened Folds
  import opened StoreProofs
  import opened StoreBatch
  import opened StoreRestart
  import LogReports

  // ----- Set and Delete -----

  // A call that succeeds changes exactly its own key, in the normal form JSON
  // gives it; one that fails changes nothing.
  lemma MutateEffect(json: Json, w: World, h: seq<seq<byte>>, gs: Gaps, op: Op, key: Key, value: Value, io: AppendIO)
    requires Lawful(json) && Settled(json, w, h, gs) && op != OpOther
    requires w.log.segs != [] && w.log.opts.maxRecord >= 1 && RoomFor(w.log, 1)
    requires RollbackWorks(io.rotate) && RollbackWorks(io.flush)
    ensures var r := Mutate(json, w, op, key, value, io);
            r.world.kv == if r.reply.Failed? then w.kv
                          else if op == OpSet then w.kv[json.normal(key) := value]
                          else w.kv - {json.normal(key)}
  {
    hide Inv, Append, Sound, Lawful, DecodeCommand, EncodeCommand;
    CommandRoundTrip(json, op, key, value);
    MutateKeeps(json, w, h, gs, op, key, value, io, 0);
    SoundInv(json, w, h, gs);
    if key != [] {
      var p := EncodeCommand(json, op, key, value).value;
      AppendAssigns(w.log, p, true, io);
    }
  }

  lemma AppendAssigns(v: Log, p: seq<byte>, force: bool, io: AppendIO)
    requires v.segs != [] && v.opts.maxRecord >= 1
    ensures Append(v, p, force, io).outcome.Assigned? ==> Append(v, p, force, io).outcome.s == v.nextSeq
  {
  }

  // The empty key is refused without touching anything, a failed append is
  // reported as it failed, and success reports the sequence.
  lemma MutateReplies(json: Json, w: World, op: Op, key: Key, value: Value, io: AppendIO)
    requires Lawful(json) && op != OpOther && w.log.segs != [] && w.log.opts.maxRecord >= 1
    ensures var r := Mutate(json, w, op, key, value, io);
            && (key == [] <==> r.reply == Failed(EmptyKey))
            && (key == [] ==> r.world == w)
            && (key != [] ==>
                 exists p :: EncodeCommand(json, op, key, value) == Some(p)
                             && var a := Append(w.log, p, true, io);
                                r.reply == if a.outcome.Assigned? then StoreState.Done([a.outcome.s])
                                           else Failed(AppendFailed(a.outcome)))
  {
    hide Append, Lawful, DecodeCommand, EncodeCommand;
    CommandRoundTrip(json, op, key, value);
  }

  // ----- SetBatch -----

  // The commands of a batch set its pairs, one after the other.
  lemma {:induction false} BatchCommands(json: Json, pairs: seq<Pair>, i: nat)
    requires Lawful(json) && EncodeAll(json, pairs).Some? && i < |pairs|
    ensures var ps := EncodeAll(json, pairs).value;
            DecodeCommand(json, ps[i]) == Some(Set(json.normal(pairs[i].key), pairs[i].value))
    decreases pairs
  {
    hide Lawful, DecodeCommand, EncodeCommand;
    CommandRoundTrip(json, OpSet, pairs[0].key, pairs[0].value);
    if i > 0 {
      BatchCommands(json, pairs[1..], i - 1);
    }
  }

  // What the last pair with this key says.
  function LastPair(json: Json, pairs: seq<Pair>, key: Key): Option<Value> {
    if pairs == [] then None
    else
      var n := |pairs| - 1;
      if json.normal(pairs[n].key) == key then Some(pairs[n].value) else LastPair(json, pairs[..n], key)
  }

  lemma {:induction false} LastPairFront(json: Json, pairs: seq<Pair>, key: Key)
    requires pairs != []
    ensures LastPair(json, pairs, key)
         == if LastPair(json, pairs[1..], key).Some? then LastPair(json, pairs[1..], key)
            else if json.normal(pairs[0].key) == key then Some(pairs[0].value) else None
    decreases pairs
  {
    var n := |pairs| - 1;
    if n == 0 {
    } else {
      LastPairFront(json, pairs[..n], key);
      assert pairs[..n][1..] == pairs[1..][..n - 1];
      assert pairs[1..][n - 1] == pairs[n];
    }
  }

  lemma {:induction false} ApplyAllSets(json: Json, w: World, s: nat, ps: seq<seq<byte>>, pairs: seq<Pair>, key: Key)
    requires w.applied < s && |ps| == |pairs|
    requires forall i :: 0 <= i < |ps| ==>
               DecodeCommand(json, ps[i]) == Some(Set(json.normal(pairs[i].key), pairs[i].value))
    ensures var r := ApplyAll(json, w, s, ps);
            && r.reply == StoreState.Done([])
            && Lookup(r.world.kv, key)
               == if LastPair(json, pairs, key).Some? then LastPair(json, pairs, key) else Lookup(w.kv, key)
    decreases ps
  {
    hide DecodeCommand;
    if ps != [] {
      var next := Apply(json, w, s, ps[0]).world;
      ApplyAllSets(json, next, s + 1, ps[1..], pairs[1..], key);
      LastPairFront(json, pairs, key);
    }
  }

  // A batch that succeeds leaves under each of its keys the value of the last pair
  // with that key, and every other key as it was; one that fails changes nothing.
  lemma BatchEffect(json: Json, w: World, h: seq<seq<byte>>, gs: Gaps, pairs: seq<Pair>, ios: seq<BatchIO>,
                    sync: SyncIO, kept: nat, key: Key)
    requires BatchReady(json, w, h, gs, pairs, ios, sync, kept)
    ensures var r := SetBatch(json, w, pairs, ios, sync);
            Lookup(r.world.kv, key)
            == if r.reply.Done? && LastPair(json, pairs, key).Some? then LastPair(json, pairs, key)
               else Lookup(w.kv, key)
  {
    hide Inv, Sound, AppendAll, AllBackground, Flush, EncodeAll, ApplyAll, Lawful, Lookup;
    BatchKeeps(json, w, h, gs, pairs, ios, sync, kept);
    SoundInv(json, w, h, gs);
    if EncodeAll(json, pairs).Some? {
      var ps := EncodeAll(json, pairs).value;
      forall i | 0 <= i < |ps|
        ensures DecodeCommand(json, ps[i]) == Some(Set(json.normal(pairs[i].key), pairs[i].value))
      {
        BatchCommands(json, pairs, i);
      }
      var f := Flush(AllBackground(AppendAll(w.log, ps, ios).log, sync.before), sync.flush);
      ApplyAllSets(json, w.(log := f.log), w.log.nextSeq, ps, pairs, key);
    }
  }

  // A batch with an empty key in it is refused as a whole, before anything is
  // appended.
  lemma BatchRefused(json: Json, w: World, pairs: seq<Pair>, ios: seq<BatchIO>, sync: SyncIO)
    requires Lawful(json) && w.log.segs != [] && w.log.opts.maxRecord >= 1 && |ios| == |pairs|
    requires exists i :: 0 <= i < |pairs| && pairs[i].key == []
    ensures SetBatch(json, w, pairs, ios, sync) == Result(w, Failed(EmptyKey))
  {
    hide Lawful, EncodeAll;
    BatchDecodable(json, pairs);
  }

  // Any other batch gets the failure of the first append that fails, or that of the
  // sync, or one sequence for each pair, in order.
  lemma BatchReplies(json: Json, w: World, h: seq<seq<byte>>, gs: Gaps, pairs: seq<Pair>, ios: seq<BatchIO>,
                     sync: SyncIO, kept: nat)
    requires BatchReady(json, w, h, gs, pairs, ios, sync, kept)
    requires pairs != [] && forall i :: 0 <= i < |pairs| ==> pairs[i].key != []
    ensures EncodeAll(json, pairs).Some? && |EncodeAll(json, pairs).value| == |pairs|
    ensures var a := AppendAll(w.log, EncodeAll(json, pairs).value, ios);
            var f := Flush(AllBackground(a.log, sync.before), sync.flush);
            SetBatch(json, w, pairs, ios, sync).reply
            == if !a.outcome.Assigned? then Failed(AppendFailed(a.outcome))
               else if !f.ok then Failed(SyncFailed)
               else StoreState.Done(Numbers(|h| + 1, |pairs|))
  {
    hide Inv, Sound, AppendAll, AllBackground, Flush, EncodeAll, ApplyAll, Lawful;
    BatchDecodable(json, pairs);
    BatchKeeps(json, w, h, gs, pairs, ios, sync, kept);
    SoundInv(json, w, h, gs);
    var ps := EncodeAll(json, pairs).value;
    forall i | 0 <= i < |ps|
      ensures DecodeCommand(json, ps[i]) == Some(Set(json.normal(pairs[i].key), pairs[i].value))
    {
      BatchCommands(json, pairs, i);
    }
    var f := Flush(AllBackground(AppendAll(w.log, ps, ios).log, sync.before), sync.flush);
    ApplyAllSets(json, w.(log := f.log), w.log.nextSeq, ps, pairs, pairs[0].key);
  }

  // The first append that fails is the one that AppendAll reports.
  lemma {:induction false} FirstFailure(v: Log, ps: seq<seq<byte>>, ios: seq<BatchIO>)
    requires v.segs != [] && v.opts.maxRecord >= 1 && |ios| == |ps|
    requires !AppendAll(v, ps, ios).outcome.Assigned?
    ensures exists i :: 0 <= i < |ps| && FailsAt(v, ps, ios, i, AppendAll(v, ps, ios).outcome)
    decreases ps
  {
    hide Append, AllBackground;
    var r := Append(AllBackground(v, ios[0].before), ps[0], false, ios[0].append);
    if r.outcome.Assigned? {
      FirstFailure(r.log, ps[1..], ios[1..]);
      var i :| 0 <= i < |ps| - 1 && FailsAt(r.log, ps[1..], ios[1..], i, AppendAll(v, ps, ios).outcome);
      assert ps[..i + 1][0] == ps[0] && ps[..i + 1][1..] == ps[1..][..i];
      assert ios[..i + 1][0] == ios[0] && ios[..i + 1][1..] == ios[1..][..i];
      assert FailsAt(v, ps, ios, i + 1, AppendAll(v, ps, ios).outcome);
    } else {
      assert ps[..0] == [] && ios[..0] == [];
      assert FailsAt(v, ps, ios, 0, AppendAll(v, ps, ios).outcome);
    }
  }

  // Appends 0, ..., i - 1 go through and append i fails in this way.
  predicate FailsAt(v: Log, ps: seq<seq<byte>>, ios: seq<BatchIO>, i: nat, why: Outcome)
    requires v.segs != [] && v.opts.maxRecord >= 1 && |ios| == |ps| && i < |ps|
  {
    var before := AppendAll(v, ps[..i], ios[..i]);
    && before.outcome.Assigned?
    && !why.Assigned?
    && Append(AllBackground(before.log, ios[i].before), ps[i], false, ios[i].append).outcome == why
  }

  // ----- Apply -----

  // A payload is refused exactly when it is no command, whatever its sequence, and
  // memory moves only to a later sequence.
  lemma ApplyRefuses(json: Json, w: World, s: nat, payload: seq<byte>)
    ensures var r := Apply(json, w, s, payload);
            && (r.reply == Failed(BadCommand) <==> DecodeCommand(json, payload) == None)
            && (r.reply == StoreState.Done([]) <==> DecodeCommand(json, payload).Some?)
            && (r.world != w ==> r.reply.Done? && r.world.applied == s > w.applied)
            && (r.reply.Done? ==> r.world.applied == if s > w.applied then s else w.applied)
  {
    hide DecodeCommand;
  }

  // ----- Snapshot -----

  // A snapshot succeeds exactly when the flush and every step of writing and
  // reading back the file do; the file is replaced exactly when everything up to
  // the rename does, and then holds what memory holds.
  lemma SnapshotOutcomes(json: Json, w: World, sync: FlushIO, file: SnapshotIO)
    requires Lawful(json) && Canonical(json, w.kv) && w.log.segs != [] && SnapshotFits(json, w)
    ensures var r := TakeSnapshot(json, w, sync, file);
            var a, size := file.atomic, |SnapshotBytes(json, w)|;
            var renamed := && Flush(w.log, sync).ok && !file.mkdirErr && !a.createErr && !a.writeErr && a.wrote >= size
                           && !a.syncErr && !a.closeErr && !a.renameErr;
            && (r.reply.Done? <==> renamed && !a.dirErr && !file.backErr)
            && (r.reply == Failed(SyncFailed) <==> !Flush(w.log, sync).ok)
            && (if renamed then ReadBack(json, r.world) == Some(Body(w.applied, w.kv)) else r.world.snap == w.snap)
            && r.world.log == Flush(w.log, sync).log && r.world.kv == w.kv && r.world.applied == w.applied
  {
    hide Flush, ReadSnapshot, SnapshotFrame;
    SnapshotRoundTrip(json, Body(w.applied, w.kv));
  }

  // ----- Reload -----

  // A Reload that fails leaves memory empty when the snapshot could not be read,
  // and as the snapshot has it when the flush failed.
  lemma FailedReload(json: Json, w: World, io: ReloadIO)
    requires w.log.segs != [] && (io.readErr || !Flush(w.log, io.flush).ok)
    ensures var r := Reload(json, w, io);
            && r.world.snap == w.snap
            && (io.readErr ==>
                 && r.reply == Failed(SnapshotUnreadable)
                 && r.world.kv == map[] && r.world.applied == 0 && r.world.log == w.log)
            && (!io.readErr ==>
                 && r.reply == Failed(SyncFailed) && r.world.log == Flush(w.log, io.flush).log
                 && match ReadBack(json, w)
                    case None => r.world.kv == map[] && r.world.applied == 0
                    case Some(body) => r.world.kv == body.values && r.world.applied == body.applied)
  {
    hide Flush, ReadSnapshot, ReplayFrom;
  }

  // ----- A damaged record -----

  // x is y over a log in which record s no longer reads.
  ghost predicate Damages(y: World, x: World, h: seq<seq<byte>>, s: nat, e: ReadError) {
    && x == y.(log := x.log) && x.log.index == y.log.index && x.log.durable == y.log.durable
    && s in x.log.index && ReadIndexed(x.log, s) == ReadFailed(e)
    && forall t :: t in x.log.index && t != s ==> 1 <= t <= |h| && ReadIndexed(x.log, t) == Payload(h[t - 1])
  }

  // A replay stops there, with an error, and has applied what it met before.
  lemma {:induction false} ReplayStops(json: Json, y: World, x: World, h: seq<seq<byte>>, gs: Gaps, s: nat,
                                         e: ReadError, from: nat)
    requires Sound(json, y, h, gs) && Damages(y, x, h, s, e)
    requires 1 <= from <= s <= y.log.durable <= |h|
    requires forall t :: y.applied < t < from ==> t !in y.log.index
    ensures var r := ReplayFrom(json, x, from);
            && r.reply == Failed(LogUnreadable(e)) && r.world.log == x.log
            && Replaying(json, y, h, gs, r.world.(log := y.log))
            && (r.world.applied == y.applied || y.applied < r.world.applied < s)
            && forall t :: r.world.applied < t < s ==> t !in y.log.index
    decreases s - from
  {
    hide Inv, Apply, ReadIndexed, Sound, Skipped;
    SkippedNothing(y.log.index, gs.mem, y.applied);
    if from < s {
      if from !in y.log.index {
        ReplayStops(json, y, x, h, gs, s, e, from + 1);
      } else if from <= y.applied {
        ApplySkips(json, y, h, gs, from);
        SameApply(json, y, x, from, h[from - 1]);
        ReplayStops(json, y, x, h, gs, s, e, from + 1);
      } else {
        ApplyNext(json, y, h, gs, from);
        SameApply(json, y, x, from, h[from - 1]);
        var next := Apply(json, y, from, h[from - 1]).world;
        var gn := gs.(mem := Passed(gs.mem, y.applied, from));
        ReplayStops(json, next, next.(log := x.log), h, gn, s, e, from + 1);
        ReplayOn(json, y, h, gs, from, next, ReplayFrom(json, next.(log := x.log), from + 1).world.(log := y.log));
      }
    }
  }

  lemma SameApply(json: Json, y: World, x: World, s: nat, p: seq<byte>)
    requires x == y.(log := x.log)
    ensures var a, b := Apply(json, x, s, p), Apply(json, y, s, p);
            a.reply == b.reply && a.world == b.world.(log := x.log)
  {
    hide DecodeCommand;
  }

  // After Corrupt of record s every Reload fails, names its segment and offset, and
  // leaves memory with the snapshot and what the log has below s.
  lemma DamageStopsReload(json: Json, w: World, h: seq<seq<byte>>, gs: Gaps, s: nat, io: FaultIO, again: ReloadIO)
    requires Settled(json, w, h, gs) && w.log.segs != [] && RollbackWorks(io.flush) && !again.readErr
    requires Flush(w.log, io.flush).ok && s in w.log.index && io.Works()
    ensures Inject(w.log, s, io).0.segs != []
    ensures var x := w.(log := Inject(w.log, s, io).0);
            var loc := w.log.index[s];
            var r := Reload(json, x, again);
            && r.reply == Failed(LogUnreadable(CorruptAt(
                 Recovery.Corruption(loc.segment, loc.offset, Scan.Undecodable(Framing.BadChecksum)))))
            && r.world.log == x.log
            && r.world.applied <= |h|
            && r.world.kv == FoldWithout(json, h, GapsReplayed(json, w, gs, r.world).mem, r.world.applied)
            && (r.world.applied == Based(json, w) || Based(json, w) < r.world.applied < s)
            && forall t :: r.world.applied < t < s ==> t !in w.log.index
  {
    hide Inv, FoldWithout, ReadSnapshot, Inject, Recovery.Recover, ReadIndexed, WalkFrom, Expected, Flush;
    hide Sound, Skipped;
    OptionsOf(json, w, h, gs);
    FaultIsExact(w.log, h, s, io);
    FlushSound(json, w, h, gs, io.flush);
    var f := Flush(w.log, io.flush).log;
    FlushedClean(w.log, h, io.flush);
    var x := w.(log := Inject(w.log, s, io).0);
    var l := LoadSnapshot(json, Blank(w));
    LoadIsLive(json, w, h, gs);
    var gl := GapsLoaded(json, w, gs);
    FlushSound(json, l, h, gl, io.flush);
    assert Moment(json, l, h, gl, 0, l.(log := f));
    var y := l.(log := f);
    IndexedRange(w.log, h, s);
    assert Flush(x.log, again.flush) == FlushResult(x.log, true) by { LogReports.NothingToFlush(x.log, again.flush); }
    ReplayStops(json, y, y.(log := x.log), h, gl, s,
                CorruptAt(Recovery.Corruption(w.log.index[s].segment, w.log.index[s].offset,
                                              Scan.Undecodable(Framing.BadChecksum))), 1);
    var r := Reload(json, x, again).world;
    SoundLive(json, r.(log := f), h, GapsReplayed(json, w, gs, r));
  }
}
