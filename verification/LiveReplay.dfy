// When live memory equals what a replay of the log would rebuild, when a
// snapshot of it is faithful, and runs on which they are not.
module LiveReplay {
  import opened Bytes
  import opened History
  import opened Recovery
  import opened LogState
  import opened LogSteps
  import opened LogBackground
  import opened LogOnward
  import opened LogCrash
  import opened Snapshots
  import opened StoreState
  import opened Folds
  import opened StoreProofs
  import opened StoreBatch
  import opened StoreRestart

  // Everything on the log that memory does not have: what it passed over and
  // what it has not reached.
  function Missing(w: World, h: seq<seq<byte>>, gs: Gaps): set<nat> {
    Passed(gs.mem, w.applied, |h| + 1)
  }

  // The exact condition, at any time, after any stretch of successful and failed
  // writes. Memory equals the replay of the whole log if and only if the commands
  // it does not have are harmless.
  lemma LiveEqualsReplayIff(json: Json, w: World, h: seq<seq<byte>>, gs: Gaps)
    requires Settled(json, w, h, gs)
    ensures w.kv == FoldWithout(json, h, Missing(w, h, gs), |h|)
    ensures w.kv == Fold(json, h, |h|) <==> Harmless(json, h, Missing(w, h, gs), |h|)
  {
    hide Inv, ReadSnapshot, Covers, FoldWithout, Harmless;
    LiveFacts(json, w, h, gs);
    FoldPassed(json, h, gs.mem, w.applied, |h| + 1);
    HarmlessIff(json, h, Missing(w, h, gs), |h|);
  }

  lemma LiveFacts(json: Json, w: World, h: seq<seq<byte>>, gs: Gaps)
    requires Settled(json, w, h, gs)
    ensures w.applied <= |h| && w.kv == FoldWithout(json, h, gs.mem, w.applied) && w.log.nextSeq == |h| + 1
    ensures forall s :: s in gs.mem ==> 1 <= s <= w.applied
  {
    hide Inv, ReadSnapshot, Covers, FoldWithout;
  }

  // ----- After a write that succeeds -----

  // What is missing after a write is what was missing before it, so a caller can
  // tell before the call: the condition is about the log, the payloads of the
  // call and the sequences that failed.
  lemma WrittenIff(json: Json, w: World, h: seq<seq<byte>>, gs: Gaps, ps: seq<seq<byte>>, r: World)
    requires Settled(json, w, h, gs) && ps != []
    requires Sound(json, r, h + ps, GapsFrom(gs, w, w.log.nextSeq, r))
    requires r.applied == r.log.nextSeq - 1 == |h| + |ps|
    ensures Settled(json, r, h + ps, gs.(mem := Missing(w, h, gs)))
    ensures Missing(r, h + ps, gs.(mem := Missing(w, h, gs))) == Missing(w, h, gs)
    ensures r.kv == Fold(json, h + ps, |h + ps|) <==> Harmless(json, h + ps, Missing(w, h, gs), |h + ps|)
  {
    hide Sound, FoldWithout, Harmless;
    LiveFacts(json, w, h, gs);
    var gr := gs.(mem := Missing(w, h, gs));
    assert GapsFrom(gs, w, w.log.nextSeq, r) == gr;
    PassedNone(gr.mem, r.applied);
    LiveEqualsReplayIff(json, r, h + ps, gr);
  }

  lemma MutateEqualsReplayIff(json: Json, w: World, h: seq<seq<byte>>, gs: Gaps, op: Op, key: Key, value: Value,
                              io: AppendIO)
    requires Lawful(json) && Settled(json, w, h, gs) && op != OpOther
    requires w.log.segs != [] && w.log.opts.maxRecord >= 1 && RoomFor(w.log, 1)
    requires RollbackWorks(io.rotate) && RollbackWorks(io.flush)
    requires Mutate(json, w, op, key, value, io).reply.Done?
    ensures var r := Mutate(json, w, op, key, value, io).world;
            var g := h + Issues(json, op, key, value);
            && r.applied == |g| == |h| + 1
            && Settled(json, r, g, gs.(mem := Missing(w, h, gs)))
            && (r.kv == Fold(json, g, |g|) <==> Harmless(json, g, Missing(w, h, gs), |g|))
  {
    hide Inv, Sound, Mutate, FoldWithout, Harmless, Settled;
    MutateKeeps(json, w, h, gs, op, key, value, io, 0);
    WrittenIff(json, w, h, gs, Issues(json, op, key, value), Mutate(json, w, op, key, value, io).world);
  }

  lemma BatchEqualsReplayIff(json: Json, w: World, h: seq<seq<byte>>, gs: Gaps, pairs: seq<Pair>, ios: seq<BatchIO>,
                             sync: SyncIO, kept: nat)
    requires BatchReady(json, w, h, gs, pairs, ios, sync, kept) && pairs != []
    requires SetBatch(json, w, pairs, ios, sync).reply.Done?
    ensures var r := SetBatch(json, w, pairs, ios, sync).world;
            var g := h + BatchIssues(json, pairs);
            && r.applied == |g| == |h| + |pairs|
            && Settled(json, r, g, gs.(mem := Missing(w, h, gs)))
            && (r.kv == Fold(json, g, |g|) <==> Harmless(json, g, Missing(w, h, gs), |g|))
  {
    hide Inv, Sound, SetBatch, FoldWithout, Harmless, Settled, EncodeAll;
    BatchKeeps(json, w, h, gs, pairs, ios, sync, kept);
    BatchEncoded(json, w, pairs, ios, sync);
    WrittenIff(json, w, h, gs, BatchIssues(json, pairs), SetBatch(json, w, pairs, ios, sync).world);
  }

  lemma BatchEncoded(json: Json, w: World, pairs: seq<Pair>, ios: seq<BatchIO>, sync: SyncIO)
    requires w.log.segs != [] && w.log.opts.maxRecord >= 1 && |ios| == |pairs|
    requires SetBatch(json, w, pairs, ios, sync).reply.Done?
    ensures |BatchIssues(json, pairs)| == |pairs|
  {
    hide AppendAll, AllBackground, Flush, ApplyAll;
  }

  // ----- A snapshot, then a crash -----

  // After a successful snapshot every assigned record is durable, and whatever
  // crash follows, the store comes back with everything but what memory had passed
  // over when the snapshot was taken and what memory did not have and the log no
  // longer has. That is the fold of the whole history if and only if those are
  // harmless.
  lemma SnapshotCrashIff(json: Json, w: World, h: seq<seq<byte>>, gs: Gaps, sync: FlushIO, file: SnapshotIO, k: nat,
                         io: ReloadIO)
    requires Lawful(json) && Settled(json, w, h, gs) && w.log.segs != [] && RollbackWorks(sync)
    requires SnapshotFits(json, w) && !io.readErr
    requires TakeSnapshot(json, w, sync, file).reply.Done?
    requires Survives(TakeSnapshot(json, w, sync, file).world.log, k)
    ensures var x := TakeSnapshot(json, w, sync, file).world;
            var without := Passed(gs.mem, w.applied, w.log.segs[0].start);
            && x.log.segs[0].start >= 1 && AfterCrash(x.log, k).Opened?
            && Reopened(x.log.opts, AfterCrash(x.log, k)).segs != []
            && var r := New(json, Reopened(x.log.opts, AfterCrash(x.log, k)), x.snap, io);
               && r.reply == StoreState.Done([])
               && r.world.log.durable == |h|
               && r.world.kv == FoldWithout(json, h, without, |h|)
               && (r.world.kv == Fold(json, h, |h|) <==> Harmless(json, h, without, |h|))
  {
    hide Inv, ReadSnapshot, FoldWithout, Harmless, Sound, SnapshotFits, AfterCrash, New, Reopened, Survives,
         OnwardFrom;
    LiveFacts(json, w, h, gs);
    SnapshotKeeps(json, w, h, gs, sync, file, 0);
    FlushSound(json, w, h, gs, sync);
    FlushFirst(w.log, sync);
    var x := TakeSnapshot(json, w, sync, file).world;
    SnapshotTaken(json, w, sync, file);
    var gx := GapsTaken(json, h, gs, w, x);
    LoadedAfterSnapshot(json, w, h, gs, x, w.log.segs[0].start);
    var n := RestartRebuilds(json, x, h, gx, k, io);
    HarmlessIff(json, h, Passed(gs.mem, w.applied, w.log.segs[0].start), |h|);
  }

  lemma SnapshotTaken(json: Json, w: World, sync: FlushIO, file: SnapshotIO)
    requires w.log.segs != []
    ensures TakeSnapshot(json, w, sync, file).world.log == Flush(w.log, sync).log
    ensures TakeSnapshot(json, w, sync, file).reply.Done? ==> Flush(w.log, sync).ok
  {
    hide Flush, ReadSnapshot;
  }

  // The new file stands for the memory it was taken of, whatever set of gaps
  // describes it.
  lemma LoadedAfterSnapshot(json: Json, w: World, h: seq<seq<byte>>, gs: Gaps, x: World, first: nat)
    requires Settled(json, w, h, gs)
    requires ReadBack(json, x) == Some(Body(w.applied, w.kv))
    requires w.applied <= |h| && Sound(json, x, h, GapsTaken(json, h, gs, w, x))
    ensures Based(json, x) == w.applied
    ensures FoldWithout(json, h, Passed(GapsLoaded(json, x, GapsTaken(json, h, gs, w, x)).mem, w.applied, first), |h|)
         == FoldWithout(json, h, Passed(gs.mem, w.applied, first), |h|)
  {
    hide Inv, FoldWithout, ReadSnapshot;
    LiveFacts(json, w, h, gs);
    var lost := GapsTaken(json, h, gs, w, x).lost;
    var a := w.applied;
    FoldBefore(json, h, lost, a, first);
    FoldBefore(json, h, gs.mem, a, first);
    FoldOnward(json, h, Passed(lost, a, first), Passed(gs.mem, a, first), a, |h|);
  }

  // A write that succeeds, a successful snapshot, any crash: the restarted store
  // is exactly the live map, and it is the fold of the issued commands if and
  // only if what was missing before that write is harmless.
  lemma WriteSnapshotCrashIff(json: Json, w: World, h: seq<seq<byte>>, gs: Gaps, op: Op, key: Key, value: Value,
                              io: AppendIO, sync: FlushIO, file: SnapshotIO, k: nat, reopen: ReloadIO)
    requires Lawful(json) && Settled(json, w, h, gs) && op != OpOther && !reopen.readErr
    requires w.log.segs != [] && w.log.opts.maxRecord >= 1 && RoomFor(w.log, 1)
    requires RollbackWorks(io.rotate) && RollbackWorks(io.flush) && RollbackWorks(sync)
    requires Mutate(json, w, op, key, value, io).reply.Done?
    requires var r := Mutate(json, w, op, key, value, io).world;
             && r.log.segs != [] && SnapshotFits(json, r)
             && TakeSnapshot(json, r, sync, file).reply.Done?
             && Survives(TakeSnapshot(json, r, sync, file).world.log, k)
    ensures var r := Mutate(json, w, op, key, value, io).world;
            var x := TakeSnapshot(json, r, sync, file).world;
            var g := h + Issues(json, op, key, value);
            && x.log.segs[0].start >= 1 && AfterCrash(x.log, k).Opened?
            && Reopened(x.log.opts, AfterCrash(x.log, k)).segs != []
            && var after := New(json, Reopened(x.log.opts, AfterCrash(x.log, k)), x.snap, reopen).world;
               && after.kv == r.kv
               && (after.kv == Fold(json, g, |g|) <==> Harmless(json, g, Missing(w, h, gs), |g|))
  {
    hide Inv, ReadSnapshot, FoldWithout, Harmless, Sound, Settled, SnapshotFits, AfterCrash, New, Reopened,
         Survives, TakeSnapshot, Mutate, Issues;
    var r := Mutate(json, w, op, key, value, io).world;
    var g := h + Issues(json, op, key, value);
    var gr := gs.(mem := Missing(w, h, gs));
    MutateEqualsReplayIff(json, w, h, gs, op, key, value, io);
    SnapshotCrashIff(json, r, g, gr, sync, file, k, reopen);
    LiveFacts(json, r, g, gr);
    FirstAssigned(json, r, g, gr);
    assert Passed(gr.mem, |g|, r.log.segs[0].start) == gr.mem;
  }

  lemma FirstAssigned(json: Json, w: World, h: seq<seq<byte>>, gs: Gaps)
    requires Settled(json, w, h, gs) && w.log.segs != []
    ensures 1 <= w.log.segs[0].start <= w.log.nextSeq
  {
    hide LogBytes, Tiling;
    OptionsOf(json, w, h, gs);
    LayoutSegs(w.log, h) by { Unfold(w.log, h); }
  }

  // A Reload that cannot read the snapshot leaves memory empty. A snapshot taken
  // then replaces the good one, and whatever crash follows, everything that was
  // removed from the log is gone. That is the fold of the whole history if and
  // only if no key needs it.
  lemma UnreadableReloadIff(json: Json, w: World, h: seq<seq<byte>>, gs: Gaps, flush: FlushIO, sync: FlushIO,
                            file: SnapshotIO, k: nat, io: ReloadIO)
    requires Lawful(json) && Settled(json, w, h, gs) && w.log.segs != [] && RollbackWorks(sync) && !io.readErr
    requires var b := Reload(json, w, ReloadIO(true, flush)).world;
             && SnapshotFits(json, b) && b.log.segs != []
             && TakeSnapshot(json, b, sync, file).reply.Done?
             && Survives(TakeSnapshot(json, b, sync, file).world.log, k)
    ensures Reload(json, w, ReloadIO(true, flush)).reply == Failed(SnapshotUnreadable)
    ensures var x := TakeSnapshot(json, Reload(json, w, ReloadIO(true, flush)).world, sync, file).world;
            var removed := Between(0, w.log.segs[0].start);
            && x.log.segs[0].start >= 1 && AfterCrash(x.log, k).Opened?
            && Reopened(x.log.opts, AfterCrash(x.log, k)).segs != []
            && var r := New(json, Reopened(x.log.opts, AfterCrash(x.log, k)), x.snap, io);
               && r.reply == StoreState.Done([])
               && r.world.kv == FoldWithout(json, h, removed, |h|)
               && (r.world.kv == Fold(json, h, |h|) <==> Harmless(json, h, removed, |h|))
  {
    hide Inv, ReadSnapshot, FoldWithout, Harmless, Sound, SnapshotFits, AfterCrash, New, Reopened, Survives,
         TakeSnapshot;
    LoadIsLive(json, w, h, gs);
    var b := Reload(json, w, ReloadIO(true, flush)).world;
    assert b == Blank(w);
    SnapshotCrashIff(json, b, h, gs.(mem := {}), sync, file, k, io);
    assert Passed({}, 0, w.log.segs[0].start) == Between(0, w.log.segs[0].start);
  }

  // ----- Runs on which it fails -----

  // Nothing but the payload limits and the file system makes an append fail.
  lemma GoodAppendSucceeds(v: Log, p: seq<byte>, io: AppendIO, h: seq<seq<byte>>)
    requires Inv(v, h) && v.segs != [] && v.nextSeq < 0x1_0000_0000_0000_0000
    requires |p| <= v.opts.maxPayload && Storable(p, v.opts.maxRecord)
    requires !io.rotate.writeErr && !io.rotate.truncErr && !io.rotate.syncErr && io.rotate.wrote >= |v.pending|
    requires !io.createErr && RollbackWorks(io.flush)
    ensures Append(v, p, true, io).outcome == Assigned(v.nextSeq) || Append(v, p, true, io).outcome == FlushFailed
    ensures !io.flush.writeErr && !io.flush.syncErr
            && io.flush.wrote >= |v.pending| + |RecordBytes(v.nextSeq, p, v.opts.maxRecord)|
            ==> Append(v, p, true, io).outcome == Assigned(v.nextSeq)
    ensures io.flush.syncErr ==> Append(v, p, true, io).outcome == FlushFailed
  {
    hide RecordBytes, Layout, Watermarks, IndexSound, Bounded;
    RoomKeeps(v, p, io, h);
    RecordSize(v.nextSeq, p, v.opts.maxRecord);
    RoomPending(v, |RecordBytes(v.nextSeq, p, v.opts.maxRecord)|, io);
  }

  lemma RoomPending(v: Log, total: nat, io: AppendIO)
    requires v.segs != []
    requires !io.rotate.writeErr && !io.rotate.truncErr && !io.rotate.syncErr && io.rotate.wrote >= |v.pending|
    ensures Flush(v, io.rotate).ok
    ensures |Room(v, total, io).log.pending| <= |v.pending|
  {
  }

  // An append whose write succeeds and whose fsync fails, and one that succeeds.
  function BadSync(v: Log, p: seq<byte>): AppendIO
    requires v.opts.maxRecord >= 1
  {
    AppendIO(FlushIO(|v.pending|, false, false, false), false,
             FlushIO(|v.pending| + |RecordBytes(v.nextSeq, p, v.opts.maxRecord)|, false, false, true))
  }

  function GoodSync(v: Log, p: seq<byte>): AppendIO
    requires v.opts.maxRecord >= 1
  {
    var io := BadSync(v, p);
    io.(flush := io.flush.(syncErr := false))
  }

  // A store over a new directory.
  function Fresh(opts: Options): World {
    World(Reopened(opts, Recover([], opts.maxRecord)), map[], 0, None)
  }

  lemma NewLog(opts: Options)
    requires opts.Valid()
    ensures var v := Reopened(opts, Recover([], opts.maxRecord));
            && v.segs != [] && v.opts == opts && v.pending == [] && v.nextSeq == 1 && v.durable == 0 && Inv(v, [])
            && v.segs[0].start == 1
  {
    var v := Reopened(opts, Recover([], opts.maxRecord));
    assert v == Log(opts, [Seg(1, [], 0)], [], 0, 0, map[], 0, 0, 0, 1, 0);
    assert SegStarts(v.segs) == [1];
    assert LogBytes([], 1, 1, opts.maxRecord) == [];
  }

  const NONE := Gaps({}, {})

  lemma FreshSettled(json: Json, opts: Options)
    requires opts.Valid()
    ensures Settled(json, Fresh(opts), [], NONE)
    ensures Fresh(opts).log.segs != [] && Fresh(opts).log.opts == opts
  {
    hide Inv;
    NewLog(opts);
    var none: seq<seq<byte>> := [];
    assert none[..0] == none;
  }

  // What a caller needs to make Set append p in any state.
  ghost predicate Ready(json: Json, w: World, h: seq<seq<byte>>, gs: Gaps, key: Key, value: Value, p: seq<byte>) {
    && Lawful(json) && Settled(json, w, h, gs)
    && w.log.segs != [] && w.log.opts.Valid() && RoomFor(w.log, 1)
    && EncodeCommand(json, OpSet, key, value) == Some(p)
    && |p| <= w.log.opts.maxPayload && Storable(p, w.log.opts.maxRecord)
  }

  // A Set whose fsync fails: the record is assigned, memory is as before.
  lemma SetFails(json: Json, w: World, h: seq<seq<byte>>, gs: Gaps, key: Key, value: Value, p: seq<byte>)
    requires Ready(json, w, h, gs, key, value, p)
    ensures var r := Mutate(json, w, OpSet, key, value, BadSync(w.log, p));
            && r.reply == Failed(AppendFailed(FlushFailed))
            && Settled(json, r.world, h + [p], gs)
            && r.world == w.(log := r.world.log)
            && r.world.log.segs != [] && r.world.log.opts == w.log.opts
            && r.world.log.durable < r.world.log.nextSeq - 1
  {
    hide Inv, Append, Lawful, Flush, RecordBytes, EncodeCommand, Sound, FoldWithout;
    var io := BadSync(w.log, p);
    OptionsOf(json, w, h, gs);
    LiveFacts(json, w, h, gs);
    GoodAppendSucceeds(w.log, p, io, h);
    AppendKeeps(w.log, p, true, io, h);
    MutateKeeps(json, w, h, gs, OpSet, key, value, io, 0);
    var r := Mutate(json, w, OpSet, key, value, io).world;
    SettledAt(json, r, h + [p], gs);
    assert (h + [p])[..|h| + 1] == h + [p];
  }

  // r is what a Set that succeeds gives: all that memory did not have is now
  // passed over.
  ghost predicate Wrote(json: Json, w: World, h: seq<seq<byte>>, gs: Gaps, p: seq<byte>, r: Result) {
    && r.reply == StoreState.Done([|h| + 1])
    && Settled(json, r.world, h + [p], gs.(mem := Missing(w, h, gs)))
    && r.world.applied == r.world.log.durable == |h| + 1
    && r.world.snap == w.snap
    && r.world.log.segs != [] && r.world.log.opts == w.log.opts
  }

  lemma SetWorks(json: Json, w: World, h: seq<seq<byte>>, gs: Gaps, key: Key, value: Value, p: seq<byte>)
    requires Ready(json, w, h, gs, key, value, p)
    ensures Wrote(json, w, h, gs, p, Mutate(json, w, OpSet, key, value, GoodSync(w.log, p)))
  {
    hide Inv, Append, Lawful, Flush, RecordBytes, EncodeCommand, Sound, FoldWithout, Settled;
    var io := GoodSync(w.log, p);
    OptionsOf(json, w, h, gs);
    LiveFacts(json, w, h, gs);
    GoodAppendSucceeds(w.log, p, io, h);
    AppendKeeps(w.log, p, true, io, h);
    CommandRoundTrip(json, OpSet, key, value);
    MutateEqualsReplayIff(json, w, h, gs, OpSet, key, value, io);
    MutateKeeps(json, w, h, gs, OpSet, key, value, io, 0);
    assert Numbers(|h| + 1, 1) == [|h| + 1];
  }
}
