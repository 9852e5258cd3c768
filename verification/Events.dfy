// The events of a running system: store operations, background work on the log
// and snapshot damage. Every moment of every event is sound.
module Events {
  import opened Bytes
  import opened LogState
  import opened LogSteps
  import opened LogReads
  import opened LogOnward
  import opened LogBackground
  import opened Snapshots
  import opened StoreState
  import opened StoreProofs
  import opened StoreBatch
  import opened StoreRestart

  datatype Event =
    | Mutation(op: Op, key: Key, value: Value, append: AppendIO)
    | Batch(pairs: seq<Pair>, ios: seq<BatchIO>, sync: SyncIO)
    | Snapshotting(flush: FlushIO, file: SnapshotIO)
    | Behind(b: Background)
    | Reloading(io: ReloadIO)
    | Damaging(bad: Option<seq<byte>>)

  predicate Usable(w: World) {
    w.log.segs != [] && w.log.opts.maxRecord >= 1
  }

  predicate Supplied(e: Event) {
    e.Batch? ==> |e.ios| == |e.pairs|
  }

  function After(json: Json, w: World, e: Event): Result
    requires Usable(w) && Supplied(e)
  {
    match e
    case Mutation(op, key, value, io) => Mutate(json, w, op, key, value, io)
    case Batch(pairs, ios, sync) => SetBatch(json, w, pairs, ios, sync)
    case Snapshotting(sync, file) => Result(TakeSnapshot(json, w, sync, file).world, StoreState.Done([]))
    case Behind(b) => Result(w.(log := InBackground(w.log, b)), StoreState.Done([]))
    case Reloading(io) => Result(Reload(json, w, io).world, StoreState.Done([]))
    case Damaging(bad) => Result(w.(snap := bad), StoreState.Done([]))
  }

  function ReloadSteps(json: Json, w: World, io: ReloadIO): seq<World>
    requires w.log.segs != []
  {
    if io.readErr then [w, Blank(w)]
    else
      var loaded := LoadSnapshot(json, Blank(w));
      var f := Flush(w.log, io.flush);
      [w, Blank(w), loaded, loaded.(log := f.log)] +
      (if f.ok then ReplaySteps(json, loaded.(log := f.log), 1) else [])
  }

  // Every moment of an event, each of which a crash can interrupt.
  function Moments(json: Json, w: World, e: Event): seq<World>
    requires Usable(w) && Supplied(e)
  {
    match e
    case Mutation(op, key, value, io) => MutateSteps(json, w, op, key, value, io)
    case Batch(pairs, ios, sync) => BatchSteps(json, w, pairs, ios, sync)
    case Snapshotting(sync, file) => SnapshotSteps(json, w, sync, file)
    case Behind(b) => Lift(w, Underway(w.log, b))
    case Reloading(io) => ReloadSteps(json, w, io)
    case Damaging(bad) => [w, w.(snap := bad)]
  }

  // Payloads the event may append, in order.
  function Issued(json: Json, e: Event): seq<seq<byte>> {
    match e
    case Mutation(op, key, value, _) => Issues(json, op, key, value)
    case Batch(pairs, _, _) => BatchIssues(json, pairs)
    case _ => []
  }

  // The store at rest between events.
  ghost predicate Rest(json: Json, w: World, h: seq<seq<byte>>, gs: Gaps) {
    Settled(json, w, h, gs) && Usable(w)
  }

  // What the environment has to respect: short writes can be rolled back and
  // numbers do not overflow. Callers may do anything at any time, the log may be
  // cleaned and the snapshot damaged at any time.
  ghost predicate Allowed(json: Json, w: World, e: Event) {
    match e
    case Mutation(op, key, value, io) =>
      op != OpOther && RoomFor(w.log, 1) && RollbackWorks(io.rotate) && RollbackWorks(io.flush)
    case Batch(pairs, ios, sync) =>
      RoomFor(w.log, |pairs|) && AllBatchWorks(ios) && SyncWorks(sync)
    case Snapshotting(sync, _) => RollbackWorks(sync) && SnapshotFits(json, w)
    case Behind(b) => RollbackWorks(b.io)
    case Reloading(io) => RollbackWorks(io.flush)
    case Damaging(bad) => bad.None? || ReadSnapshot(json, bad.value).Invalid?
  }

  ghost predicate Enabled(json: Json, w: World, e: Event) {
    Usable(w) && Supplied(e) && Allowed(json, w, e)
  }

  // No cleaning of the event removes sequences from `kept` on.
  ghost predicate Within(e: Event, kept: nat) {
    match e
    case Batch(_, ios, sync) => BatchBelow(ios, kept) && AllBelow(sync.before, kept)
    case Behind(b) => Below(b, kept)
    case _ => true
  }

  lemma SomeKept(e: Event) returns (kept: nat)
    ensures Within(e, kept)
  {
    match e
    case Batch(_, ios, sync) => kept := SomeBatchCeiling(ios, sync);
    case Behind(b) => kept := if b.Cleaning? then b.before else 0;
    case _ => kept := 0;
  }

  // ----- What memory and snapshot have passed over -----

  // The gaps of x, which came from w by a Reload. Memory starts from nothing and
  // then has what the snapshot has.
  function GapsReloaded(json: Json, gs: Gaps, w: World, x: World): Gaps {
    if x == w then gs
    else if x.applied == 0 then gs.(mem := {})
    else GapsReplayed(json, w, gs, x)
  }

  // The gaps at a moment x of an event that began in w.
  ghost function GapsAt(json: Json, h: seq<seq<byte>>, gs: Gaps, w: World, e: Event, x: World): Gaps
    requires w.applied <= |h|
  {
    match e
    case Mutation(_, _, _, _) => GapsFrom(gs, w, w.log.nextSeq, x)
    case Batch(_, _, _) => GapsFrom(gs, w, w.log.nextSeq, x)
    case Snapshotting(_, _) => GapsTaken(json, h, gs, w, x)
    case Reloading(_) => GapsReloaded(json, gs, w, x)
    case _ => gs
  }

  // ----- One event -----

  lemma RestSeqs(json: Json, w: World, h: seq<seq<byte>>, gs: Gaps)
    requires Rest(json, w, h, gs)
    ensures w.applied <= w.log.durable < w.log.nextSeq == |h| + 1
  {
    hide Inv, FoldWithout, ReadSnapshot, Covers;
    SoundInv(json, w, h, gs);
  }

  lemma NothingIssued(h: seq<seq<byte>>)
    ensures h + [] == h
  {
  }

  // Every moment of every enabled event is a sound store in which nothing that
  // was confirmed has been taken back, and no record from `kept` on was removed.
  lemma EventMoments(json: Json, w: World, h: seq<seq<byte>>, gs: Gaps, e: Event, kept: nat, x: World)
    requires Lawful(json) && Rest(json, w, h, gs) && Enabled(json, w, e) && Within(e, kept)
    requires x in Moments(json, w, e)
    ensures w.applied <= |h|
    ensures Sound(json, x, h + Issued(json, e), GapsAt(json, h, gs, w, e, x))
    ensures w.log.durable <= x.log.durable && OnwardFrom(w.log, x.log, kept)
    ensures !e.Reloading? ==> w.applied <= x.applied
    ensures SnapshotAt(json, w, e, x)
  {
    hide Lawful, Inv, Sound, OnwardFrom, ReadSnapshot, FoldWithout, MutateSteps, BatchSteps, TakeSnapshot, Underway,
         Flush, ReloadSteps, Issues, BatchIssues, GapsFrom, GapsTaken, GapsReloaded;
    NothingIssued(h);
    SelfMoment(json, w, h, gs, kept);
    RestSeqs(json, w, h, gs);
    match e
    case Mutation(op, key, value, io) => MutateStepsSound(json, w, h, gs, op, key, value, io, kept, x);
    case Batch(pairs, ios, sync) => BatchKeeps(json, w, h, gs, pairs, ios, sync, kept);
    case Snapshotting(sync, file) => SnapshotKeeps(json, w, h, gs, sync, file, kept);
    case Behind(b) => BackgroundSound(json, w, h, gs, b, kept, x.log);
    case Reloading(io) => ReloadMoments(json, w, h, gs, io, kept, x);
    case Damaging(bad) => BadSnapshotSound(json, w, h, gs, bad);
  }

  // The snapshot file at a moment of an event.
  predicate SnapshotAt(json: Json, w: World, e: Event, x: World) {
    match e
    case Snapshotting(_, _) => x.snap == w.snap || ReadBack(json, x) == Some(Body(w.applied, w.kv))
    case Damaging(_) => x.snap == w.snap || ReadBack(json, x) == None
    case _ => x.snap == w.snap
  }

  lemma ReloadMoments(json: Json, w: World, h: seq<seq<byte>>, gs: Gaps, io: ReloadIO, kept: nat, x: World)
    requires Sound(json, w, h, gs) && w.log.segs != [] && RollbackWorks(io.flush)
    requires x in ReloadSteps(json, w, io)
    ensures Sound(json, x, h, GapsReloaded(json, gs, w, x)) && w.log.durable <= x.log.durable
    ensures OnwardFrom(w.log, x.log, kept) && x.snap == w.snap
  {
    hide Inv, Sound, OnwardFrom, ReadSnapshot, FoldWithout, Flush, ReplaySteps, LoadSnapshot, Skipped, Based;
    LoadIsLive(json, w, h, gs);
    SelfMoment(json, w, h, gs, kept);
    var gl := GapsLoaded(json, w, gs);
    var l := LoadSnapshot(json, Blank(w));
    FlushSound(json, l, h, gl, io.flush);
    var f := l.(log := Flush(w.log, io.flush).log);
    assert Moment(json, l, h, gl, kept, f);
    SkippedNothing(w.log.index, gl.mem, l.applied);
    assert GapsReplayed(json, w, gs, l) == GapsReplayed(json, w, gs, f) == gl;
    if !io.readErr && Flush(w.log, io.flush).ok && x in ReplaySteps(json, f, 1) {
      ReplayKeeps(json, f, h, gl, 1);
      assert GapsReplayed(json, w, gs, x) == gl.(mem := Skipped(f.log.index, gl.mem, f.applied, x.applied));
    }
    if x.applied == 0 && Sound(json, x, h, GapsReplayed(json, w, gs, x)) {
      NoGapsAtZero(json, x, h, GapsReplayed(json, w, gs, x));
    }
  }

  lemma NoGapsAtZero(json: Json, x: World, h: seq<seq<byte>>, gs: Gaps)
    requires Sound(json, x, h, gs) && x.applied == 0
    ensures gs == gs.(mem := {})
  {
    hide Inv, ReadSnapshot, FoldWithout;
    assert gs.mem == {};
  }

  // An event leaves the store at rest, for the history it really assigned.
  lemma EventRests(json: Json, w: World, h: seq<seq<byte>>, gs: Gaps, e: Event, kept: nat)
    requires Lawful(json) && Rest(json, w, h, gs) && Enabled(json, w, e) && Within(e, kept)
    ensures w.applied <= |h|
    ensures var r := After(json, w, e);
            var g := h + Issued(json, e);
            && 1 <= r.world.log.nextSeq <= |g| + 1
            && Rest(json, r.world, g[..r.world.log.nextSeq - 1], GapsAt(json, h, gs, w, e, r.world))
            && w.log.durable <= r.world.log.durable && OnwardFrom(w.log, r.world.log, kept)
            && SnapshotAt(json, w, e, r.world)
            && (!e.Reloading? ==> w.applied <= r.world.applied)
            && (r.reply.Failed? && (e.Mutation? || e.Batch?) ==> r.world.applied == w.applied)
            && (r.reply.Done? && e.Mutation? ==> Confirms(r, |h|, 1))
            && (r.reply.Done? && e.Batch? ==> Confirms(r, |h|, |e.pairs|))
  {
    hide Lawful, Inv, Sound, OnwardFrom, ReadSnapshot, FoldWithout, Mutate, SetBatch, TakeSnapshot, Reload,
         InBackground, Underway, Issues, BatchIssues, GapsFrom, GapsTaken, GapsReloaded;
    NothingIssued(h);
    SelfMoment(json, w, h, gs, kept);
    RestSeqs(json, w, h, gs);
    var r := After(json, w, e);
    var g := h + Issued(json, e);
    match e {
      case Mutation(op, key, value, io) =>
        MutateKeeps(json, w, h, gs, op, key, value, io, kept);
        MutateGrows(json, w, op, key, value, io);
      case Batch(pairs, ios, sync) =>
        BatchKeeps(json, w, h, gs, pairs, ios, sync, kept);
        BatchGrows(json, w, pairs, ios, sync);
      case Snapshotting(sync, file) =>
        SnapshotKeeps(json, w, h, gs, sync, file, kept);
        TakeSnapshotLog(json, w, sync, file);
      case Behind(b) =>
        LastUnderway(w.log, b);
        BackgroundSound(json, w, h, gs, b, kept, InBackground(w.log, b));
      case Reloading(io) => ReloadRests(json, w, h, gs, io, kept);
      case Damaging(bad) => BadSnapshotSound(json, w, h, gs, bad);
    }
    SettledAt(json, r.world, g, GapsAt(json, h, gs, w, e, r.world));
  }

  lemma ReloadRests(json: Json, w: World, h: seq<seq<byte>>, gs: Gaps, io: ReloadIO, kept: nat)
    requires Rest(json, w, h, gs) && RollbackWorks(io.flush)
    ensures var x := Reload(json, w, io).world;
            && Sound(json, x, h, GapsReloaded(json, gs, w, x))
            && x.log.nextSeq == w.log.nextSeq && w.log.durable <= x.log.durable
            && OnwardFrom(w.log, x.log, kept) && x.snap == w.snap && Usable(x)
  {
    hide Inv, Sound, OnwardFrom, ReadSnapshot, FoldWithout, Flush, ReplayFrom, ReplaySteps, GapsReloaded;
    var x := Reload(json, w, io).world;
    if io.readErr || !Flush(w.log, io.flush).ok {
      ReloadMoments(json, w, h, gs, io, kept, x);
    } else {
      LastReplayed(json, LoadSnapshot(json, Blank(w)).(log := Flush(w.log, io.flush).log), 1);
      ReloadMoments(json, w, h, gs, io, kept, x);
    }
    ReloadLog(json, w, io);
  }

  lemma {:induction false} LastReplayed(json: Json, w: World, s: nat)
    ensures ReplayFrom(json, w, s).world in ReplaySteps(json, w, s)
    decreases w.log.durable + 1 - s
  {
    hide ReadIndexed, Apply;
    if s <= w.log.durable {
      if s !in w.log.index {
        LastReplayed(json, w, s + 1);
      } else {
        match ReadIndexed(w.log, s)
        case ReadFailed(_) =>
        case Payload(p) => LastReplayed(json, Apply(json, w, s, p).world, s + 1);
      }
    }
  }

  lemma TakeSnapshotLog(json: Json, w: World, sync: FlushIO, file: SnapshotIO)
    requires w.log.segs != []
    ensures TakeSnapshot(json, w, sync, file).world.log == Flush(w.log, sync).log
  {
    hide Flush;
  }

  lemma ReloadLog(json: Json, w: World, io: ReloadIO)
    requires w.log.segs != []
    ensures Reload(json, w, io).world.log == (if io.readErr then w.log else Flush(w.log, io.flush).log)
  {
    hide Flush, ReadSnapshot;
    ReplayLog(json, LoadSnapshot(json, Blank(w)).(log := Flush(w.log, io.flush).log), 1);
  }

  lemma {:induction false} ApplyAllGrows(json: Json, w: World, s: nat, ps: seq<seq<byte>>)
    ensures var x := ApplyAll(json, w, s, ps).world; x.log == w.log && x.snap == w.snap && w.applied <= x.applied
    decreases ps
  {
    if ps != [] {
      ApplyAllGrows(json, Apply(json, w, s, ps[0]).world, s + 1, ps[1..]);
    }
  }

  lemma BatchGrows(json: Json, w: World, pairs: seq<Pair>, ios: seq<BatchIO>, sync: SyncIO)
    requires Usable(w) && |ios| == |pairs|
    ensures var x := SetBatch(json, w, pairs, ios, sync).world;
            Usable(x) && x.snap == w.snap && w.applied <= x.applied
  {
    hide AppendAll, AllBackground, Flush, EncodeAll, ApplyAll;
    match EncodeAll(json, pairs)
    case None =>
    case Some(ps) =>
      var f := Flush(AllBackground(AppendAll(w.log, ps, ios).log, sync.before), sync.flush);
      ApplyAllGrows(json, w.(log := f.log), w.log.nextSeq, ps);
  }

  lemma OptionsKept(json: Json, w: World, h: seq<seq<byte>>, gs: Gaps)
    requires Sound(json, w, h, gs)
    ensures w.log.opts.maxRecord >= 1
  {
    hide FoldWithout, ReadSnapshot, Layout, Watermarks, IndexSound, Bounded;
  }

  lemma EmptyBatch(json: Json, w: World, ios: seq<BatchIO>, sync: SyncIO)
    requires Usable(w) && ios == []
    ensures SetBatch(json, w, [], ios, sync) == Result(w, StoreState.Done([]))
  {
    EncodeNone(json);
  }

  // Only Set, Delete and SetBatch report sequences.
  lemma RepliesOnly(json: Json, w: World, e: Event)
    requires Usable(w) && Supplied(e)
    ensures After(json, w, e).reply.Done? && After(json, w, e).reply.seqs != [] ==> e.Mutation? || e.Batch?
  {
    hide Mutate, SetBatch, TakeSnapshot, Reload, InBackground;
  }
}
