// Four runs, down to the bytes, on which a failed operation costs a command.
module LossyRuns {
  import opened Bytes
  import opened Framing
  import opened History
  import opened Recovery
  import opened LogState
  import opened LogClean
  import opened LogBackground
  import opened LogCrash
  import opened Snapshots
  import opened PlainCodec
  import opened StoreState
  import opened Folds
  import opened StoreProofs
  import opened StoreRestart
  import opened LiveReplay

  const OPTIONS := Options(false, 64, 4096, 1024, 4096)

  const QUIET := FlushIO(0, false, false, false)

  // The payload of Set(key, value) for one-byte strings.
  function SetOf(key: byte, value: byte): (p: seq<byte>)
    ensures |p| == 7
  {
    Render(Raw(OpSet, [key], [value]))
  }

  lemma SetPayload(key: byte, value: byte)
    ensures EncodeCommand(Plain(), OpSet, [key], [value]) == Some(SetOf(key, value))
    ensures DecodeCommand(Plain(), SetOf(key, value)) == Some(Set([key], [value]))
  {
    ParseRender(Raw(OpSet, [key], [value]));
  }

  // Set("a") fails at its fsync, Set("b") succeeds.
  function A(): seq<byte> { SetOf(97, 1) }

  function B(): seq<byte> { SetOf(98, 2) }

  ghost function FirstFailed(): Result {
    var w := Fresh(OPTIONS);
    Mutate(Plain(), w, OpSet, [97], [1], BadSync(w.log, A()))
  }

  lemma FirstSettled()
    ensures FirstFailed().reply == Failed(AppendFailed(FlushFailed))
    ensures var w := FirstFailed().world;
            && Settled(Plain(), w, [A()], NONE)
            && w.kv == map[] && w.applied == 0 && w.snap == None
            && w.log.segs != [] && w.log.opts == OPTIONS
  {
    hide Settled, Mutate, Lawful, SetOf, Plain, EncodeCommand, DecodeCommand, BadSync;
    PlainIsLawful();
    FreshSettled(Plain(), OPTIONS);
    FreshMemory(OPTIONS);
    SetPayload(97, 1);
    SetFails(Plain(), Fresh(OPTIONS), [], NONE, [97], [1], A());
    assert [] + [A()] == [A()];
  }

  lemma FreshMemory(opts: Options)
    requires opts.Valid()
    ensures Fresh(opts).kv == map[] && Fresh(opts).applied == 0 && Fresh(opts).snap == None
    ensures RoomFor(Fresh(opts).log, 3)
  {
    NewLog(opts);
  }

  ghost function Again(w: World, key: Key, value: Value, io: AppendIO): Result {
    if w.log.segs != [] && w.log.opts.maxRecord >= 1 then Mutate(Plain(), w, OpSet, key, value, io)
    else Result(w, Failed(SyncFailed))
  }

  function BadIO(v: Log, p: seq<byte>): AppendIO {
    if v.opts.maxRecord >= 1 then BadSync(v, p) else AppendIO(QUIET, false, QUIET)
  }

  function GoodIO(v: Log, p: seq<byte>): AppendIO {
    if v.opts.maxRecord >= 1 then GoodSync(v, p) else AppendIO(QUIET, false, QUIET)
  }

  ghost function ThenWorks(): Result {
    var w := FirstFailed().world;
    Again(w, [98], [2], GoodIO(w.log, B()))
  }

  lemma SecondSettled()
    ensures ThenWorks().reply == Done([2])
    ensures var w := ThenWorks().world;
            && Settled(Plain(), w, [A(), B()], Gaps({1}, {}))
            && w.applied == w.log.durable == 2 && w.snap == None
            && w.log.segs != [] && w.log.opts == OPTIONS
  {
    hide Settled, Mutate, Lawful, SetOf, Plain, EncodeCommand, DecodeCommand, BadSync, GoodSync, FirstFailed;
    PlainIsLawful();
    FirstSettled();
    SetPayload(98, 2);
    var w := FirstFailed().world;
    LiveFacts(Plain(), w, [A()], NONE);
    SetWorks(Plain(), w, [A()], NONE, [98], [2], B());
    assert [A()] + [B()] == [A(), B()];
    assert Missing(w, [A()], NONE) == {1};
  }

  // Sequence 2 is applied, "a" is on the log as sequence 1 and durable, and
  // memory does not have it. As long as no snapshot is taken a restart, or a
  // Reload, brings it back.
  lemma FailedWriteIsSkipped()
    ensures FirstFailed().reply == Failed(AppendFailed(FlushFailed))
    ensures ThenWorks().reply == Done([2])
    ensures var w := ThenWorks().world;
            && Settled(Plain(), w, [A(), B()], Gaps({1}, {}))
            && w.applied == w.log.durable == 2
            && w.kv == map[[98] := [2]]
            && Fold(Plain(), [A(), B()], 2) == map[[97] := [1], [98] := [2]]
  {
    hide Settled, SetOf, Plain, FoldWithout, FirstFailed, ThenWorks;
    FirstSettled();
    SecondSettled();
    LiveFacts(Plain(), ThenWorks().world, [A(), B()], Gaps({1}, {}));
    TwoFolds();
  }

  lemma TwoFolds()
    ensures FoldWithout(Plain(), [A(), B()], {1}, 2) == map[[98] := [2]]
    ensures Fold(Plain(), [A(), B()], 0) == map[]
    ensures Fold(Plain(), [A(), B()], 1) == map[[97] := [1]]
    ensures Fold(Plain(), [A(), B()], 2) == map[[97] := [1], [98] := [2]]
  {
    hide Plain, SetOf, DecodeCommand;
    SetPayload(97, 1);
    SetPayload(98, 2);
    var h := [A(), B()];
    assert FoldWithout(Plain(), h, {1}, 0) == map[];
    assert FoldWithout(Plain(), h, {1}, 1) == map[];
    assert FoldWithout(Plain(), h, {}, 0) == map[];
    assert FoldWithout(Plain(), h, {}, 1) == map[[97] := [1]];
  }

  // ----- A snapshot makes it permanent -----

  const WRITTEN := SnapshotIO(false, AtomicIO(false, 1000, false, false, false, false, false), false)

  lemma SmallBody()
    ensures |RenderBody(Body(2, map[[98] := [2]]))| == 13
  {
    SmallMap([98], [2]);
  }

  lemma SmallMap(key: Key, value: Value)
    ensures |RenderMap(map[key := value])| == 2 * |key| + 2 * |value| + 4
  {
    var m := map[key := value];
    var k: Key :| k in m && RenderMap(m) == [1] + Quote(k) + Quote(m[k]) + RenderMap(m - {k});
    assert m - {k} == map[];
  }

  // The same run, then a Snapshot that succeeds, then a crash. The restarted
  // store has "b" only, which is the fold of no prefix of the issued commands,
  // though "a" is still on the log.
  lemma SnapshotMakesItPermanent(k: nat, io: ReloadIO)
    requires ThenWorks().world.log.segs != [] && !io.readErr
    requires Survives(TakeSnapshot(Plain(), ThenWorks().world, QUIET, WRITTEN).world.log, k)
    ensures TakeSnapshot(Plain(), ThenWorks().world, QUIET, WRITTEN).reply == Done([2])
    ensures var x := TakeSnapshot(Plain(), ThenWorks().world, QUIET, WRITTEN).world;
            && x.log.segs[0].start >= 1 && AfterCrash(x.log, k).Opened?
            && Reopened(x.log.opts, AfterCrash(x.log, k)).segs != []
            && var r := New(Plain(), Reopened(x.log.opts, AfterCrash(x.log, k)), x.snap, io);
               && r.reply == Done([])
               && r.world.kv == map[[98] := [2]]
               && forall n :: 0 <= n <= 2 ==> r.world.kv != Fold(Plain(), [A(), B()], n)
  {
    hide Settled, SetOf, Plain, FoldWithout, FirstFailed, ThenWorks, Lawful, AfterCrash, Reopened, New, Survives,
         RenderBody, Flush, Harmless, ReadSnapshot, Sound;
    PlainIsLawful();
    FailedWriteIsSkipped();
    SecondSettled();
    var w, gs := ThenWorks().world, Gaps({1}, {});
    SmallSnapshot(w);
    AllFlushed(w, gs);
    SnapshotKeeps(Plain(), w, [A(), B()], gs, QUIET, WRITTEN, 0);
    FirstAssigned(Plain(), w, [A(), B()], gs);
    LiveFacts(Plain(), w, [A(), B()], gs);
    assert Passed({1}, 2, w.log.segs[0].start) == {1};
    SnapshotCrashIff(Plain(), w, [A(), B()], gs, QUIET, WRITTEN, k, io);
    TwoFolds();
    NoPrefix();
  }

  lemma NoPrefix()
    ensures forall n :: 0 <= n <= 2 ==> map[[98] := [2]] != Fold(Plain(), [A(), B()], n)
  {
    hide FoldWithout, Fold, Plain, SetOf;
    TwoFolds();
    var b: map<Key, Value> := map[[98] := [2]];
    assert [97] !in b && [98] in b;
    forall n | 0 <= n <= 2
      ensures b != Fold(Plain(), [A(), B()], n)
    {
      if n == 1 {
        assert [98] !in Fold(Plain(), [A(), B()], 1);
      } else if n == 2 {
        assert [97] in Fold(Plain(), [A(), B()], 2);
      }
    }
  }

  lemma SmallSnapshot(w: World)
    requires w.applied == 2 && w.kv == map[[98] := [2]]
    ensures SnapshotFits(Plain(), w) && WritingOk(SnapshotBytes(Plain(), w), WRITTEN)
  {
    hide RenderBody, SnapshotFrame;
    SmallBody();
    assert Plain().renderBody(Body(w.applied, w.kv)) == RenderBody(Body(2, map[[98] := [2]]));
  }

  // Nothing is left to flush once everything is durable.
  lemma AllFlushed(w: World, gs: Gaps)
    requires Settled(Plain(), w, [A(), B()], gs) && w.log.segs != [] && w.log.durable == 2
    ensures Flush(w.log, QUIET).ok && Sound(Plain(), w, [A(), B()], gs)
  {
    hide ReadSnapshot, FoldWithout, Plain, SetOf, Inv, Layout;
    var h := [A(), B()];
    OptionsOf(Plain(), w, h, gs);
    Unfold(w.log, h);
    LayoutSegs(w.log, h);
    LayoutPending(w.log, h);
    assert OnFile(w.log) == w.log.nextSeq;
    LogEmpty(h, w.log.nextSeq, w.log.opts.maxRecord);
  }

  // ----- A failed Reload -----

  function C(): seq<byte> { SetOf(99, 3) }

  const NO_SYNC := ReloadIO(false, FlushIO(0, false, false, true))

  // A Reload whose flush fails leaves memory as the snapshot has it; without one
  // it is empty.
  lemma ReloadFails(json: Json, w: World, h: seq<seq<byte>>, gs: Gaps)
    requires Settled(json, w, h, gs) && w.snap == None && w.log.segs != []
    requires w.log.durable < w.log.nextSeq - 1
    ensures var r := Reload(json, w, NO_SYNC);
            && r.reply == Failed(SyncFailed)
            && Settled(json, r.world, h, gs.(mem := {}))
            && r.world.kv == map[] && r.world.applied == 0 && r.world.snap == None
            && r.world.log.segs != [] && r.world.log.opts == w.log.opts
  {
    hide Inv, FoldWithout, Flush, Written, Synced;
    SoundInv(json, w, h, gs);
    var g := h[..w.log.nextSeq - 1];
    FlushConfirmsAll(w.log, g, NO_SYNC.flush);
    assert !Flush(w.log, NO_SYNC.flush).ok by { BadSyncFails(w.log); }
    LoadIsLive(json, w, h, gs);
    FlushSound(json, Blank(w), h, gs.(mem := {}), NO_SYNC.flush);
    assert Moment(json, Blank(w), h, gs.(mem := {}), 0, Blank(w).(log := Flush(w.log, NO_SYNC.flush).log));
  }

  lemma BadSyncFails(v: Log)
    requires v.segs != []
    ensures Flush(v, NO_SYNC.flush).ok ==> Flush(v, NO_SYNC.flush).log == v
  {
  }

  ghost function Steps(): (Result, Result, Result, Result) {
    var w := Fresh(OPTIONS);
    var r1 := Mutate(Plain(), w, OpSet, [97], [1], GoodSync(w.log, A()));
    var r2 := Again(r1.world, [98], [2], BadIO(r1.world.log, B()));
    var r3 := if r2.world.log.segs != [] then Reload(Plain(), r2.world, NO_SYNC) else r2;
    var r4 := Again(r3.world, [99], [3], GoodIO(r3.world.log, C()));
    (r1, r2, r3, r4)
  }

  lemma StepOne()
    ensures var (r1, r2, r3, r4) := Steps();
            && r1.reply == Done([1])
            && Settled(Plain(), r1.world, [A()], NONE) && r1.world.applied == 1 && r1.world.snap == None
            && r1.world.log.segs != [] && r1.world.log.opts == OPTIONS
  {
    hide Settled, Mutate, Lawful, SetOf, Plain, EncodeCommand, DecodeCommand, BadSync, GoodSync, Again, Reload;
    PlainIsLawful();
    FreshSettled(Plain(), OPTIONS);
    FreshMemory(OPTIONS);
    SetPayload(97, 1);
    var w := Fresh(OPTIONS);
    SetWorks(Plain(), w, [], NONE, [97], [1], A());
    assert [] + [A()] == [A()];
    assert Missing(w, [], NONE) == {};
  }

  lemma StepTwo()
    ensures var (r1, r2, r3, r4) := Steps();
            && r2.reply == Failed(AppendFailed(FlushFailed))
            && Settled(Plain(), r2.world, [A(), B()], NONE) && r2.world.snap == None
            && r2.world.log.segs != [] && r2.world.log.opts == OPTIONS
            && r2.world.log.durable < r2.world.log.nextSeq - 1
  {
    hide Settled, Mutate, Lawful, SetOf, Plain, EncodeCommand, DecodeCommand, BadSync, GoodSync, Reload;
    PlainIsLawful();
    StepOne();
    SetPayload(98, 2);
    var w := Steps().0.world;
    LiveFacts(Plain(), w, [A()], NONE);
    SetFails(Plain(), w, [A()], NONE, [98], [2], B());
    assert [A()] + [B()] == [A(), B()];
  }

  // Set("a") is acknowledged. Set("b") fails at its fsync, Reload fails at the
  // same disk error and leaves memory empty, Set("c") succeeds: sequence 3 is
  // applied, and memory has lost the acknowledged "a". Only another Reload or a
  // restart brings it back, and not after a Snapshot (LiveReplay.SnapshotCrashIff).
  lemma FailedReloadDropsAcknowledged()
    ensures var (r1, r2, r3, r4) := Steps();
            && r1.reply == Done([1])
            && r2.reply == Failed(AppendFailed(FlushFailed))
            && r3.reply == Failed(SyncFailed)
            && r4.reply == Done([3])
            && Settled(Plain(), r4.world, [A(), B(), C()], Gaps({1, 2}, {}))
            && r4.world.applied == r4.world.log.durable == 3
            && r4.world.kv == map[[99] := [3]]
  {
    hide Settled, Mutate, Lawful, SetOf, Plain, EncodeCommand, DecodeCommand, BadSync, GoodSync, Reload, FoldWithout;
    PlainIsLawful();
    StepOne();
    StepTwo();
    SetPayload(99, 3);
    var w2 := Steps().1.world;
    ReloadFails(Plain(), w2, [A(), B()], NONE);
    var w := Steps().2.world;
    LiveFacts(Plain(), w, [A(), B()], NONE);
    SetWorks(Plain(), w, [A(), B()], NONE, [99], [3], C());
    assert [A(), B()] + [C()] == [A(), B(), C()];
    assert Missing(w, [A(), B()], NONE) == {1, 2};
    LiveFacts(Plain(), Steps().3.world, [A(), B(), C()], Gaps({1, 2}, {}));
    OnlyC();
  }

  lemma OnlyC()
    ensures FoldWithout(Plain(), [A(), B(), C()], {1, 2}, 3) == map[[99] := [3]]
  {
    hide Plain, SetOf, DecodeCommand;
    SetPayload(99, 3);
    var h := [A(), B(), C()];
    assert FoldWithout(Plain(), h, {1, 2}, 0) == map[];
    assert FoldWithout(Plain(), h, {1, 2}, 1) == map[];
    assert FoldWithout(Plain(), h, {1, 2}, 2) == map[];
  }

  // ----- A snapshot file that cannot be read -----

  // One record fills a segment.
  const TIGHT := Options(false, 64, HEADER + 7, 7, 4096)

  const UNREADABLE := ReloadIO(true, QUIET)

  ghost function TwoSets(): Result {
    var w := Fresh(TIGHT);
    var r := Mutate(Plain(), w, OpSet, [97], [1], GoodSync(w.log, A()));
    Again(r.world, [98], [2], GoodIO(r.world.log, B()))
  }

  lemma TwoSetsSettled()
    ensures TwoSets().reply == Done([2])
    ensures var w := TwoSets().world;
            && Settled(Plain(), w, [A(), B()], NONE)
            && w.applied == w.log.durable == 2 && w.kv == map[[97] := [1], [98] := [2]]
            && w.log.segs != [] && w.log.opts == TIGHT
  {
    hide Settled, Mutate, Lawful, SetOf, Plain, EncodeCommand, DecodeCommand, BadSync, GoodSync, FoldWithout;
    PlainIsLawful();
    FreshSettled(Plain(), TIGHT);
    FreshMemory(TIGHT);
    SetPayload(97, 1);
    SetPayload(98, 2);
    var w := Fresh(TIGHT);
    SetWorks(Plain(), w, [], NONE, [97], [1], A());
    assert [] + [A()] == [A()];
    assert Missing(w, [], NONE) == {};
    var x := Mutate(Plain(), w, OpSet, [97], [1], GoodSync(w.log, A())).world;
    LiveFacts(Plain(), x, [A()], NONE);
    SetWorks(Plain(), x, [A()], NONE, [98], [2], B());
    assert [A()] + [B()] == [A(), B()];
    assert Missing(x, [A()], NONE) == {};
    LiveFacts(Plain(), TwoSets().world, [A(), B()], NONE);
    TwoFolds();
  }

  // The second record is not in the first segment.
  lemma SecondSegment(v: Log)
    requires Inv(v, [A(), B()]) && v.segs != [] && v.opts == TIGHT
    ensures 2 <= Cur(v).start
  {
    hide LogBytes, RecordBytes, Tiling, IndexSound, Watermarks, SetOf;
    var h, n := [A(), B()], |v.segs| - 1;
    LayoutSegs(v, h);
    assert InLimit(v, n);
    if Cur(v).start == 1 {
      LogSplit(h, 1, OnFile(v), 3, 7);
      TwoRecords(h);
    }
  }

  lemma TwoRecords(h: seq<seq<byte>>)
    requires |h| == 2
    ensures |LogBytes(h, 1, 3, 7)| >= 2 * HEADER
  {
    hide RecordBytes;
    RecordSize(1, h[0], 7);
    RecordSize(2, h[1], 7);
    assert LogBytes(h, 1, 3, 7) == RecordBytes(1, h[0], 7) + LogBytes(h, 2, 3, 7);
    assert LogBytes(h, 2, 3, 7) == RecordBytes(2, h[1], 7) + LogBytes(h, 3, 3, 7);
  }

  // Both are confirmed, a snapshot has both, and the log is cleaned below it.
  ghost function Cleaned(): World {
    var x := TwoSets().world;
    if x.log.segs == [] then x
    else
      var y := TakeSnapshot(Plain(), x, QUIET, WRITTEN).world;
      y.(log := InBackground(y.log, Cleaning(QUIET, 3)))
  }

  lemma TwoKeys(w: World)
    requires w.applied == 2 && w.kv == map[[97] := [1], [98] := [2]]
    ensures SnapshotFits(Plain(), w) && WritingOk(SnapshotBytes(Plain(), w), WRITTEN)
  {
    hide RenderMap, SnapshotFrame;
    SmallValues(w.kv);
    assert Plain().renderBody(Body(w.applied, w.kv)) == RenderBody(Body(2, w.kv));
    assert |w.kv| == 2;
  }

  lemma {:induction false} SmallValues(m: map<Key, Value>)
    requires forall k :: k in m ==> |k| <= 1 && |m[k]| <= 1
    ensures |RenderMap(m)| <= 1 + 7 * |m|
    decreases |m|
  {
    hide Quote;
    if m != map[] {
      var k: Key :| k in m && RenderMap(m) == [1] + Quote(k) + Quote(m[k]) + RenderMap(m - {k});
      SmallValues(m - {k});
      assert |k| <= 1 && |m[k]| <= 1;
      assert m.Keys == (m - {k}).Keys + {k};
      assert |m| == |m.Keys| && |m - {k}| == |(m - {k}).Keys|;
      assert |RenderMap(m)| == 1 + |Quote(k)| + |Quote(m[k])| + |RenderMap(m - {k})|;
    }
  }

  lemma StartsAssigned(v: Log, h: seq<seq<byte>>)
    requires Layout(v, h) && |v.segs| > 1
    ensures v.segs[1].start <= |h| + 1
  {
    hide LogBytes, Tiling;
    LayoutSegs(v, h);
    TilingOrder(SegStarts(v.segs), OnFile(v), 1, |v.segs| - 1);
  }

  // Only the second record is left.
  lemma SecondRetained(v: Log)
    requires Inv(v, [A(), B()]) && v.segs != [] && v.opts == TIGHT && Flush(v, QUIET).ok
    ensures var w := Clean(v, 3, QUIET).log;
            w.segs != [] && 2 <= w.segs[0].start
  {
    hide LogBytes, RecordBytes, IndexSound, Watermarks, SetOf, Flush, Tiling, Bounded, KeptFrom, Removed;
    var h := [A(), B()];
    CleanIsSafe(v, h, 3, QUIET);
    var f, w := Flush(v, QUIET).log, Clean(v, 3, QUIET).log;
    var d := Removed(f.segs, 3, 0);
    LayoutSegs(w, h);
    assert w.opts == TIGHT;
    SecondSegment(w);
    if |w.segs| > 1 {
      assert w.segs[1] == f.segs[d + 1];
      StartsAssigned(w, h);
    }
  }

  lemma CleanedSettled()
    ensures TwoSets().world.log.segs != []
    ensures TakeSnapshot(Plain(), TwoSets().world, QUIET, WRITTEN).reply == Done([2])
    ensures var w := Cleaned();
            && Settled(Plain(), w, [A(), B()], NONE)
            && ReadBack(Plain(), w) == Some(Body(2, map[[97] := [1], [98] := [2]]))
            && w.log.segs != [] && 2 <= w.log.segs[0].start && w.log.durable == 2
  {
    hide SetOf, Plain, FoldWithout, TwoSets, Lawful, Flush, ReadSnapshot, Sound, InBackground, TakeSnapshot, Underway;
    PlainIsLawful();
    TwoSetsSettled();
    var h, x := [A(), B()], TwoSets().world;
    TwoKeys(x);
    AllFlushed(x, NONE);
    SnapshotKeeps(Plain(), x, h, NONE, QUIET, WRITTEN, 0);
    var y := TakeSnapshot(Plain(), x, QUIET, WRITTEN).world;
    assert GapsTaken(Plain(), h, NONE, x, y) == NONE;
    SnapshotTaken(Plain(), x, QUIET, WRITTEN);
    LastUnderway(y.log, Cleaning(QUIET, 3));
    BackgroundSound(Plain(), y, h, NONE, Cleaning(QUIET, 3), 3, Cleaned().log);
    OptionsOf(Plain(), y, h, NONE);
    AllFlushed(y, NONE);
    SecondRetained(y.log);
    CleaningIs(y.log);
    SoundInv(Plain(), Cleaned(), h, NONE);
  }

  lemma CleaningIs(v: Log)
    requires v.segs != []
    ensures InBackground(v, Cleaning(QUIET, 3)) == Clean(v, 3, QUIET).log
  {
    hide Clean;
  }

  ghost function Emptied(): Result {
    var w := Cleaned();
    if w.log.segs != [] then Reload(Plain(), w, UNREADABLE) else Result(w, Failed(SyncFailed))
  }

  ghost function Overwritten(): Result {
    var w := Emptied().world;
    if w.log.segs != [] then TakeSnapshot(Plain(), w, QUIET, WRITTEN) else Result(w, Failed(SyncFailed))
  }

  // Set("a") and Set("b") are acknowledged, a Snapshot has both, and the log is
  // cleaned below it. A Reload cannot read the snapshot file and leaves memory
  // empty; the next Snapshot succeeds and replaces the file. After a crash nothing
  // brings "a" back.
  lemma UnreadableSnapshotLosesAcknowledged(k: nat, io: ReloadIO)
    requires Survives(Overwritten().world.log, k) && !io.readErr
    ensures TwoSets().reply == Done([2]) && TwoSets().world.log.segs != []
    ensures TakeSnapshot(Plain(), TwoSets().world, QUIET, WRITTEN).reply == Done([2])
    ensures Emptied().reply == Failed(SnapshotUnreadable)
    ensures Overwritten().reply == Done([0])
    ensures var x := Overwritten().world;
            && x.log.segs[0].start >= 1 && AfterCrash(x.log, k).Opened?
            && Reopened(x.log.opts, AfterCrash(x.log, k)).segs != []
            && var r := New(Plain(), Reopened(x.log.opts, AfterCrash(x.log, k)), x.snap, io);
               && r.reply == Done([])
               && [97] !in r.world.kv && [97] in Fold(Plain(), [A(), B()], 2)
  {
    hide Settled, SetOf, Plain, FoldWithout, TwoSets, Cleaned, Lawful, ReadSnapshot, Survives, AfterCrash, Reopened,
         New, Harmless, Flush, SnapshotFits, WritingOk, Sound;
    PlainIsLawful();
    TwoSetsSettled();
    CleanedSettled();
    var h, w := [A(), B()], Cleaned();
    var b := Emptied().world;
    assert b == Blank(w);
    LoadIsLive(Plain(), w, h, NONE) by { SettledIs(Plain(), w, h, NONE); }
    NoKeys(b);
    AllFlushed(w, NONE);
    SnapshotKeeps(Plain(), b, h, NONE, QUIET, WRITTEN, 0);
    UnreadableReloadIff(Plain(), w, h, NONE, QUIET, QUIET, WRITTEN, k, io);
    TwoFolds();
    FirstGone(w.log.segs[0].start);
  }

  lemma SettledIs(json: Json, w: World, h: seq<seq<byte>>, gs: Gaps)
    requires Settled(json, w, h, gs)
    ensures Sound(json, w, h, gs) && w.log.nextSeq == |h| + 1
  {
    hide Sound;
  }

  lemma NoKeys(w: World)
    requires w.applied == 0 && w.kv == map[]
    ensures SnapshotFits(Plain(), w) && WritingOk(SnapshotBytes(Plain(), w), WRITTEN)
  {
    hide RenderMap, SnapshotFrame;
    SmallValues(w.kv);
    assert Plain().renderBody(Body(w.applied, w.kv)) == RenderBody(Body(0, w.kv));
  }

  lemma FirstGone(first: nat)
    requires 2 <= first
    ensures [97] !in FoldWithout(Plain(), [A(), B()], Between(0, first), 2)
  {
    hide Plain, SetOf, DecodeCommand, Between;
    SetPayload(98, 2);
    var h, gaps := [A(), B()], Between(0, first);
    assert 1 in gaps;
    assert FoldWithout(Plain(), h, gaps, 0) == map[];
    assert FoldWithout(Plain(), h, gaps, 1) == map[];
  }
}
