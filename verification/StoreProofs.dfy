// Set and Delete keep the store invariant at every moment, whatever memory they
// start from.
module StoreProofs {
  import opened Bytes
  import opened LogState
  import opened LogSteps
  import opened LogOnward
  import opened LogBackground
  import opened Snapshots
  import opened StoreState
  import opened Folds

  // ----- Steps that only touch the log -----

  // x, with gaps gs, is a moment of an operation that began in w: sound, with
  // nothing confirmed or applied taken back, and no record from `kept` on removed.
  ghost predicate Moment(json: Json, w: World, h: seq<seq<byte>>, gs: Gaps, kept: nat, x: World) {
    && Sound(json, x, h, gs)
    && w.log.durable <= x.log.durable && w.applied <= x.applied
    && OnwardFrom(w.log, x.log, kept)
  }

  lemma MomentTrans(json: Json, w: World, h: seq<seq<byte>>, gy: Gaps, y: World, gs: Gaps, kept: nat, x: World)
    requires Moment(json, w, h, gy, kept, y) && Moment(json, y, h, gs, kept, x)
    ensures Moment(json, w, h, gs, kept, x)
  {
    hide Sound, OnwardFrom;
    OnwardFromTrans(w.log, y.log, x.log, kept);
  }

  lemma SoundOnward(json: Json, w: World, h: seq<seq<byte>>, gs: Gaps, kept: nat, x: Log)
    requires Sound(json, w, h, gs) && InvAt(x, h) && OnwardFrom(w.log, x, kept)
    ensures Moment(json, w, h, gs, kept, w.(log := x))
  {
    hide Inv, Covers, FoldWithout, ReadSnapshot;
  }

  lemma SelfMoment(json: Json, w: World, h: seq<seq<byte>>, gs: Gaps, kept: nat)
    requires Sound(json, w, h, gs)
    ensures Moment(json, w, h, gs, kept, w)
  {
    hide Sound;
  }

  // The periodic flush, Sync, and every flush inside another operation.
  lemma FlushSound(json: Json, w: World, h: seq<seq<byte>>, gs: Gaps, io: FlushIO)
    requires Sound(json, w, h, gs) && w.log.segs != [] && RollbackWorks(io)
    ensures var f := Flush(w.log, io);
            && (forall kept: nat :: Moment(json, w, h, gs, kept, w.(log := f.log)))
            && f.log.nextSeq == w.log.nextSeq
            && (f.ok ==> f.log.durable == f.log.nextSeq - 1)
  {
    hide Inv, Flush, Onward, OnwardFrom, Live, SnapshotOk;
    var g := h[..w.log.nextSeq - 1];
    FlushKeepsUnlessRollbackFails(w.log, g, io);
    FlushConfirmsAll(w.log, g, io);
    FlushOnward(w.log, g, io);
    forall kept: nat
      ensures Moment(json, w, h, gs, kept, w.(log := Flush(w.log, io).log))
    {
      OnwardAbove(w.log, Flush(w.log, io).log, kept);
      SoundOnward(json, w, h, gs, kept, Flush(w.log, io).log);
    }
  }

  // What other goroutines do to the log, at every moment of it.
  lemma BackgroundSound(json: Json, w: World, h: seq<seq<byte>>, gs: Gaps, b: Background, kept: nat, x: Log)
    requires Sound(json, w, h, gs) && w.log.segs != [] && RollbackWorks(b.io) && Below(b, kept)
    requires x in Underway(w.log, b)
    ensures Moment(json, w, h, gs, kept, w.(log := x)) && x.nextSeq == w.log.nextSeq
  {
    hide Inv, OnwardFrom, Live, SnapshotOk, Underway;
    BackgroundKeeps(w.log, h[..w.log.nextSeq - 1], b, kept, x);
    SoundOnward(json, w, h, gs, kept, x);
  }

  lemma LongerHistory(json: Json, w: World, h: seq<seq<byte>>, gs: Gaps, ps: seq<seq<byte>>)
    requires Settled(json, w, h, gs) && Decodable(json, ps)
    ensures Sound(json, w, h + ps, gs)
  {
    hide Inv, FoldWithout, ReadSnapshot, Covers, DecodeCommand;
    var g := h + ps;
    assert g[..w.log.nextSeq - 1] == h == h[..w.log.nextSeq - 1];
    assert g[..w.applied] == h[..w.applied];
    FoldAgree(json, h, g, gs.mem, w.applied);
    if w.snap.Some? && ReadSnapshot(json, w.snap.value).Loaded? {
      var a := ReadSnapshot(json, w.snap.value).body.applied;
      assert g[..a] == h[..a];
      FoldAgree(json, h, g, gs.lost, a);
    }
  }

  lemma SoundInv(json: Json, w: World, h: seq<seq<byte>>, gs: Gaps)
    requires Sound(json, w, h, gs)
    ensures 1 <= w.log.nextSeq <= |h| + 1 && Inv(w.log, h[..w.log.nextSeq - 1])
    ensures w.applied <= w.log.durable < w.log.nextSeq
  {
    hide Inv, FoldWithout, ReadSnapshot, Covers;
    DurableAssigned(w.log, h[..w.log.nextSeq - 1]);
  }

  // A sound moment with the history cut to what has been assigned is at rest.
  lemma SettledAt(json: Json, w: World, h: seq<seq<byte>>, gs: Gaps)
    requires Sound(json, w, h, gs)
    ensures w.log.durable < w.log.nextSeq <= |h| + 1
    ensures Settled(json, w, h[..w.log.nextSeq - 1], gs)
  {
    hide Inv, FoldWithout, ReadSnapshot, Covers, DecodeCommand;
    var g := h[..w.log.nextSeq - 1];
    DurableAssigned(w.log, g);
    assert g[..|g|] == g;
    assert g[..w.applied] == h[..w.applied];
    FoldAgree(json, h, g, gs.mem, w.applied);
    if w.snap.Some? && ReadSnapshot(json, w.snap.value).Loaded? {
      var a := ReadSnapshot(json, w.snap.value).body.applied;
      assert g[..a] == h[..a];
      FoldAgree(json, h, g, gs.lost, a);
    }
  }

  // ----- Set and Delete -----

  // Worlds a run of log states stands for, nothing else changing.
  function Lift(w: World, logs: seq<Log>): (ws: seq<World>)
    ensures |ws| == |logs|
  {
    seq(|logs|, i requires 0 <= i < |logs| => w.(log := logs[i]))
  }

  function MutateSteps(json: Json, w: World, op: Op, key: Key, value: Value, io: AppendIO): (ws: seq<World>)
    requires w.log.segs != [] && w.log.opts.maxRecord >= 1
    ensures ws != []
  {
    match EncodeCommand(json, op, key, value)
    case None => [w]
    case Some(p) => Lift(w, AppendSteps(w.log, p, true, io)) + [Mutate(json, w, op, key, value, io).world]
  }

  // Sequence numbers left before they overflow.
  predicate RoomFor(v: Log, n: nat) {
    v.nextSeq + n <= 0x1_0000_0000_0000_0000
  }

  // The gaps of x, which came from w by applying commands from s on, if any.
  function GapsFrom(gs: Gaps, w: World, s: nat, x: World): Gaps {
    if x.applied == w.applied then gs else gs.(mem := Passed(gs.mem, w.applied, s))
  }

  // A confirmed command applied to a live memory; those in between are passed
  // over.
  lemma ApplyNext(json: Json, w: World, h: seq<seq<byte>>, gs: Gaps, s: nat)
    requires Sound(json, w, h, gs) && w.applied < s <= w.log.durable && s <= |h|
    ensures var r := Apply(json, w, s, h[s - 1]);
            && r.reply == Done([])
            && Sound(json, r.world, h, gs.(mem := Passed(gs.mem, w.applied, s)))
            && r.world.applied == s && r.world.log == w.log && r.world.snap == w.snap
  {
    hide Inv, ReadSnapshot, Covers;
    assert DecodeCommand(json, h[s - 1]).Some?;
    FoldPassed(json, h, gs.mem, w.applied, s);
  }

  // The payload a call appends, if it gets that far.
  function Issues(json: Json, op: Op, key: Key, value: Value): seq<seq<byte>> {
    match EncodeCommand(json, op, key, value)
    case None => []
    case Some(p) => [p]
  }

  // A successful reply for n commands after m: their sequences, and all of them
  // assigned, confirmed and applied.
  predicate Confirms(r: Result, m: nat, n: nat) {
    && r.reply == StoreState.Done(Numbers(m + 1, n))
    && (n > 0 ==> r.world.applied == r.world.log.durable == r.world.log.nextSeq - 1 == m + n)
  }

  // Set and Delete keep the store sound, whatever memory they start from and
  // whatever fails. Success means confirmed and visible, and passes over what
  // was assigned before and never applied.
  lemma MutateKeeps(json: Json, w: World, h: seq<seq<byte>>, gs: Gaps, op: Op, key: Key, value: Value, io: AppendIO,
                   kept: nat)
    requires Lawful(json) && Settled(json, w, h, gs) && op != OpOther
    requires w.log.segs != [] && w.log.opts.maxRecord >= 1 && RoomFor(w.log, 1)
    requires RollbackWorks(io.rotate) && RollbackWorks(io.flush)
    ensures var r := Mutate(json, w, op, key, value, io);
            && Moment(json, w, h + Issues(json, op, key, value), GapsFrom(gs, w, w.log.nextSeq, r.world), kept, r.world)
            && (key == [] ==> r == Result(w, Failed(EmptyKey)))
            && (r.reply.Done? ==> Confirms(r, |h|, 1))
            && (r.reply.Failed? ==> r.world.kv == w.kv && r.world.applied == w.applied)
  {
    hide Inv, ReadSnapshot, Covers, FoldWithout, Append, AppendSteps, OnwardFrom, Apply, SnapshotOk, Passed;
    CommandRoundTrip(json, op, key, value);
    OptionsOf(json, w, h, gs);
    if key == [] {
      assert h + [] == h;
      SelfMoment(json, w, h, gs, kept);
    } else {
      var p := EncodeCommand(json, op, key, value).value;
      assert Decodable(json, [p]);
      AppendKeeps(w.log, p, true, io, h);
      var r := Append(w.log, p, true, io);
      AppendedSound(json, w, h, gs, p, true, io, kept, r.log);
      if r.outcome.Assigned? {
        assert (h + [p])[|h|] == p;
        ApplyNext(json, w.(log := r.log), h + [p], gs, |h| + 1);
        assert Numbers(|h| + 1, 1) == [|h| + 1];
      }
    }
  }

  lemma MutateGrows(json: Json, w: World, op: Op, key: Key, value: Value, io: AppendIO)
    requires w.log.segs != [] && w.log.opts.maxRecord >= 1
    ensures var x := Mutate(json, w, op, key, value, io).world;
            && x.log.segs != [] && x.log.opts == w.log.opts
            && x.snap == w.snap && w.applied <= x.applied
  {
    hide Append;
  }

  // So at every moment in between.
  lemma MutateStepsSound(json: Json, w: World, h: seq<seq<byte>>, gs: Gaps, op: Op, key: Key, value: Value,
                         io: AppendIO, kept: nat, x: World)
    requires Lawful(json) && Settled(json, w, h, gs) && op != OpOther
    requires w.log.segs != [] && w.log.opts.maxRecord >= 1 && RoomFor(w.log, 1)
    requires RollbackWorks(io.rotate) && RollbackWorks(io.flush)
    requires x in MutateSteps(json, w, op, key, value, io)
    ensures Moment(json, w, h + Issues(json, op, key, value), GapsFrom(gs, w, w.log.nextSeq, x), kept, x)
    ensures x.snap == w.snap
  {
    hide Inv, ReadSnapshot, Covers, FoldWithout, AppendSteps, Mutate, Sound, Moment, SnapshotOk, Live, Passed;
    MutateKeeps(json, w, h, gs, op, key, value, io, kept);
    MutateGrows(json, w, op, key, value, io);
    CommandRoundTrip(json, op, key, value);
    if key == [] {
    } else if x != Mutate(json, w, op, key, value, io).world {
      var p := EncodeCommand(json, op, key, value).value;
      assert Decodable(json, [p]);
      AppendedSound(json, w, h, gs, p, true, io, kept, x.log);
    }
  }

  lemma OptionsOf(json: Json, w: World, h: seq<seq<byte>>, gs: Gaps)
    requires Settled(json, w, h, gs)
    ensures w.log.segs != [] && w.log.opts.Valid() && Inv(w.log, h)
  {
    hide FoldWithout, ReadSnapshot, Covers;
    assert h[..w.log.nextSeq - 1] == h;
    LayoutSegs(w.log, h);
  }

  lemma AppendedSound(json: Json, w: World, h: seq<seq<byte>>, gs: Gaps, p: seq<byte>, force: bool, io: AppendIO,
                      kept: nat, x: Log)
    requires Settled(json, w, h, gs) && Decodable(json, [p])
    requires w.log.segs != [] && w.log.opts.maxRecord >= 1 && RoomFor(w.log, 1)
    requires RollbackWorks(io.rotate) && RollbackWorks(io.flush)
    requires x in AppendSteps(w.log, p, force, io) || x == Append(w.log, p, force, io).log
    ensures Moment(json, w, h + [p], gs, kept, w.(log := x))
  {
    hide Inv, ReadSnapshot, Covers, FoldWithout, Append, Onward, OnwardFrom;
    OptionsOf(json, w, h, gs);
    LongerHistory(json, w, h, gs, [p]);
    AppendOnward(w.log, p, force, io, h, x);
    OnwardAbove(w.log, x, kept);
    LastAppendStep(w.log, p, force, io);
    AppendStepsKeep(w.log, p, force, io, h, x);
    SoundOnward(json, w, h + [p], gs, kept, x);
  }
}
