// SetBatch: group commit, and memory published only after the one sync.
module StoreBatch {
  import opened Bytes
  import opened History
  import opened Recovery
  import opened LogState
  import opened LogSteps
  import opened LogCrash
  import opened LogOnward
  import opened LogBackground
  import opened Snapshots
  import opened StoreState
  import opened Folds
  import opened StoreProofs

  // No failed rollback.
  predicate BatchWorks(io: BatchIO) {
    AllWork(io.before) && RollbackWorks(io.append.rotate) && RollbackWorks(io.append.flush)
  }

  ghost predicate AllBatchWorks(ios: seq<BatchIO>) {
    forall i :: 0 <= i < |ios| ==> BatchWorks(ios[i])
  }

  predicate SyncWorks(sync: SyncIO) {
    AllWork(sync.before) && RollbackWorks(sync.flush)
  }

  // No cleaning above a.
  ghost predicate BatchBelow(ios: seq<BatchIO>, a: nat) {
    forall i :: 0 <= i < |ios| ==> AllBelow(ios[i].before, a)
  }

  lemma {:induction false} SomeBatchCeiling(ios: seq<BatchIO>, sync: SyncIO) returns (a: nat)
    ensures BatchBelow(ios, a) && AllBelow(sync.before, a)
    decreases ios
  {
    if ios == [] {
      a := SomeCeiling(sync.before);
    } else {
      var a0 := SomeBatchCeiling(ios[1..], sync);
      var a1 := SomeCeiling(ios[0].before);
      a := if a0 < a1 then a1 else a0;
      forall i | 0 <= i < |ios|
        ensures AllBelow(ios[i].before, a)
      {
        assert i > 0 ==> ios[i] == ios[1..][i - 1];
      }
    }
  }

  // Every state the appends of a batch pass through.
  function AppendAllSteps(v: Log, ps: seq<seq<byte>>, ios: seq<BatchIO>): (logs: seq<Log>)
    requires v.segs != [] && v.opts.maxRecord >= 1 && |ios| == |ps|
    decreases ps
  {
    if ps == [] then [v]
    else
      var u := AllBackground(v, ios[0].before);
      var r := Append(u, ps[0], false, ios[0].append);
      BackgroundSteps(v, ios[0].before) + AppendSteps(u, ps[0], false, ios[0].append)
      + (if r.outcome.Assigned? then AppendAllSteps(r.log, ps[1..], ios[1..]) else [])
  }

  lemma InvAtLonger(v: Log, h: seq<seq<byte>>, ps: seq<seq<byte>>)
    requires InvAt(v, h)
    ensures InvAt(v, h + ps)
  {
    hide Inv;
    assert (h + ps)[..v.nextSeq - 1] == h[..v.nextSeq - 1];
  }

  // The appends of a batch, with whatever other goroutines do in between: every
  // moment is a sound log for the history with the whole batch behind it; if no
  // append fails, all of the batch is assigned.
  lemma {:induction false} AppendAllKeeps(v: Log, h: seq<seq<byte>>, ps: seq<seq<byte>>, ios: seq<BatchIO>, a: nat)
    requires Inv(v, h) && v.segs != [] && v.opts.maxRecord >= 1 && |ios| == |ps|
    requires AllBatchWorks(ios) && BatchBelow(ios, a) && RoomFor(v, |ps|)
    ensures var r := AppendAll(v, ps, ios);
            && OnwardFrom(v, r.log, a)
            && InvAt(r.log, h + ps)
            && (r.outcome.Assigned? ==> r.log.nextSeq == v.nextSeq + |ps| && Inv(r.log, h + ps))
    ensures forall x :: x in AppendAllSteps(v, ps, ios) ==> OnwardFrom(v, x, a) && InvAt(x, h + ps)
    decreases ps
  {
    hide Inv, Append, AppendSteps, Onward, OnwardFrom, AllBackground, BackgroundSteps;
    SelfOnward(v);
    OnwardAbove(v, v, a);
    assert |h| + 1 == v.nextSeq by { Unfold(v, h); LayoutSegs(v, h); }
    if ps == [] {
      assert h + ps == h == h[..v.nextSeq - 1];
    } else {
      var u, io := AllBackground(v, ios[0].before), ios[0].append;
      assert BatchWorks(ios[0]) && AllBelow(ios[0].before, a);
      AllBackgroundKeeps(v, h, ios[0].before, a);
      var r := Append(u, ps[0], false, io);
      var g := h + [ps[0]];
      assert g + ps[1..] == h + ps;
      forall x | x in BackgroundSteps(v, ios[0].before)
        ensures OnwardFrom(v, x, a) && InvAt(x, h + ps)
      {
        assert h[..x.nextSeq - 1] == h;
        InvAtLonger(x, h, ps);
      }
      OneAppended(u, h, ps[0], io, a);
      OnwardFromTrans(v, u, r.log, a);
      InvAtLonger(r.log, g, ps[1..]);
      forall x | x in AppendSteps(u, ps[0], false, io)
        ensures OnwardFrom(v, x, a) && InvAt(x, h + ps)
      {
        OnwardFromTrans(v, u, x, a);
        InvAtLonger(x, g, ps[1..]);
      }
      if r.outcome.Assigned? {
        AppendAllKeeps(r.log, g, ps[1..], ios[1..], a);
        OnwardFromTrans(v, r.log, AppendAll(r.log, ps[1..], ios[1..]).log, a);
        forall x | x in AppendAllSteps(r.log, ps[1..], ios[1..])
          ensures OnwardFrom(v, x, a)
        {
          OnwardFromTrans(v, r.log, x, a);
        }
      }
    }
  }

  lemma OneAppended(v: Log, h: seq<seq<byte>>, p: seq<byte>, io: AppendIO, a: nat)
    requires Inv(v, h) && v.segs != [] && v.opts.maxRecord >= 1
    requires RollbackWorks(io.rotate) && RollbackWorks(io.flush) && RoomFor(v, 1)
    ensures var r := Append(v, p, false, io);
            && OnwardFrom(v, r.log, a) && InvAt(r.log, h + [p])
            && (r.outcome.Assigned? ==> r.log.nextSeq == v.nextSeq + 1 && Inv(r.log, h + [p]))
    ensures forall x :: x in AppendSteps(v, p, false, io) ==> OnwardFrom(v, x, a) && InvAt(x, h + [p])
  {
    hide Inv, Append, AppendSteps, Onward, OnwardFrom;
    AppendKeeps(v, p, false, io, h);
    AppendOnward(v, p, false, io, h, Append(v, p, false, io).log);
    OnwardAbove(v, Append(v, p, false, io).log, a);
    LastAppendStep(v, p, false, io);
    forall x | x in AppendSteps(v, p, false, io)
      ensures OnwardFrom(v, x, a) && InvAt(x, h + [p])
    {
      AppendOnward(v, p, false, io, h, x);
      OnwardAbove(v, x, a);
      AppendStepsKeep(v, p, false, io, h, x);
    }
  }

  // ----- Applying the batch -----

  function ApplyAllSteps(json: Json, w: World, s: nat, ps: seq<seq<byte>>): seq<World>
    decreases ps
  {
    if ps == [] then [w]
    else
      var a := Apply(json, w, s, ps[0]);
      [w] + (if a.reply.Failed? then [a.world] else ApplyAllSteps(json, a.world, s + 1, ps[1..]))
  }

  // Confirmed commands s, s + 1, ... applied one after the other.
  lemma {:induction false} ApplyAllKeeps(json: Json, w: World, h: seq<seq<byte>>, gs: Gaps, s: nat, ps: seq<seq<byte>>)
    requires Sound(json, w, h, gs) && w.applied < s
    requires s + |ps| <= |h| + 1 && s + |ps| <= w.log.durable + 1
    requires ps == h[s - 1..s - 1 + |ps|]
    ensures var a := ApplyAll(json, w, s, ps);
            && a.reply == Done([])
            && a.world.applied == (if ps == [] then w.applied else s + |ps| - 1)
            && Applying(json, w, h, GapsFrom(gs, w, s, a.world), a.world)
    ensures forall x :: x in ApplyAllSteps(json, w, s, ps) ==> Applying(json, w, h, GapsFrom(gs, w, s, x), x)
    decreases ps
  {
    hide Apply, Sound, FoldWithout, Passed;
    if ps == [] {
    } else {
      assert ps[0] == h[s - 1];
      ApplyNext(json, w, h, gs, s);
      var next := Apply(json, w, s, ps[0]).world;
      var gn := gs.(mem := Passed(gs.mem, w.applied, s));
      ApplyAllKeeps(json, next, h, gn, s + 1, ps[1..]);
      PassedNone(gn.mem, s);
      forall x | x in ApplyAllSteps(json, next, s + 1, ps[1..])
        ensures Applying(json, w, h, GapsFrom(gs, w, s, x), x)
      {
        assert GapsFrom(gn, next, s + 1, x) == gn;
      }
      var a := ApplyAll(json, next, s + 1, ps[1..]).world;
      assert GapsFrom(gn, next, s + 1, a) == gn;
    }
  }

  // Only memory moves on.
  ghost predicate Applying(json: Json, w: World, h: seq<seq<byte>>, gs: Gaps, x: World) {
    Sound(json, x, h, gs) && x.log == w.log && x.snap == w.snap && w.applied <= x.applied
  }

  // ----- SetBatch -----

  function BatchIssues(json: Json, pairs: seq<Pair>): seq<seq<byte>> {
    match EncodeAll(json, pairs)
    case None => []
    case Some(ps) => ps
  }

  lemma {:induction false} BatchDecodable(json: Json, pairs: seq<Pair>)
    requires Lawful(json)
    ensures Decodable(json, BatchIssues(json, pairs))
    ensures EncodeAll(json, pairs).None? <==> exists i :: 0 <= i < |pairs| && pairs[i].key == []
    decreases pairs
  {
    hide Lawful, DecodeCommand, EncodeCommand;
    if pairs == [] {
    } else {
      CommandRoundTrip(json, OpSet, pairs[0].key, pairs[0].value);
      BatchDecodable(json, pairs[1..]);
      if exists i :: 0 <= i < |pairs| && pairs[i].key == [] {
        var i :| 0 <= i < |pairs| && pairs[i].key == [];
        assert i > 0 ==> pairs[1..][i - 1].key == [];
      }
      if exists i :: 0 <= i < |pairs[1..]| && pairs[1..][i].key == [] {
        var i :| 0 <= i < |pairs[1..]| && pairs[1..][i].key == [];
        assert pairs[i + 1].key == [];
      }
    }
  }

  // Every moment of a batch.
  function BatchSteps(json: Json, w: World, pairs: seq<Pair>, ios: seq<BatchIO>, sync: SyncIO): (ws: seq<World>)
    requires w.log.segs != [] && w.log.opts.maxRecord >= 1 && |ios| == |pairs|
    ensures ws != []
  {
    match EncodeAll(json, pairs)
    case None => [w]
    case Some(ps) =>
      if ps == [] then [w]
      else
        var r := AppendAll(w.log, ps, ios);
        var f := Flush(AllBackground(r.log, sync.before), sync.flush);
        Lift(w, AppendAllSteps(w.log, ps, ios)) + [w.(log := r.log)] +
        (if !r.outcome.Assigned? then []
         else
           Lift(w, BackgroundSteps(r.log, sync.before)) +
           (if !f.ok then [w.(log := f.log)]
            else ApplyAllSteps(json, w.(log := f.log), w.log.nextSeq, ps)))
  }

  ghost predicate BatchReady(json: Json, w: World, h: seq<seq<byte>>, gs: Gaps, pairs: seq<Pair>, ios: seq<BatchIO>,
                             sync: SyncIO, kept: nat) {
    && Lawful(json) && Settled(json, w, h, gs)
    && w.log.segs != [] && w.log.opts.maxRecord >= 1 && RoomFor(w.log, |pairs|)
    && |ios| == |pairs| && AllBatchWorks(ios) && SyncWorks(sync)
    && BatchBelow(ios, kept) && AllBelow(sync.before, kept)
  }

  lemma SyncedBatch(json: Json, w: World, h: seq<seq<byte>>, gs: Gaps, ps: seq<seq<byte>>, ios: seq<BatchIO>,
                    sync: SyncIO, kept: nat)
    requires Settled(json, w, h, gs) && Decodable(json, ps)
    requires w.log.segs != [] && w.log.opts.maxRecord >= 1 && RoomFor(w.log, |ps|)
    requires |ios| == |ps| && AllBatchWorks(ios) && SyncWorks(sync)
    requires BatchBelow(ios, kept) && AllBelow(sync.before, kept)
    ensures var r := AppendAll(w.log, ps, ios);
            var f := Flush(AllBackground(r.log, sync.before), sync.flush);
            && Moment(json, w, h + ps, gs, kept, w.(log := r.log))
            && (r.outcome.Assigned? ==>
                 && Moment(json, w, h + ps, gs, kept, w.(log := f.log))
                 && f.log.nextSeq == |h| + |ps| + 1
                 && (f.ok ==> f.log.durable == |h| + |ps|))
    ensures forall x :: x in AppendAllSteps(w.log, ps, ios) ==> Moment(json, w, h + ps, gs, kept, w.(log := x))
    ensures AppendAll(w.log, ps, ios).outcome.Assigned? ==>
              forall x :: x in BackgroundSteps(AppendAll(w.log, ps, ios).log, sync.before) ==>
                Moment(json, w, h + ps, gs, kept, w.(log := x))
  {
    hide Inv, AppendAll, AppendAllSteps, Flush, OnwardFrom, Sound, AllBackground, BackgroundSteps;
    OptionsOf(json, w, h, gs);
    LongerHistory(json, w, h, gs, ps);
    AppendAllKeeps(w.log, h, ps, ios, kept);
    var r := AppendAll(w.log, ps, ios);
    assert |h| + 1 == w.log.nextSeq by { Unfold(w.log, h); LayoutSegs(w.log, h); }
    SoundOnward(json, w, h + ps, gs, kept, r.log);
    forall x | x in AppendAllSteps(w.log, ps, ios)
      ensures Moment(json, w, h + ps, gs, kept, w.(log := x))
    {
      SoundOnward(json, w, h + ps, gs, kept, x);
    }
    if r.outcome.Assigned? {
      SyncMoments(json, w, h + ps, gs, r.log, sync, kept);
    }
  }

  // Background work and the sync, on a log that has everything assigned.
  lemma SyncMoments(json: Json, w: World, h: seq<seq<byte>>, gs: Gaps, v: Log, sync: SyncIO, kept: nat)
    requires Moment(json, w, h, gs, kept, w.(log := v)) && Inv(v, h) && v.segs != []
    requires SyncWorks(sync) && AllBelow(sync.before, kept)
    ensures var f := Flush(AllBackground(v, sync.before), sync.flush);
            && Moment(json, w, h, gs, kept, w.(log := f.log))
            && f.log.nextSeq == v.nextSeq
            && (f.ok ==> f.log.durable == f.log.nextSeq - 1)
    ensures forall x :: x in BackgroundSteps(v, sync.before) ==> Moment(json, w, h, gs, kept, w.(log := x))
  {
    hide Inv, Flush, OnwardFrom, Sound, AllBackground, BackgroundSteps;
    var y := w.(log := v);
    AllBackgroundKeeps(v, h, sync.before, kept);
    forall x | x in BackgroundSteps(v, sync.before)
      ensures Moment(json, w, h, gs, kept, w.(log := x))
    {
      WholeInv(x, h);
      SoundOnward(json, y, h, gs, kept, x);
      MomentTrans(json, w, h, gs, y, gs, kept, w.(log := x));
    }
    var u := AllBackground(v, sync.before);
    WholeInv(u, h);
    SoundOnward(json, y, h, gs, kept, u);
    MomentTrans(json, w, h, gs, y, gs, kept, w.(log := u));
    FlushSound(json, w.(log := u), h, gs, sync.flush);
    MomentTrans(json, w, h, gs, w.(log := u), gs, kept, w.(log := Flush(u, sync.flush).log));
  }

  lemma WholeInv(v: Log, h: seq<seq<byte>>)
    requires Inv(v, h)
    ensures InvAt(v, h)
  {
    hide LogBytes, Tiling, IndexSound, Watermarks, Bounded;
    LayoutSegs(v, h);
    assert h[..v.nextSeq - 1] == h;
  }

  // A batch keeps the store sound at every moment, whatever memory it starts
  // from, whatever fails, and whatever other goroutines do to the log between
  // its calls.
  lemma BatchKeeps(json: Json, w: World, h: seq<seq<byte>>, gs: Gaps, pairs: seq<Pair>, ios: seq<BatchIO>, sync: SyncIO,
                   kept: nat)
    requires BatchReady(json, w, h, gs, pairs, ios, sync, kept)
    ensures var r := SetBatch(json, w, pairs, ios, sync);
            && Moment(json, w, h + BatchIssues(json, pairs), GapsFrom(gs, w, w.log.nextSeq, r.world), kept, r.world)
            && (r.reply.Done? ==> Confirms(r, |h|, |pairs|))
            && (r.reply.Failed? ==> r.world.kv == w.kv && r.world.applied == w.applied)
    ensures forall x :: x in BatchSteps(json, w, pairs, ios, sync) ==>
              Moment(json, w, h + BatchIssues(json, pairs), GapsFrom(gs, w, w.log.nextSeq, x), kept, x)
    ensures forall x :: x in BatchSteps(json, w, pairs, ios, sync) ==> x.snap == w.snap
  {
    hide Inv, AppendAll, AppendAllSteps, Flush, OnwardFrom, Sound, ApplyAll, ApplyAllSteps, EncodeAll, Passed,
         AllBackground, BackgroundSteps;
    BatchDecodable(json, pairs);
    OptionsOf(json, w, h, gs);
    assert |h| + 1 == w.log.nextSeq by { Unfold(w.log, h); LayoutSegs(w.log, h); }
    LongerHistory(json, w, h, gs, BatchIssues(json, pairs));
    SelfMoment(json, w, h + BatchIssues(json, pairs), gs, kept);
    assert EncodeAll(json, []) == Some([]) by { EncodeNone(json); }
    var e := EncodeAll(json, pairs);
    if e.Some? && pairs != [] {
      var ps := e.value;
      var g := h + ps;
      SyncedBatch(json, w, h, gs, ps, ios, sync, kept);
      var r := AppendAll(w.log, ps, ios);
      var f := Flush(AllBackground(r.log, sync.before), sync.flush);
      if r.outcome.Assigned? && f.ok {
        assert g[|h|..|h| + |ps|] == ps;
        assert w.applied < w.log.nextSeq by { SoundInv(json, w, h, gs); }
        ApplyAllKeeps(json, w.(log := f.log), g, gs, w.log.nextSeq, ps);
      }
    }
  }

  lemma EncodeNone(json: Json)
    ensures EncodeAll(json, []) == Some([])
  {
  }
}
