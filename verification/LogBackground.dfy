// Work that other goroutines do on the log whenever its mutex is free: the
// periodic flush (internal/wal/fsync.go), a live Recover (internal/wal/wal.go)
// and CleanOldSegments (internal/wal/replay.go).
module LogBackground {
  import opened History
  import opened Recovery
  import opened LogState
  import opened LogSteps
  import opened LogCrash
  import opened LogClean
  import opened LogDamage
  import opened LogOnward

  // Sync, Verify and Read do to the log what a tick does, or nothing.
  datatype Background = Ticking(io: FlushIO) | Rescanning(io: FlushIO) | Cleaning(io: FlushIO, before: nat)

  // The handle after a Recover that found r.
  function Rescanned(v: Log, r: Recovered): Log
    requires r.Opened?
  {
    v.(segs := seq(|r.files|, i requires 0 <= i < |r.files| =>
                 Seg(r.files[i].start, r.files[i].bytes, |r.files[i].bytes|)),
       index := IndexOf(r.out), durable := r.lastSeq, nextSeq := r.lastSeq + 1)
  }

  // Recover on an open handle: flush, then scan the files again.
  function Rescan(v: Log, io: FlushIO): (w: Log)
    requires v.segs != []
    ensures w.segs != [] && w.opts == v.opts
  {
    var f := Flush(v, io);
    if !f.ok || f.log.segs[0].start < 1 then f.log
    else
      var files := Files(f.log);
      match Recover(files, v.opts.maxRecord)
      case Rejected(_) => f.log
      case r =>
        RecoverShape(files, 0, v.opts.maxRecord, Scan.Initial(files[0].start - 1));
        Rescanned(f.log, r)
  }

  function InBackground(v: Log, b: Background): (w: Log)
    requires v.segs != []
    ensures w.segs != [] && w.opts == v.opts
  {
    match b
    case Ticking(io) => Flush(v, io).log
    case Rescanning(io) => Rescan(v, io)
    case Cleaning(io, before) =>
      KeepsOne(Flush(v, io).log.segs, Flush(v, io).log.nextSeq, before, 0);
      Clean(v, before, io).log
  }

  lemma {:induction false} KeepsOne(segs: seq<Seg>, nextSeq: nat, before: nat, i: nat)
    requires i < |segs|
    ensures KeptFrom(segs, nextSeq, before, i) != []
    decreases |segs| - i
  {
    if i < |segs| - 1 {
      KeepsOne(segs, nextSeq, before, i + 1);
    }
  }

  function AllBackground(v: Log, bs: seq<Background>): (w: Log)
    requires v.segs != []
    ensures w.segs != [] && w.opts == v.opts
    decreases bs
  {
    if bs == [] then v else AllBackground(InBackground(v, bs[0]), bs[1..])
  }

  // What a crash during a cleaning can see: the first d segments gone.
  function Cleanings(v: Log, before: nat): seq<Log>
    requires v.segs != []
  {
    seq(Removed(v.segs, before, 0) + 1, d requires 0 <= d < Removed(v.segs, before, 0) + 1 =>
      Dropped(v, d, v.segs[d].start))
  }

  // Every state a piece of work passes through.
  function Underway(v: Log, b: Background): (logs: seq<Log>)
    requires v.segs != []
    ensures logs != [] && logs[|logs| - 1] == InBackground(v, b)
  {
    var f := Flush(v, b.io);
    [v, f.log] + (if f.ok && b.Cleaning? then Cleanings(f.log, b.before) else []) + [InBackground(v, b)]
  }

  function BackgroundSteps(v: Log, bs: seq<Background>): seq<Log>
    requires v.segs != []
    decreases bs
  {
    if bs == [] then [v] else Underway(v, bs[0]) + BackgroundSteps(InBackground(v, bs[0]), bs[1..])
  }

  // Short writes are rolled back.
  predicate AllWork(bs: seq<Background>) {
    forall i :: 0 <= i < |bs| ==> RollbackWorks(bs[i].io)
  }

  // No cleaning goes above a.
  predicate Below(b: Background, a: nat) {
    b.Cleaning? ==> b.before <= a
  }

  predicate AllBelow(bs: seq<Background>, a: nat) {
    forall i :: 0 <= i < |bs| ==> Below(bs[i], a)
  }

  lemma {:induction false} SomeCeiling(bs: seq<Background>) returns (a: nat)
    ensures AllBelow(bs, a)
    decreases bs
  {
    if bs == [] {
      a := 0;
    } else {
      a := SomeCeiling(bs[1..]);
      if bs[0].Cleaning? && bs[0].before > a {
        a := bs[0].before;
      }
      forall i | 0 <= i < |bs|
        ensures Below(bs[i], a)
      {
        assert i > 0 ==> bs[i] == bs[1..][i - 1];
      }
    }
  }

  // A rescan of a flushed log finds it as it is, with a complete index.
  lemma RescanIs(v: Log, h: seq<Payload>)
    requires Healthy(v, h) && v.segs != []
    ensures v.segs[0].start >= 1 && Recover(Files(v), v.opts.maxRecord).Opened?
    ensures var w := Rescanned(v, Recover(Files(v), v.opts.maxRecord));
            && w == v.(index := w.index)
            && Inv(w, h) && Indexed(w, w.segs[0].start)
  {
    hide LogBytes, AllEntries, Recover, Tiling, IndexOf, Place, Bounded, Layout, Watermarks, IndexSound;
    LayoutSegs(v, h) by { Unfold(v, h); }
    NothingLost(v, h);
    var r := Recover(Files(v), v.opts.maxRecord);
    var w := Rescanned(v, r);
    forall i | 0 <= i < |v.segs|
      ensures w.segs[i] == v.segs[i]
    {
      HealthySync(v, h, i);
    }
    assert w.segs == v.segs;
    RebuiltIndex(SegStarts(v.segs), h, v.nextSeq, v.opts.maxRecord) by { Unfold(v, h); LayoutSegs(v, h); }
    var all := AllEntries(SegStarts(v.segs), 0, h, v.nextSeq, v.opts.maxRecord);
    assert w.index == IndexOf(all);
    IndexReplaced(v, h, IndexOf(all));
  }

  lemma IndexReplaced(v: Log, h: seq<Payload>, index: map<nat, Location>)
    requires Inv(v, h) && v.segs != [] && 1 <= v.segs[0].start && v.nextSeq == |h| + 1
    requires SegStarts(v.segs)[0] == v.segs[0].start
    requires forall s :: s in index <==> SegStarts(v.segs)[0] <= s < v.nextSeq
    requires forall s :: s in index ==> index[s] == Place(SegStarts(v.segs), h, s, v.opts.maxRecord)
    ensures Inv(v.(index := index), h) && Indexed(v.(index := index), v.segs[0].start)
  {
    hide LogBytes, Place, Tiling;
    var w := v.(index := index);
    assert Layout(w, h) && Watermarks(w, h) && IndexSound(w, h);
    forall i | 0 <= i < |w.segs|
      ensures InLimit(w, i)
    {
      assert InLimit(v, i);
    }
  }

  lemma RescanKeeps(v: Log, h: seq<Payload>, io: FlushIO)
    requires Inv(v, h) && v.segs != [] && RollbackWorks(io)
    ensures var w := Rescan(v, io);
            Inv(w, h) && Onward(v, w) && w.nextSeq == v.nextSeq
  {
    hide Inv, Flush, Recover, Onward, IndexOf;
    FlushKeepsUnlessRollbackFails(v, h, io);
    FlushOnward(v, h, io);
    var f := Flush(v, io).log;
    if Flush(v, io).ok {
      FlushedClean(v, h, io);
      RescanIs(f, h);
      var w := Rescanned(f, Recover(Files(f), f.opts.maxRecord));
      CompleteOnward(f, w);
      OnwardTrans(v, f, w);
    }
  }

  lemma CompleteOnward(v: Log, w: Log)
    requires w == v.(index := w.index) && v.segs != [] && Indexed(w, v.segs[0].start)
    ensures Onward(v, w)
  {
  }

  // ----- Cleaning -----

  lemma {:induction false} RemovedStarts(segs: seq<Seg>, before: nat, i: nat, d: nat)
    requires i < |segs| && i < d <= Removed(segs, before, i)
    ensures segs[d].start <= before
    decreases |segs| - i
  {
    if i != |segs| - 1 && segs[i + 1].start <= before && i + 1 < d {
      RemovedStarts(segs, before, i + 1, d);
    }
  }

  lemma DroppedOnward(v: Log, d: nat, b: nat, a: nat)
    requires d < |v.segs| && (d == 0 || v.segs[d].start <= a)
    requires b <= a || b == v.segs[0].start
    ensures OnwardFrom(v, Dropped(v, d, b), a)
  {
  }

  // Half done.
  lemma CleaningMoments(v: Log, h: seq<Payload>, before: nat, a: nat, x: Log)
    requires Inv(v, h) && v.segs != [] && before <= a && x in Cleanings(v, before)
    ensures Inv(x, h) && OnwardFrom(v, x, a) && x.nextSeq == v.nextSeq
  {
    hide Inv, OnwardFrom, Removed;
    var d :| 0 <= d <= Removed(v.segs, before, 0) && x == Dropped(v, d, v.segs[d].start);
    if d > 0 {
      RemovedStarts(v.segs, before, 0, d);
    }
    DroppedKeeps(v, h, d, v.segs[d].start);
    DroppedOnward(v, d, v.segs[d].start, a);
  }

  // And done.
  lemma CleaningKeeps(v: Log, h: seq<Payload>, io: FlushIO, before: nat, a: nat)
    requires Inv(v, h) && v.segs != [] && RollbackWorks(io) && before <= a
    ensures var w := Clean(v, before, io).log;
            Inv(w, h) && OnwardFrom(v, w, a) && w.nextSeq == v.nextSeq
  {
    hide Inv, Flush, Onward, OnwardFrom, Removed, KeptFrom;
    FlushKeepsUnlessRollbackFails(v, h, io);
    FlushOnward(v, h, io);
    var f := Flush(v, io).log;
    OnwardAbove(v, f, a);
    if Flush(v, io).ok {
      CleanIsSafe(v, h, before, io);
      var d := Removed(f.segs, before, 0);
      assert Clean(v, before, io).log == Dropped(f, d, before);
      DroppedOnward(f, d, before, a);
      OnwardFromTrans(v, f, Dropped(f, d, before), a);
    }
  }

  // ----- Any amount of it -----

  // Nothing confirmed, and no record from a on, is lost at any moment.
  lemma BackgroundKeeps(v: Log, h: seq<Payload>, b: Background, a: nat, x: Log)
    requires Inv(v, h) && v.segs != [] && RollbackWorks(b.io) && Below(b, a) && x in Underway(v, b)
    ensures Inv(x, h) && OnwardFrom(v, x, a) && x.nextSeq == v.nextSeq
  {
    hide Inv, Flush, Onward, OnwardFrom, Rescan, Clean, Cleanings;
    SelfOnward(v);
    OnwardAbove(v, v, a);
    FlushKeepsUnlessRollbackFails(v, h, b.io);
    FlushOnward(v, h, b.io);
    var f := Flush(v, b.io);
    OnwardAbove(v, f.log, a);
    if x == InBackground(v, b) {
      match b
      case Ticking(_) =>
      case Rescanning(io) =>
        RescanKeeps(v, h, io);
        OnwardAbove(v, x, a);
      case Cleaning(io, before) => CleaningKeeps(v, h, io, before, a);
    } else if b.Cleaning? && f.ok && x in Cleanings(f.log, b.before) {
      CleaningMoments(f.log, h, b.before, a, x);
      OnwardFromTrans(v, f.log, x, a);
    }
  }

  lemma {:induction false} AllBackgroundKeeps(v: Log, h: seq<Payload>, bs: seq<Background>, a: nat)
    requires Inv(v, h) && v.segs != [] && AllWork(bs) && AllBelow(bs, a)
    ensures var w := AllBackground(v, bs);
            Inv(w, h) && OnwardFrom(v, w, a) && w.nextSeq == v.nextSeq
    ensures forall x :: x in BackgroundSteps(v, bs) ==> OnwardFrom(v, x, a) && Inv(x, h) && x.nextSeq == v.nextSeq
    decreases bs
  {
    hide Inv, Flush, OnwardFrom, InBackground, Underway, Onward;
    SelfOnward(v);
    OnwardAbove(v, v, a);
    if bs != [] {
      var u := InBackground(v, bs[0]);
      assert Below(bs[0], a);
      LastUnderway(v, bs[0]);
      BackgroundKeeps(v, h, bs[0], a, u);
      AllBackgroundKeeps(u, h, bs[1..], a);
      OnwardFromTrans(v, u, AllBackground(u, bs[1..]), a);
      forall x | x in BackgroundSteps(v, bs)
        ensures OnwardFrom(v, x, a) && Inv(x, h) && x.nextSeq == v.nextSeq
      {
        if x in Underway(v, bs[0]) {
          BackgroundKeeps(v, h, bs[0], a, x);
        } else {
          OnwardFromTrans(v, u, x, a);
        }
      }
    }
  }

  lemma LastUnderway(v: Log, b: Background)
    requires v.segs != []
    ensures InBackground(v, b) in Underway(v, b)
  {
    hide Flush, InBackground;
  }
}
