// Removing old segments (CleanOldSegments), the segment report (SegmentInfo)
// and the byte counters.
module LogClean {
  import opened Bytes
  import opened History
  import opened Recovery
  import opened LogState
  import opened LogSteps
  import opened LogCrash
  import opened LogReads

  // ----- Cleaning -----

  // Last sequence of segment i.
  function LastOf(segs: seq<Seg>, nextSeq: nat, i: nat): int
    requires i < |segs|
  {
    (if i + 1 < |segs| then segs[i + 1].start else nextSeq) - 1
  }

  // The filter of the cleaning loop, from segment i on.
  function KeptFrom(segs: seq<Seg>, nextSeq: nat, before: nat, i: nat): seq<Seg>
    requires i <= |segs|
    decreases |segs| - i
  {
    if i == |segs| then []
    else if i != |segs| - 1 && LastOf(segs, nextSeq, i) < before then KeptFrom(segs, nextSeq, before, i + 1)
    else [segs[i]] + KeptFrom(segs, nextSeq, before, i + 1)
  }

  function From(index: map<nat, Location>, before: nat): map<nat, Location> {
    map s | s in index && s >= before :: index[s]
  }

  function Clean(v: Log, before: nat, io: FlushIO): FlushResult
    requires v.segs != []
  {
    var f := Flush(v, io);
    if !f.ok then f
    else
      FlushResult(f.log.(segs := KeptFrom(f.log.segs, f.log.nextSeq, before, 0), index := From(f.log.index, before)),
                  true)
  }

  // The log without its first d segments and without entries below b.
  function Dropped(v: Log, d: nat, b: nat): Log
    requires d <= |v.segs|
  {
    v.(segs := v.segs[d..], index := From(v.index, b))
  }

  lemma {:induction false} HomeInSuffix(starts: seq<nat>, d: nat, s: nat)
    requires d < |starts| && starts[0] <= s && starts[d] <= s
    ensures d <= Home(starts, s) && Home(starts[d..], s) == Home(starts, s) - d
    decreases |starts|
  {
    var n := |starts| - 1;
    assert starts[d..][n - d] == starts[n];
    if starts[n] > s {
      assert d < n;
      assert starts[d..][..n - d] == starts[..n][d..];
      HomeInSuffix(starts[..n], d, s);
    }
  }

  lemma TilingSuffix(starts: seq<nat>, b: nat, d: nat)
    requires Tiling(starts, b) && d < |starts|
    ensures Tiling(starts[d..], b)
  {
    TilingOrder(starts, b, 0, d);
  }

  lemma DroppedLayout(v: Log, h: seq<seq<byte>>, d: nat, b: nat)
    requires Layout(v, h) && d < |v.segs|
    ensures Layout(Dropped(v, d, b), h)
    ensures SegStarts(Dropped(v, d, b).segs) == SegStarts(v.segs)[d..]
    ensures OnFile(Dropped(v, d, b)) == OnFile(v) && Cur(Dropped(v, d, b)) == Cur(v)
  {
    hide LogBytes, Tiling;
    var w := Dropped(v, d, b);
    TilingSuffix(SegStarts(v.segs), OnFile(v), d);
    assert SegStarts(w.segs) == SegStarts(v.segs)[d..];
    forall i, j | 0 <= i && j == i + 1 < |w.segs|
      ensures Closed(h, w.segs[i], w.segs[j], v.opts.maxRecord)
    {
      assert w.segs[i] == v.segs[d + i] && w.segs[j] == v.segs[d + j];
    }
    assert Cur(w) == Cur(v);
  }

  lemma DroppedBounded(v: Log, d: nat, b: nat)
    requires Bounded(v) && d < |v.segs|
    ensures Bounded(Dropped(v, d, b))
  {
    var w := Dropped(v, d, b);
    forall i | 0 <= i < |w.segs|
      ensures InLimit(w, i)
    {
      assert InLimit(v, d + i);
      assert w.segs[i] == v.segs[d + i];
      if i + 1 < |w.segs| {
        assert w.segs[i + 1] == v.segs[d + i + 1];
      }
      assert Load(w, i) == Load(v, d + i) && Until(w, i) == Until(v, d + i);
    }
  }

  lemma DroppedKeeps(v: Log, h: seq<seq<byte>>, d: nat, b: nat)
    requires Inv(v, h) && d < |v.segs| && v.segs[d].start <= b
    ensures Inv(Dropped(v, d, b), h)
  {
    hide LogBytes, Layout, Bounded, Tiling, RecordBytes, Home;
    var w := Dropped(v, d, b);
    DroppedLayout(v, h, d, b);
    DroppedBounded(v, d, b);
    LayoutSegs(v, h);
    LayoutSegs(w, h);
    var starts := SegStarts(v.segs);
    assert w.segs[0] == v.segs[d] && starts[d] == v.segs[d].start;
    forall s | s in w.index
      ensures w.segs[0].start <= s < w.nextSeq
      ensures w.index[s] == Place(SegStarts(w.segs), h, s, w.opts.maxRecord)
    {
      HomeInSuffix(starts, d, s);
    }
  }

  // How many segments a cleaning removes.
  function Removed(segs: seq<Seg>, before: nat, i: nat): (d: nat)
    requires i < |segs|
    ensures i <= d < |segs|
    decreases |segs| - i
  {
    if i != |segs| - 1 && segs[i + 1].start <= before then Removed(segs, before, i + 1) else i
  }

  lemma {:induction false} RemovedIsPrefix(segs: seq<Seg>, b: nat, nextSeq: nat, before: nat, i: nat)
    requires Tiling(SegStarts(segs), b) && i < |segs|
    ensures var d := Removed(segs, before, i);
            && KeptFrom(segs, nextSeq, before, i) == segs[d..]
            && (i < d ==> segs[d].start <= before)
            && (d < |segs| - 1 ==> segs[d + 1].start > before)
    decreases |segs| - i
  {
    if i != |segs| - 1 && segs[i + 1].start <= before {
      RemovedIsPrefix(segs, b, nextSeq, before, i + 1);
    } else {
      KeepsTheRest(segs, b, nextSeq, before, i);
    }
  }

  lemma {:induction false} KeepsTheRest(segs: seq<Seg>, b: nat, nextSeq: nat, before: nat, i: nat)
    requires Tiling(SegStarts(segs), b) && i < |segs|
    requires i != |segs| - 1 ==> segs[i + 1].start > before
    ensures KeptFrom(segs, nextSeq, before, i) == segs[i..]
    decreases |segs| - i
  {
    if i != |segs| - 1 {
      if i + 1 != |segs| - 1 {
        TilingOrder(SegStarts(segs), b, i + 1, i + 2);
        assert SegStarts(segs)[i + 1] == segs[i + 1].start && SegStarts(segs)[i + 2] == segs[i + 2].start;
      }
      KeepsTheRest(segs, b, nextSeq, before, i + 1);
    } else {
      assert KeptFrom(segs, nextSeq, before, i + 1) == [];
    }
  }

  // Cleaning removes exactly the leading segments that lie wholly below the
  // watermark and are not current, and keeps the log invariant. Every record at
  // or above the watermark reads as before, and no counter moves.
  lemma CleanIsSafe(v: Log, h: seq<seq<byte>>, before: nat, io: FlushIO)
    requires Inv(v, h) && v.segs != [] && RollbackWorks(io) && Flush(v, io).ok
    ensures var f := Flush(v, io).log;
            var w := Clean(v, before, io).log;
            && f.segs != []
            && var d := Removed(f.segs, before, 0);
            && w.segs == f.segs[d..]
            && (d > 0 ==> f.segs[d].start <= before)
            && (d < |f.segs| - 1 ==> f.segs[d + 1].start > before)
            && Inv(w, h)
            && w.nextSeq == v.nextSeq && w.durable == v.nextSeq - 1
            && (forall t :: t in w.index <==> t in v.index && t >= before)
            && (forall t :: t in w.index ==> 1 <= t <= |h| && ReadIndexed(w, t) == Payload(h[t - 1]))
  {
    hide LogBytes, Layout, Watermarks, Bounded, IndexSound, Tiling, ReadIndexed, Flush;
    FlushKeepsUnlessRollbackFails(v, h, io);
    FlushConfirmsAll(v, h, io);
    var f := Flush(v, io).log;
    LayoutSegs(f, h);
    var d := Removed(f.segs, before, 0);
    RemovedIsPrefix(f.segs, OnFile(f), f.nextSeq, before, 0);
    var w := Clean(v, before, io).log;
    assert w == Dropped(f, d, before);
    var b := if before < f.segs[d].start then f.segs[d].start else before;
    if d == 0 {
      NothingBelow(f, h);
      SameFrom(f, before, b);
    }
    assert w == Dropped(f, d, b);
    DroppedKeeps(f, h, d, b);
    DurableOnFile(w, h);
    forall t | t in w.index
      ensures 1 <= t <= |h| && ReadIndexed(w, t) == Payload(h[t - 1])
    {
      IndexedRange(w, h, t);
      IndexReadsBack(w, h, t);
    }
  }

  lemma SameFrom(v: Log, before: nat, b: nat)
    requires v.segs != [] && forall s :: s in v.index ==> v.segs[0].start <= s
    requires b == if before < v.segs[0].start then v.segs[0].start else before
    ensures From(v.index, before) == From(v.index, b)
  {
  }

  // What a crash between two removals leaves: the first d files are gone too.
  function CleanCrashFiles(v: Log, k: nat, d: nat): (files: seq<Image>)
    requires Survives(v, k) && d < |v.segs|
    ensures files != [] && files[0].start == v.segs[d].start
  {
    assert CrashFiles(v, k)[d].start == v.segs[d].start;
    CrashFiles(v, k)[d..]
  }

  // Whatever number of the doomed files is gone, and wherever unconfirmed bytes
  // end, reopening succeeds with the same last sequence and the same remaining
  // files as if none had been removed, so no sequence is used twice.
  lemma CleanCrashKeepsSequence(v: Log, h: seq<seq<byte>>, before: nat, d: nat, k: nat)
    requires Inv(v, h) && Survives(v, k)
    requires d <= Removed(v.segs, before, 0)
    ensures v.segs[d].start >= 1 && v.segs[0].start >= 1
    ensures Recover(CrashFiles(v, k), v.opts.maxRecord).Opened?
    ensures Recover(CleanCrashFiles(v, k, d), v.opts.maxRecord).Opened?
    ensures Recover(CleanCrashFiles(v, k, d), v.opts.maxRecord).lastSeq
         == Recover(CrashFiles(v, k), v.opts.maxRecord).lastSeq
    ensures |Recover(CrashFiles(v, k), v.opts.maxRecord).files| == |v.segs|
    ensures Recover(CleanCrashFiles(v, k, d), v.opts.maxRecord).files
         == Recover(CrashFiles(v, k), v.opts.maxRecord).files[d..]
  {
    hide LogBytes, Layout, Watermarks, Bounded, IndexSound, Tiling, Recover, Lost, AllEntries;
    LayoutSegs(v, h);
    TilingOrder(SegStarts(v.segs), OnFile(v), 0, d);
    DroppedKeeps(v, h, d, v.segs[d].start);
    var w := Dropped(v, d, v.segs[d].start);
    assert Cur(w) == Cur(v);
    assert CrashFiles(w, k) == CleanCrashFiles(v, k, d);
    CrashRecovers(v, h, k);
    CrashRecovers(w, h, k);
    SameLost(v, w, h, k);
    var n := |LogBytes(h, Cur(v).start, Lost(v, h, k), v.opts.maxRecord)|;
    assert CutLast(CleanCrashFiles(v, k, d), n) == CutLast(CrashFiles(v, k), n)[d..];
  }

  lemma SameLost(v: Log, w: Log, h: seq<seq<byte>>, k: nat)
    requires v.segs != [] && w.segs != [] && Cur(v) == Cur(w) && v.opts == w.opts && v.nextSeq == w.nextSeq
    requires v.opts.maxRecord >= 1 && Range(h, Cur(v).start, v.nextSeq)
    ensures Lost(v, h, k) == Lost(w, h, k)
  {
  }

  // ----- The segment report -----

  datatype SegmentInfo = SegmentInfo(start: nat, end: int, bytes: nat, current: bool)

  function Report(v: Log): (r: seq<SegmentInfo>)
    ensures |r| == |v.segs|
  {
    seq(|v.segs|, i requires 0 <= i < |v.segs| =>
      SegmentInfo(v.segs[i].start, LastOf(v.segs, v.nextSeq, i), Load(v, i), i == |v.segs| - 1))
  }

  // A report entry names a stretch of the history and its encoded size.
  ghost predicate Exact(info: SegmentInfo, h: seq<seq<byte>>, max: nat) {
    && max >= 1
    && 1 <= info.start <= info.end + 1 <= |h| + 1
    && info.bytes == |LogBytes(h, info.start, info.end + 1, max)|
  }

  // Neighbouring entries leave no gap and do not overlap; none but the current
  // segment is empty.
  predicate Adjacent(a: SegmentInfo, b: SegmentInfo) {
    a.start <= a.end == b.start - 1 && !a.current
  }

  lemma ReportEntry(v: Log, h: seq<seq<byte>>, i: nat)
    requires Layout(v, h) && i < |v.segs|
    ensures Exact(Report(v)[i], h, v.opts.maxRecord)
    ensures i < |v.segs| - 1 ==> Adjacent(Report(v)[i], Report(v)[i + 1])
  {
    hide LogBytes, Tiling;
    LayoutSegs(v, h);
    LayoutPending(v, h);
    var starts := SegStarts(v.segs);
    TilingOrder(starts, OnFile(v), i, |starts| - 1);
    assert starts[i] == v.segs[i].start;
    if i < |v.segs| - 1 {
      TilingOrder(starts, OnFile(v), i, i + 1);
      TilingOrder(starts, OnFile(v), i + 1, |starts| - 1);
      assert starts[i + 1] == v.segs[i + 1].start;
    } else {
      LogSplit(h, Cur(v).start, OnFile(v), v.nextSeq, v.opts.maxRecord);
    }
  }

  // The reported ranges tile the assigned sequences, and every reported size is
  // the encoded size of its range.
  lemma ReportIsExact(v: Log, h: seq<seq<byte>>)
    requires Inv(v, h)
    ensures v.segs != []
    ensures Report(v)[0].start == v.segs[0].start >= 1
    ensures Report(v)[|v.segs| - 1].end == v.nextSeq - 1 && Report(v)[|v.segs| - 1].current
    ensures forall i :: 0 <= i < |v.segs| - 1 ==> Adjacent(Report(v)[i], Report(v)[i + 1])
    ensures forall i :: 0 <= i < |v.segs| ==> Exact(Report(v)[i], h, v.opts.maxRecord)
  {
    hide LogBytes, Layout, Watermarks, Bounded, IndexSound, Tiling, Exact, Adjacent;
    LayoutSegs(v, h);
    forall i | 0 <= i < |v.segs|
      ensures Exact(Report(v)[i], h, v.opts.maxRecord)
      ensures i < |v.segs| - 1 ==> Adjacent(Report(v)[i], Report(v)[i + 1])
    {
      ReportEntry(v, h, i);
    }
  }

  // An indexed record is in the reported range of the segment segmentForSeq
  // finds for it, and the index names that segment.
  lemma ReportCoversIndex(v: Log, h: seq<seq<byte>>, s: nat)
    requires Inv(v, h) && s in v.index
    ensures v.segs != [] && v.segs[0].start <= s
    ensures var i := Home(SegStarts(v.segs), s);
            Report(v)[i].start <= s <= Report(v)[i].end && v.index[s].segment == Report(v)[i].start
  {
    hide LogBytes, RecordBytes, Watermarks, Bounded, Home, Tiling, Layout;
    LayoutSegs(v, h);
    var starts := SegStarts(v.segs);
    var i := Home(starts, s);
    HomeBounds(starts, OnFile(v), s);
    TilingOrder(starts, OnFile(v), i, |starts| - 1);
    PlaceAt(starts, h, s, v.opts.maxRecord, i);
    if i + 1 < |starts| {
      assert starts[i + 1] == v.segs[i + 1].start;
    }
  }

  // ----- Byte conservation -----

  // Counters of a handle whose first own sequence is e.
  ghost predicate Conserved(v: Log, h: seq<seq<byte>>, e: nat)
    requires v.opts.maxRecord >= 1
  {
    && v.durable <= |h| && 1 <= e <= v.durable + 1
    && v.bytesWritten == |LogBytes(h, e, v.durable + 1, v.opts.maxRecord)|
  }

  lemma OpenConserves(v: Log, h: seq<seq<byte>>)
    requires Inv(v, h) && v.bytesWritten == 0 && v.durable + 1 == v.nextSeq
    ensures Conserved(v, h, v.nextSeq)
  {
    LayoutSegs(v, h);
    LogEmpty(h, v.nextSeq, v.opts.maxRecord);
  }

  lemma FlushConserves(v: Log, h: seq<seq<byte>>, io: FlushIO, e: nat)
    requires Inv(v, h) && v.segs != [] && RollbackWorks(io) && Conserved(v, h, e)
    ensures Flush(v, io).log.opts == v.opts && Conserved(Flush(v, io).log, h, e)
  {
    hide LogBytes, Tiling, IndexSound, Bounded, Layout;
    LayoutSegs(v, h);
    LayoutPending(v, h);
    LogSplit(h, e, v.durable + 1, OnFile(v), v.opts.maxRecord);
    LogSplit(h, e, OnFile(v), v.nextSeq, v.opts.maxRecord);
  }

  lemma PutConserves(v: Log, p: seq<byte>, h: seq<seq<byte>>, e: nat)
    requires v.segs != [] && v.opts.maxRecord >= 1 && Conserved(v, h, e)
    ensures Conserved(Put(v, p), h + [p], e)
  {
    hide LogBytes, RecordBytes;
    LogOfPrefix(h, p, e, v.durable + 1, v.opts.maxRecord);
  }

  // Appending counts exactly the bytes of what it assigned.
  lemma AppendConserves(v: Log, p: seq<byte>, force: bool, io: AppendIO, h: seq<seq<byte>>, e: nat)
    requires Inv(v, h) && v.segs != [] && Conserved(v, h, e)
    requires RollbackWorks(io.rotate) && RollbackWorks(io.flush)
    requires v.nextSeq < 0x1_0000_0000_0000_0000
    ensures var r := Append(v, p, force, io);
            && r.log.opts == v.opts
            && Conserved(r.log, if r.log.nextSeq == v.nextSeq then h else h + [p], e)
  {
    hide LogBytes, RecordBytes, Layout, Watermarks, IndexSound, Bounded, Flush, Conserved;
    if |p| <= v.opts.maxPayload {
      var total := |RecordBytes(v.nextSeq, p, v.opts.maxRecord)|;
      RoomKeeps(v, p, io, h);
      FlushConserves(v, h, io.rotate, e);
      var room := Room(v, total, io);
      FlushConfirmsAll(v, h, io.rotate);
      RoomConserves(v, total, io, h, e);
      if room.ok && Storable(p, v.opts.maxRecord) {
        PutKeeps(room.log, p, h);
        PutConserves(room.log, p, h, e);
        FlushConserves(Put(room.log, p), h + [p], io.flush, e);
        FlushConfirmsAll(Put(room.log, p), h + [p], io.flush);
      } else {
        LowConserves(room.log, h, e, v.nextSeq);
      }
    }
  }

  lemma RoomConserves(v: Log, total: nat, io: AppendIO, h: seq<seq<byte>>, e: nat)
    requires v.segs != [] && v.opts.maxRecord >= 1 && Conserved(v, h, e)
    requires Flush(v, io.rotate).log.opts == v.opts && Conserved(Flush(v, io.rotate).log, h, e)
    ensures Room(v, total, io).log.opts == v.opts && Conserved(Room(v, total, io).log, h, e)
  {
    hide Flush, LogBytes;
  }

  lemma LowConserves(v: Log, h: seq<seq<byte>>, e: nat, low: nat)
    requires v.opts.maxRecord >= 1 && Conserved(v, h, e)
    ensures Conserved(v.(low := low), h, e) && Conserved(v.(low := v.low), h, e)
  {
    hide LogBytes;
  }

  // The reading of the counters: what was confirmed, written and buffered is
  // together the encoding of everything appended through this handle.
  lemma ConservedTotal(v: Log, h: seq<seq<byte>>, e: nat)
    requires Inv(v, h) && Conserved(v, h, e)
    ensures Range(h, e, v.nextSeq)
    ensures v.bytesWritten + v.unsyncedBytes + |v.pending| == |LogBytes(h, e, v.nextSeq, v.opts.maxRecord)|
  {
    hide LogBytes, Tiling, IndexSound, Bounded;
    LayoutSegs(v, h);
    LayoutPending(v, h);
    LogSplit(h, e, v.durable + 1, OnFile(v), v.opts.maxRecord);
    LogSplit(h, e, OnFile(v), v.nextSeq, v.opts.maxRecord);
  }
}
