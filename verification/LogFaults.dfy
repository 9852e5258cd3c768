// The deliberate damage of Corrupt (internal/wal/replay.go) and what Read,
// Verify, Replay and Recover make of it.
module LogFaults {
  import opened Bytes
  import opened Framing
  import opened Scan
  import opened History
  import opened Recovery
  import opened LogState
  import opened LogSteps
  import opened LogCrash
  import opened LogReads
  import opened LogDamage

  // one[0] ^= 0xff
  function Flipped(b: byte): byte { 255 - b }

  function FlipByte(file: seq<byte>, at: nat): (other: seq<byte>)
    requires at < |file|
    ensures |other| == |file|
  {
    file[at := Flipped(file[at])]
  }

  // One byte of one file flipped, and the file synced or not.
  function FlipIn(v: Log, i: nat, at: nat, synced: bool): Log
    requires i < |v.segs| && at < |v.segs[i].bytes|
  {
    var s := v.segs[i];
    v.(segs := v.segs[i := Seg(s.start, FlipByte(s.bytes, at), if synced then |s.bytes| else s.synced)])
  }

  function Flip(v: Log, i: nat, at: nat): Log
    requires i < |v.segs| && at < |v.segs[i].bytes|
  {
    FlipIn(v, i, at, true)
  }

  datatype FaultIO = FaultIO(flush: FlushIO, readErr: bool, writeErr: bool, syncErr: bool) {
    predicate Works() { !readErr && !writeErr && !syncErr }
  }

  datatype FaultOutcome = Injected | FaultNotFound | FaultFlushFailed | FaultIoFailed

  // Flips the first byte of the stored checksum of record s.
  function Inject(v: Log, s: nat, io: FaultIO): (Log, FaultOutcome)
    requires v.segs != []
  {
    var f := Flush(v, io.flush);
    if !f.ok then (f.log, FaultFlushFailed)
    else if s !in f.log.index then (f.log, FaultNotFound)
    else
      match SegmentByStart(f.log.segs, f.log.index[s].segment, 0)
      case None => (f.log, FaultNotFound)
      case Some(i) =>
        var at := f.log.index[s].offset + 3;
        if io.readErr || at >= |f.log.segs[i].bytes| || io.writeErr then (f.log, FaultIoFailed)
        else (FlipIn(f.log, i, at, !io.syncErr), if io.syncErr then FaultIoFailed else Injected)
  }

  // ----- One frame -----

  lemma FirstFragment(file: seq<byte>, s: nat, p: seq<byte>, max: nat, base: nat)
    requires Legible(s, p, max, max)
    requires var f := RecordBytes(s, p, max); base + |f| <= |file| && file[base..base + |f|] == f
    ensures DecodeAt(file, base, max).Good?
    ensures |RecordBytes(s, p, max)| >= HEADER
  {
    hide Frame, DecodeAt, Checksum.RecordCrc;
    var r := FragmentAt(s, p, max, 0);
    var parts := Fragments(s, p, max);
    assert parts[0] == r;
    assert RecordBytes(s, p, max) == Frame(r) + Frames(parts[1..]);
    FragmentWritable(s, p, max, 0, max);
    var n := |RecordBytes(s, p, max)|;
    SubSlice(file, base, base + n, 0, |Frame(r)|);
    FrameDecodes(file, base, max, r);
  }

  lemma FlippedFrame(file: seq<byte>, s: nat, p: seq<byte>, max: nat, base: nat)
    requires Legible(s, p, max, max)
    requires var f := RecordBytes(s, p, max); base + |f| <= |file| && file[base..base + |f|] == f
    ensures base + HEADER <= |file|
    ensures DecodeAt(FlipByte(file, base + 3), base, max) == Bad(BadChecksum)
  {
    hide DecodeAt, RecordBytes;
    FirstFragment(file, s, p, max, base);
    var other := FlipByte(file, base + 3);
    var at := base + 3;
    assert file[..at] == other[..at] && file[at + 1..] == other[at + 1..];
    assert file[at..at + 1] == [file[at]] && other[at..at + 1] == [other[at]];
    assert Damaged(file, other, at, 1);
    DamageCaught(file, other, base, max, at, 1);
  }

  // ----- Reads of the damaged log -----

  // The log with record s damaged: nothing else about it has changed.
  ghost predicate HitAt(v: Log, w: Log, h: seq<seq<byte>>, s: nat, i: nat, end: nat) {
    && Inv(v, h) && s in v.index && s < OnFile(v)
    && i < |v.segs| && 1 <= v.segs[i].start <= s < end <= |h| + 1
    && v.segs[i].bytes == LogBytes(h, v.segs[i].start, end, v.opts.maxRecord)
    && v.index[s] == LocationOf(EntryOf(h, v.segs[i].start, s, v.opts.maxRecord))
    && SegmentByStart(v.segs, v.segs[i].start, 0) == Some(i)
    && v.index[s].offset + 3 < |v.segs[i].bytes|
    && w == Flip(v, i, v.index[s].offset + 3)
  }

  lemma {:induction false} SameSegment(v: Log, w: Log, start: nat, from: nat)
    requires |v.segs| == |w.segs| && forall j :: 0 <= j < |v.segs| ==> w.segs[j].start == v.segs[j].start
    ensures SegmentByStart(w.segs, start, from) == SegmentByStart(v.segs, start, from)
    decreases |v.segs| - from
  {
    if from < |v.segs| {
      SameSegment(v, w, start, from + 1);
    }
  }

  lemma HitReads(v: Log, w: Log, h: seq<seq<byte>>, s: nat, i: nat, end: nat)
    requires HitAt(v, w, h, s, i, end)
    ensures DecodeAt(w.segs[i].bytes, v.index[s].offset, v.opts.maxRecord) == Bad(BadChecksum)
    ensures ReadIndexed(w, s)
         == ReadFailed(CorruptAt(Corruption(v.index[s].segment, v.index[s].offset, Undecodable(BadChecksum))))
  {
    hide LogBytes, RecordBytes, DecodeAt, Layout, Watermarks, IndexSound, Bounded;
    var a, max := v.segs[i].start, v.opts.maxRecord;
    var base := v.index[s].offset;
    RecordInside(h, a, s, end, max);
    FlippedFrame(v.segs[i].bytes, s, h[s - 1], max, base);
    RecordSize(s, h[s - 1], max);
    SameSegment(v, w, a, 0);
  }

  lemma OthersRead(v: Log, w: Log, h: seq<seq<byte>>, s: nat, i: nat, end: nat, t: nat)
    requires HitAt(v, w, h, s, i, end)
    requires t in v.index && t < OnFile(v) && t != s
    ensures 1 <= t <= |h| && ReadIndexed(w, t) == Payload(h[t - 1])
  {
    hide LogBytes, RecordBytes, Layout, Watermarks, IndexSound, Bounded, ReadFrom, Home;
    var max := v.opts.maxRecord;
    var j, stop := WhereIs(v, h, t);
    IndexReadsBack(v, h, t);
    SameSegment(v, w, v.segs[j].start, 0);
    if j == i {
      var a := v.segs[i].start;
      assert end == stop by { SameEnd(v, h, s, i, end, stop); }
      RecordInside(h, a, t, end, max);
      RecordInside(h, a, s, end, max);
      RecordSize(s, h[s - 1], max);
      var base, n := |LogBytes(h, a, t, max)|, |RecordBytes(t, h[t - 1], max)|;
      var at := v.index[s].offset + 3;
      if t < s {
        LogMonotone(h, a, t + 1, s, max);
      } else {
        LogMonotone(h, a, s + 1, t, max);
      }
      assert at < base || base + n <= at;
      assert w.segs[i].bytes[base..base + n] == v.segs[i].bytes[base..base + n];
      ReadRecord(w.segs[i].bytes, max, t, h[t - 1], max, base);
    }
  }

  // Equal bytes, equal ends: a stretch is determined by its length.
  lemma SameEnd(v: Log, h: seq<seq<byte>>, s: nat, i: nat, end: nat, stop: nat)
    requires v.opts.maxRecord >= 1 && i < |v.segs|
    requires Range(h, v.segs[i].start, end) && Range(h, v.segs[i].start, stop)
    requires LogBytes(h, v.segs[i].start, end, v.opts.maxRecord) == LogBytes(h, v.segs[i].start, stop, v.opts.maxRecord)
    ensures end == stop
  {
    hide LogBytes;
    var lo, hi := if end < stop then end else stop, if end < stop then stop else end;
    LogSplit(h, v.segs[i].start, lo, hi, v.opts.maxRecord);
    LogGrows(h, lo, hi, v.opts.maxRecord);
  }

  // Verify and Replay stop exactly there, with exactly the records before it.
  lemma {:induction false} HitWalk(v: Log, w: Log, h: seq<seq<byte>>, s: nat, i: nat, end: nat, from: nat)
    requires HitAt(v, w, h, s, i, end)
    requires 1 <= from <= s <= v.durable
    ensures WalkFrom(w, from)
         == Walk(Expected(v, h, from, s),
                 Some(CorruptAt(Corruption(v.index[s].segment, v.index[s].offset, Undecodable(BadChecksum)))))
    decreases s - from
  {
    hide Inv, ReadIndexed;
    DurableOnFile(v, h);
    if from == s {
      HitReads(v, w, h, s, i, end);
    } else {
      HitWalk(v, w, h, s, i, end, from + 1);
      if from in v.index {
        OthersRead(v, w, h, s, i, end, from);
      }
    }
  }

  // ----- Recovery of the damaged log -----

  lemma EarlierThanHit(v: Log, w: Log, h: seq<seq<byte>>, s: nat, i: nat, end: nat)
    requires HitAt(v, w, h, s, i, end)
    ensures var files := Files(w);
            forall k, l :: 0 <= k && l == k + 1 <= i ==>
              && Range(h, files[k].start, files[l].start)
              && files[k].bytes == LogBytes(h, files[k].start, files[l].start, v.opts.maxRecord)
  {
    hide LogBytes, RecordBytes, DecodeAt, Watermarks, IndexSound, Bounded;
    LayoutSegs(v, h);
    var files := Files(w);
    forall k, l | 0 <= k && l == k + 1 <= i
      ensures Range(h, files[k].start, files[l].start)
      ensures files[k].bytes == LogBytes(h, files[k].start, files[l].start, v.opts.maxRecord)
    {
      assert Closed(h, v.segs[k], v.segs[l], v.opts.maxRecord);
      assert w.segs[k] == v.segs[k] && w.segs[l].start == v.segs[l].start;
    }
  }

  lemma HitRejected(v: Log, w: Log, h: seq<seq<byte>>, s: nat, i: nat, end: nat)
    requires HitAt(v, w, h, s, i, end)
    ensures w.segs[0].start >= 1
    ensures Recover(Files(w), v.opts.maxRecord)
         == Rejected(Corruption(v.index[s].segment, v.index[s].offset, Undecodable(BadChecksum)))
  {
    hide LogBytes, RecordBytes, DecodeAt, RecoverFrom, Tiling, Layout, Watermarks, IndexSound, Bounded;
    LayoutSegs(v, h);
    var a, max := v.segs[i].start, v.opts.maxRecord;
    var base := v.index[s].offset;
    var files := Files(w);
    HitReads(v, w, h, s, i, end);
    RecordInside(h, a, s, end, max);
    LogSplit(h, a, s, end, max);
    assert files[i].bytes[..base] == v.segs[i].bytes[..base] == LogBytes(h, a, s, max);
    EarlierThanHit(v, w, h, s, i, end);
    assert files[0].start == v.segs[0].start;
    FirstBefore(s, h[s - 1], max, 0);
    BadRecover(files, 0, i, h, s, 0, max, BadChecksum, Initial(files[0].start - 1));
  }

  // ----- The theorem -----

  lemma InjectHits(v: Log, h: seq<seq<byte>>, s: nat, io: FaultIO) returns (i: nat, end: nat)
    requires Inv(v, h) && v.segs != [] && RollbackWorks(io.flush)
    requires Flush(v, io.flush).ok && s in v.index && io.Works()
    ensures var f := Flush(v, io.flush).log;
            && f.segs != [] && f.index == v.index
            && f.durable == f.nextSeq - 1 == v.nextSeq - 1 && OnFile(f) == f.nextSeq
            && 1 <= s < f.nextSeq == |h| + 1
            && HitAt(f, Inject(v, s, io).0, h, s, i, end)
            && Inject(v, s, io).1 == Injected
  {
    hide LogBytes, RecordBytes, DecodeAt, Layout, Watermarks, IndexSound, Bounded;
    FlushKeepsUnlessRollbackFails(v, h, io.flush);
    FlushConfirmsAll(v, h, io.flush);
    var f := Flush(v, io.flush).log;
    DurableOnFile(f, h);
    IndexedRange(f, h, s);
    LayoutSegs(f, h);
    i, end := WhereIs(f, h, s);
    RecordInside(h, f.segs[i].start, s, end, f.opts.maxRecord);
    RecordSize(s, h[s - 1], f.opts.maxRecord);
  }

  // The first byte of the checksum field of record s, complemented, and no other
  // byte of any file.
  ghost predicate OneByteFlipped(f: Log, w: Log, s: nat, synced: bool) {
    && s in f.index && w == f.(segs := w.segs)
    && exists i :: IsFlipped(f, w, s, i, synced)
  }

  ghost predicate IsFlipped(f: Log, w: Log, s: nat, i: nat, synced: bool)
    requires s in f.index
  {
    var at := f.index[s].offset + 3;
    && i < |f.segs| == |w.segs| && f.segs[i].start == f.index[s].segment && at < |f.segs[i].bytes|
    && (forall j :: 0 <= j < |f.segs| && j != i ==> w.segs[j] == f.segs[j])
    && w.segs[i] == Seg(f.segs[i].start, f.segs[i].bytes[at := 255 - f.segs[i].bytes[at]],
                        if synced then |f.segs[i].bytes| else f.segs[i].synced)
  }

  // Each outcome of Corrupt, exactly, and what it changes.
  lemma InjectOutcomes(v: Log, h: seq<seq<byte>>, s: nat, io: FaultIO)
    requires Inv(v, h) && v.segs != [] && RollbackWorks(io.flush)
    ensures var f := Flush(v, io.flush);
            var (w, outcome) := Inject(v, s, io);
            && (outcome == FaultFlushFailed <==> !f.ok)
            && (outcome == FaultNotFound <==> f.ok && s !in v.index)
            && (outcome == Injected <==> f.ok && s in v.index && io.Works())
            && (if f.ok && s in v.index && !io.readErr && !io.writeErr then OneByteFlipped(f.log, w, s, !io.syncErr)
                else w == f.log)
  {
    hide LogBytes, RecordBytes, DecodeAt, Inv, Flush;
    var f := Flush(v, io.flush).log;
    if Flush(v, io.flush).ok && s in v.index {
      var i, end := InjectHits(v, h, s, io.(readErr := false, writeErr := false, syncErr := false));
      if !io.readErr && !io.writeErr {
        assert IsFlipped(f, Inject(v, s, io).0, s, i, !io.syncErr);
      }
    }
  }

  lemma InjectAgain(v: Log, w: Log, h: seq<seq<byte>>, s: nat, i: nat, end: nat, io: FaultIO)
    requires HitAt(v, w, h, s, i, end) && w.segs != []
    requires v.pending == [] && v.unsyncedHigh == 0 && io.Works()
    ensures Inject(w, s, io) == (v, Injected)
  {
    hide LogBytes, RecordBytes, DecodeAt, Inv;
    SameSegment(v, w, v.segs[i].start, 0);
    HealthySync(v, h, i);
    FlipTwice(v, w, h, s, i, end);
    assert Flush(w, io.flush) == FlushResult(w, true);
  }

  // Injecting a fault into record s of a healthy log is exact and local: reads,
  // walks and recovery all name the segment and offset of s, everything else
  // still reads, no counter moves, and doing it again restores the file.
  lemma FaultIsExact(v: Log, h: seq<seq<byte>>, s: nat, io: FaultIO)
    requires Inv(v, h) && v.segs != [] && RollbackWorks(io.flush)
    requires Flush(v, io.flush).ok && s in v.index && io.Works()
    ensures 1 <= s <= |h|
    ensures var f := Flush(v, io.flush).log;
            var (w, outcome) := Inject(v, s, io);
            var where := Corruption(v.index[s].segment, v.index[s].offset, Undecodable(BadChecksum));
            && outcome == Injected
            && w == f.(segs := w.segs)
            && ReadIndexed(w, s) == ReadFailed(CorruptAt(where))
            && (forall t :: t in v.index && t != s ==> 1 <= t <= |h| && ReadIndexed(w, t) == Payload(h[t - 1]))
            && WalkFrom(w, 1) == Walk(Expected(f, h, 1, s), Some(CorruptAt(where)))
            && w.segs != [] && w.segs[0].start >= 1
            && Recover(Files(w), w.opts.maxRecord) == Rejected(where)
            && Inject(w, s, io) == (f, Injected)
  {
    hide LogBytes, RecordBytes, DecodeAt, Layout, Watermarks, IndexSound, Bounded,
         Recover, ReadIndexed, WalkFrom, Expected, Inject, Flush;
    var i, end := InjectHits(v, h, s, io);
    var f, w := Flush(v, io.flush).log, Inject(v, s, io).0;
    FlushedClean(v, h, io.flush);
    HitReads(f, w, h, s, i, end);
    forall t | t in v.index && t != s
      ensures 1 <= t <= |h| && ReadIndexed(w, t) == Payload(h[t - 1])
    {
      IndexedRange(f, h, t);
      OthersRead(f, w, h, s, i, end, t);
    }
    HitWalk(f, w, h, s, i, end, 1);
    HitRejected(f, w, h, s, i, end);
    InjectAgain(f, w, h, s, i, end, io);
  }

  lemma FlipTwice(v: Log, w: Log, h: seq<seq<byte>>, s: nat, i: nat, end: nat)
    requires HitAt(v, w, h, s, i, end)
    requires v.segs[i].synced == |v.segs[i].bytes|
    ensures Flip(w, i, v.index[s].offset + 3) == v
  {
    hide Inv, LogBytes, RecordBytes;
    var at := v.index[s].offset + 3;
    assert FlipByte(FlipByte(v.segs[i].bytes, at), at) == v.segs[i].bytes;
    assert Flip(w, i, at).segs == v.segs;
  }
}
