// The state of an open log and its steps, as values: what internal/wal/wal.go,
// fsync.go, buffer.go and replay.go do between taking the mutex and releasing
// it. Every outcome of the file system is a parameter.
module LogState {
  import opened Bytes
  import opened Framing
  import opened History
  import opened Recovery

  datatype Options = Options(
    syncAlways: bool, batchSize: nat, maxSegment: nat, maxRecord: nat, maxPayload: nat)
  {
    // What options.go accepts.
    predicate Valid() {
      batchSize >= HEADER && maxRecord >= 1 && maxPayload >= maxRecord && maxSegment >= HEADER + maxRecord
    }
  }

  // A segment file and how much of it an fsync has confirmed.
  datatype Seg = Seg(start: nat, bytes: seq<byte>, synced: nat)

  datatype Log = Log(
    opts: Options,
    segs: seq<Seg>,                  // the last one is the current segment
    pending: seq<byte>, low: nat, high: nat,
    index: map<nat, Location>,
    durable: nat, unsyncedHigh: nat, unsyncedBytes: nat, nextSeq: nat,
    bytesWritten: nat)

  function Cur(v: Log): Seg
    requires v.segs != []
  {
    v.segs[|v.segs| - 1]
  }

  function WithCur(v: Log, s: Seg): (w: Log)
    requires v.segs != []
    ensures w.segs != [] && w.opts == v.opts && Cur(w) == s && |w.segs| == |v.segs|
  {
    v.(segs := v.segs[|v.segs| - 1 := s])
  }

  function SegStarts(segs: seq<Seg>): (s: seq<nat>)
    ensures |s| == |segs|
  {
    seq(|segs|, i requires 0 <= i < |segs| => segs[i].start)
  }

  // ----- Flushing -----

  // How one flush goes: bytes the write got onto the file before it returned,
  // whether it, the rollback and the fsync failed.
  datatype FlushIO = FlushIO(wrote: nat, writeErr: bool, truncErr: bool, syncErr: bool)

  datatype FlushResult = FlushResult(log: Log, ok: bool)

  function Wrote(v: Log, io: FlushIO): nat {
    if io.wrote < |v.pending| then io.wrote else |v.pending|
  }

  predicate WriteFails(v: Log, io: FlushIO) {
    v.pending != [] && (io.writeErr || Wrote(v, io) != |v.pending|)
  }

  // The write got somewhere, failed, and could not be undone.
  predicate RollbackFails(v: Log, io: FlushIO) {
    WriteFails(v, io) && Wrote(v, io) > 0 && io.truncErr
  }

  // The taken buffer is on the file, not yet confirmed.
  function Written(v: Log): (w: Log)
    requires v.segs != []
    ensures w.segs != [] && w.opts == v.opts
  {
    if v.pending == [] then v
    else WithCur(v, Cur(v).(bytes := Cur(v).bytes + v.pending))
         .(pending := [], low := 0, high := 0, unsyncedHigh := v.high,
           unsyncedBytes := v.unsyncedBytes + |v.pending|)
  }

  function Synced(v: Log): Log
    requires v.segs != []
  {
    WithCur(v, Cur(v).(synced := |Cur(v).bytes|))
    .(durable := v.unsyncedHigh, bytesWritten := v.bytesWritten + v.unsyncedBytes,
      unsyncedHigh := 0, unsyncedBytes := 0)
  }

  function Flush(v: Log, io: FlushIO): (r: FlushResult)
    requires v.segs != []
    ensures r.log.segs != [] && r.log.opts == v.opts && r.log.nextSeq == v.nextSeq && r.log.index == v.index
  {
    if v.pending == [] && v.unsyncedHigh == 0 then FlushResult(v, true)
    else if RollbackFails(v, io) then
      FlushResult(WithCur(v, Cur(v).(bytes := Cur(v).bytes + v.pending[..Wrote(v, io)]))
                  .(pending := [], low := 0, high := 0), false)
    else if WriteFails(v, io) then FlushResult(v, false)
    else if io.syncErr then FlushResult(Written(v), false)
    else FlushResult(Synced(Written(v)), true)
  }

  // ----- Appending -----

  datatype AppendIO = AppendIO(rotate: FlushIO, createErr: bool, flush: FlushIO)

  datatype Outcome =
    | Assigned(s: nat)
    | TooBig           // refused: over the payload limit, or not encodable
    | RotateFailed     // refused before a sequence was assigned
    | FlushFailed      // assigned and buffered, but not confirmed

  datatype AppendResult = AppendResult(log: Log, outcome: Outcome)

  function Oversized(v: Log, total: nat): bool { total > v.opts.maxSegment }

  predicate NeedsRotation(v: Log, total: nat)
    requires v.segs != []
  {
    if Oversized(v, total) then Cur(v).bytes != [] || v.pending != []
    else |Cur(v).bytes| + |v.pending| + total > v.opts.maxSegment
  }

  // openSegment with O_EXCL: a new, empty segment named after the next sequence.
  function Created(v: Log): Log {
    v.(segs := v.segs + [Seg(v.nextSeq, [], 0)])
  }

  function Rotate(v: Log, io: FlushIO, createErr: bool): (r: FlushResult)
    requires v.segs != []
    ensures r.log.segs != [] && r.log.opts == v.opts
  {
    var f := Flush(v, io);
    if !f.ok then f
    else if createErr || v.nextSeq in SegStarts(f.log.segs) then FlushResult(f.log, false)
    else FlushResult(Created(f.log), true)
  }

  // The buffered record and its index entry.
  function Put(v: Log, p: Payload): (w: Log)
    requires v.segs != [] && v.opts.maxRecord >= 1
    ensures w.segs != [] && w.opts == v.opts
  {
    var bytes := RecordBytes(v.nextSeq, p, v.opts.maxRecord);
    v.(pending := v.pending + bytes,
       low := if v.pending == [] then v.nextSeq else v.low,
       high := v.nextSeq,
       index := v.index[v.nextSeq := Location(Cur(v).start, |Cur(v).bytes| + |v.pending|, |bytes|)],
       nextSeq := v.nextSeq + 1)
  }

  predicate ShouldSync(v: Log, force: bool) {
    force || v.opts.syncAlways || |v.pending| >= v.opts.batchSize
  }

  function Room(v: Log, total: nat, io: AppendIO): (r: FlushResult)
    requires v.segs != []
    ensures r.log.segs != [] && r.log.opts == v.opts
  {
    if NeedsRotation(v, total) then Rotate(v, io.rotate, io.createErr) else FlushResult(v, true)
  }

  function Append(v: Log, p: Payload, force: bool, io: AppendIO): (r: AppendResult)
    requires v.segs != [] && v.opts.maxRecord >= 1
    ensures r.log.segs != [] && r.log.opts == v.opts
  {
    if |p| > v.opts.maxPayload then AppendResult(v, TooBig)
    else
      var room := Room(v, |RecordBytes(v.nextSeq, p, v.opts.maxRecord)|, io);
      if !room.ok then AppendResult(room.log, RotateFailed)
      else if !Storable(p, v.opts.maxRecord) then
        AppendResult(room.log.(low := if room.log.pending == [] then v.nextSeq else room.log.low), TooBig)
      else
        var w := Put(room.log, p);
        if !ShouldSync(w, force) then AppendResult(w, Assigned(v.nextSeq))
        else
          var f := Flush(w, io.flush);
          AppendResult(f.log, if f.ok then Assigned(v.nextSeq) else FlushFailed)
  }

  // ----- The invariant -----

  // First sequence that is not on the file yet.
  function OnFile(v: Log): nat { if v.pending == [] then v.nextSeq else v.low }

  // A segment that is not the current one: whole records up to the next start,
  // all of them synced.
  ghost predicate Closed(h: seq<Payload>, s: Seg, next: Seg, max: nat)
    requires max >= 1
  {
    && Range(h, s.start, next.start)
    && s.bytes == LogBytes(h, s.start, next.start, max)
    && s.synced == |s.bytes|
  }

  // Segments in order hold the written history and the buffer holds the rest.
  ghost predicate Layout(v: Log, h: seq<Payload>) {
    var max := v.opts.maxRecord;
    && max >= 1
    && v.nextSeq == |h| + 1
    && Tiling(SegStarts(v.segs), OnFile(v))
    && OnFile(v) <= v.nextSeq
    && (forall i, j :: 0 <= i && j == i + 1 < |v.segs| ==> Closed(h, v.segs[i], v.segs[j], max))
    && Range(h, Cur(v).start, OnFile(v)) && Range(h, OnFile(v), v.nextSeq)
    && Cur(v).bytes == LogBytes(h, Cur(v).start, OnFile(v), max)
    && v.pending == LogBytes(h, OnFile(v), v.nextSeq, max)
    && (v.pending != [] ==> v.high == v.nextSeq - 1)
  }

  // The assigned sequences split into durable, written but unsynced, pending.
  ghost predicate Watermarks(v: Log, h: seq<Payload>)
    requires Layout(v, h)
  {
    && Cur(v).start <= v.durable + 1 <= OnFile(v)
    && Cur(v).synced == |LogBytes(h, Cur(v).start, v.durable + 1, v.opts.maxRecord)|
    && v.unsyncedBytes == |LogBytes(h, v.durable + 1, OnFile(v), v.opts.maxRecord)|
    && v.unsyncedHigh == (if v.durable + 1 == OnFile(v) then 0 else OnFile(v) - 1)
  }

  // Entries point where their records are.
  ghost predicate IndexSound(v: Log, h: seq<Payload>)
    requires Layout(v, h)
  {
    forall s :: s in v.index ==>
      && v.segs[0].start <= s < v.nextSeq
      && v.index[s] == Place(SegStarts(v.segs), h, s, v.opts.maxRecord)
  }

  ghost predicate Indexed(v: Log, from: nat) {
    forall s :: from <= s < v.nextSeq ==> s in v.index
  }

  // Every record from `from` on is in a retained segment and indexed.
  ghost predicate Covers(v: Log, from: nat) {
    v.segs != [] && v.segs[0].start <= from && Indexed(v, from)
  }

  // Bytes of segment i, with the buffer counted into the current one.
  function Load(v: Log, i: nat): nat
    requires i < |v.segs|
  {
    |v.segs[i].bytes| + (if i == |v.segs| - 1 then |v.pending| else 0)
  }

  function Until(v: Log, i: nat): nat
    requires i < |v.segs|
  {
    EndOf(SegStarts(v.segs), v.nextSeq, i)
  }

  ghost predicate InLimit(v: Log, i: nat)
    requires i < |v.segs|
  {
    Load(v, i) <= v.opts.maxSegment || Until(v, i) == v.segs[i].start + 1
  }

  // No segment exceeds the limit unless one oversized record has it to itself.
  ghost predicate Bounded(v: Log) {
    forall i :: 0 <= i < |v.segs| ==> InLimit(v, i)
  }

  ghost predicate Inv(v: Log, h: seq<Payload>) {
    && v.opts.Valid()
    && Recordable(h, v.opts.maxRecord)
    && Layout(v, h)
    && Watermarks(v, h)
    && IndexSound(v, h)
    && Bounded(v)
  }

  // ----- Flushing keeps it -----

  // Index and bounds depend only on where segments start and how full they are.
  lemma SameShape(v: Log, w: Log, h: seq<Payload>)
    requires Inv(v, h) && Layout(w, h)
    requires w.opts == v.opts && w.index == v.index && w.nextSeq == v.nextSeq
    requires SegStarts(w.segs) == SegStarts(v.segs)
    requires forall i :: 0 <= i < |v.segs| ==> Load(w, i) == Load(v, i)
    ensures IndexSound(w, h) && Bounded(w)
  {
    hide Place, LogBytes, Tiling, Layout, Watermarks;
    assert |w.segs| == |SegStarts(w.segs)| == |v.segs|;
    forall i | 0 <= i < |v.segs|
      ensures w.segs[i].start == v.segs[i].start
      ensures InLimit(w, i)
    {
      assert InLimit(v, i);
      assert SegStarts(w.segs)[i] == SegStarts(v.segs)[i];
    }
    assert v.segs != [] by { LayoutSegs(v, h); }
  }

  lemma LayoutSegs(v: Log, h: seq<Payload>)
    requires Layout(v, h)
    ensures v.segs != [] && Tiling(SegStarts(v.segs), OnFile(v)) && v.opts.maxRecord >= 1
    ensures 1 <= v.segs[0].start <= Cur(v).start <= OnFile(v) <= v.nextSeq == |h| + 1
  {
    hide LogBytes;
    TilingOrder(SegStarts(v.segs), OnFile(v), 0, |v.segs| - 1);
  }

  lemma WrittenLayout(v: Log, h: seq<Payload>)
    requires Layout(v, h) && v.pending != []
    ensures Layout(Written(v), h)
    ensures v.low < v.nextSeq
    ensures Cur(Written(v)).bytes == LogBytes(h, Cur(v).start, v.nextSeq, v.opts.maxRecord)
  {
    hide LogBytes, Tiling;
    LayoutSegs(v, h);
    var w := Written(v);
    var max := v.opts.maxRecord;
    assert SegStarts(w.segs) == SegStarts(v.segs);
    LogSplit(h, Cur(v).start, OnFile(v), v.nextSeq, max);
    LogEmpty(h, v.nextSeq, max);
    WiderTiling(SegStarts(v.segs), OnFile(v), v.nextSeq);
  }

  lemma LogEmpty(h: seq<Payload>, a: nat, max: nat)
    requires max >= 1 && Range(h, a, a)
    ensures LogBytes(h, a, a, max) == []
  {
  }

  lemma WiderTiling(starts: seq<nat>, b: nat, c: nat)
    requires Tiling(starts, b) && b <= c
    ensures Tiling(starts, c)
  {
  }

  lemma WrittenKeeps(v: Log, h: seq<Payload>)
    requires Inv(v, h) && v.pending != []
    ensures Inv(Written(v), h)
    ensures Written(v).unsyncedHigh == v.nextSeq - 1
  {
    hide LogBytes, Tiling, Layout, IndexSound, Bounded;
    LayoutSegs(v, h);
    var w := Written(v);
    WrittenLayout(v, h);
    LayoutPending(v, h);
    LogSplit(h, v.durable + 1, OnFile(v), v.nextSeq, v.opts.maxRecord);
    assert SegStarts(w.segs) == SegStarts(v.segs);
    SameShape(v, w, h);
  }

  lemma LayoutPending(v: Log, h: seq<Payload>)
    requires Layout(v, h)
    ensures Range(h, OnFile(v), v.nextSeq) && Range(h, Cur(v).start, OnFile(v))
    ensures v.pending == LogBytes(h, OnFile(v), v.nextSeq, v.opts.maxRecord)
    ensures Cur(v).bytes == LogBytes(h, Cur(v).start, OnFile(v), v.opts.maxRecord)
    ensures v.pending != [] ==> v.high == v.nextSeq - 1 && v.low < v.nextSeq
  {
    hide Tiling, RecordBytes;
    assert OnFile(v) == v.nextSeq ==> LogBytes(h, OnFile(v), v.nextSeq, v.opts.maxRecord) == [];
  }

  lemma SyncedLayout(v: Log, h: seq<Payload>)
    requires Layout(v, h) && v.pending == []
    ensures Layout(Synced(v), h)
  {
    hide LogBytes, Tiling;
    LayoutSegs(v, h);
    assert SegStarts(Synced(v).segs) == SegStarts(v.segs);
  }

  lemma SyncedKeeps(v: Log, h: seq<Payload>)
    requires Inv(v, h) && v.pending == [] && v.unsyncedHigh != 0
    ensures Inv(Synced(v), h)
    ensures Synced(v).durable == v.nextSeq - 1
  {
    hide LogBytes, Tiling, Layout, IndexSound, Bounded;
    LayoutSegs(v, h);
    var w := Synced(v);
    SyncedLayout(v, h);
    LayoutPending(v, h);
    LogEmpty(h, v.nextSeq, v.opts.maxRecord);
    assert SegStarts(w.segs) == SegStarts(v.segs);
    SameShape(v, w, h);
  }

  // A flush keeps everything, unless a partial write could not be rolled back;
  // and then it never does, because the buffered records are gone.
  lemma FlushKeepsUnlessRollbackFails(v: Log, h: seq<Payload>, io: FlushIO)
    requires Inv(v, h)
    ensures Inv(Flush(v, io).log, h) <==> !RollbackFails(v, io)
  {
    hide LogBytes, Tiling, Layout, IndexSound, Bounded;
    LayoutSegs(v, h);
    LayoutPending(v, h);
    if RollbackFails(v, io) {
      assert OnFile(Flush(v, io).log) == v.nextSeq;
    } else if (v.pending == [] && v.unsyncedHigh == 0) || WriteFails(v, io) {
    } else {
      if v.pending != [] {
        WrittenKeeps(v, h);
      }
      if !io.syncErr {
        SyncedKeeps(Written(v), h);
      }
    }
  }

  // What a flush does to the watermarks: it confirms everything or nothing.
  lemma FlushConfirmsAll(v: Log, h: seq<Payload>, io: FlushIO)
    requires Inv(v, h)
    ensures var f := Flush(v, io);
            && f.log.nextSeq == v.nextSeq && f.log.index == v.index && f.log.opts == v.opts
            && SegStarts(f.log.segs) == SegStarts(v.segs)
            && (f.ok ==> f.log.durable == v.nextSeq - 1 && f.log.pending == [])
            && (!f.ok ==> f.log.durable == v.durable)
            && v.durable <= f.log.durable <= v.nextSeq - 1
  {
    hide LogBytes, Tiling, Layout, IndexSound, Bounded;
    LayoutSegs(v, h);
    LayoutPending(v, h);
    assert SegStarts(Flush(v, io).log.segs) == SegStarts(v.segs);
  }
}
