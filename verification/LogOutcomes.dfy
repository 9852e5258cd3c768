// Which outcome of the file system makes which call succeed, refuse or fail, and
// what a call leaves behind then.
module LogOutcomes {
  import opened History
  import opened Recovery
  import opened LogState
  import opened LogSteps
  import opened LogCrash
  import opened LogClean

  // ----- Flush -----

  // A flush succeeds exactly when nothing was unconfirmed or every step it takes
  // does: the write of the whole buffer, if there is one, and the fsync.
  lemma FlushSucceedsIff(v: Log, h: seq<Payload>, io: FlushIO)
    requires Inv(v, h) && v.segs != []
    ensures Flush(v, io).ok <==>
              || v.durable == v.nextSeq - 1
              || ((v.pending == [] || (!io.writeErr && io.wrote >= |v.pending|)) && !io.syncErr)
  {
    hide LogBytes, Tiling, IndexSound, Bounded;
    LayoutSegs(v, h);
    LayoutPending(v, h);
    LogGrows(h, OnFile(v), v.nextSeq, v.opts.maxRecord);
  }

  // It costs records if and only if the write stopped part way and what had reached
  // the file could not be taken back.
  lemma FlushLosesIff(v: Log, h: seq<Payload>, io: FlushIO)
    requires Inv(v, h) && v.segs != []
    ensures !Inv(Flush(v, io).log, h) <==>
              v.pending != [] && (io.writeErr || io.wrote < |v.pending|) && io.wrote > 0 && io.truncErr
  {
    hide Inv, Flush;
    FlushKeepsUnlessRollbackFails(v, h, io);
  }

  // The files of w are what a crash of v leaves that keeps k bytes of the last one.
  predicate CrashedAt(v: Log, w: Log, k: nat) {
    Survives(v, k) && Files(w) == CrashFiles(v, k)
  }

  // A short write that cannot be rolled back loses the buffer. The bytes on disk
  // are those of a crash at that point, so LogCrash.CrashRecovers says what the
  // next recovery finds; but the handle goes on, and if nothing else was
  // unconfirmed its next flush reports success without confirming anything.
  lemma LostRollback(v: Log, h: seq<Payload>, io: FlushIO, next: FlushIO)
    requires Inv(v, h) && v.segs != [] && RollbackFails(v, io)
    ensures var f := Flush(v, io);
            var k := |Cur(v).bytes| + Wrote(v, io);
            && !f.ok && f.log.pending == []
            && f.log.durable == v.durable < v.nextSeq - 1 == f.log.nextSeq - 1
            && f.log.index == v.index
            && CrashedAt(v, f.log, k)
            && (v.unsyncedHigh == 0 ==> Flush(f.log, next) == FlushResult(f.log, true))
  {
    hide LogBytes, Tiling, IndexSound, Bounded;
    LayoutSegs(v, h);
    LayoutPending(v, h);
    LogGrows(h, OnFile(v), v.nextSeq, v.opts.maxRecord);
    var f := Flush(v, io);
    var k := |Cur(v).bytes| + Wrote(v, io);
    SyncedWithin(v, h);
    assert (Cur(v).bytes + v.pending)[..k] == Cur(v).bytes + v.pending[..Wrote(v, io)];
    assert Files(f.log) == CrashFiles(v, k);
  }

  lemma SyncedWithin(v: Log, h: seq<Payload>)
    requires Inv(v, h)
    ensures v.segs != [] && Cur(v).synced <= |Cur(v).bytes|
  {
    hide LogBytes, Tiling, IndexSound, Bounded;
    LayoutSegs(v, h);
    LogSplit(h, Cur(v).start, v.durable + 1, OnFile(v), v.opts.maxRecord);
  }

  // ----- Append -----

  // Something is in the current segment and the record does not fit behind it.
  predicate Full(v: Log, p: Payload)
    requires v.segs != [] && v.opts.maxRecord >= 1
  {
    var load := Load(v, |v.segs| - 1);
    load > 0 && load + |RecordBytes(v.nextSeq, p, v.opts.maxRecord)| > v.opts.maxSegment
  }

  // Rotation, when it is due, works.
  predicate HasRoom(v: Log, p: Payload, io: AppendIO)
    requires v.segs != [] && v.opts.maxRecord >= 1
  {
    Full(v, p) ==> Flush(v, io.rotate).ok && !io.createErr
  }

  // The buffer once the record is in it.
  function Buffered(v: Log, p: Payload): nat
    requires v.segs != [] && v.opts.maxRecord >= 1
  {
    (if Full(v, p) then 0 else |v.pending|) + |RecordBytes(v.nextSeq, p, v.opts.maxRecord)|
  }

  // A flush is due: asked for, always wanted, or the batch is complete.
  predicate Due(v: Log, p: Payload, force: bool)
    requires v.segs != [] && v.opts.maxRecord >= 1
  {
    force || v.opts.syncAlways || Buffered(v, p) >= v.opts.batchSize
  }

  predicate Writes(io: FlushIO, n: nat) {
    !io.writeErr && io.wrote >= n && !io.syncErr
  }

  // Each outcome of an append, exactly.
  lemma AppendOutcomes(v: Log, p: Payload, force: bool, io: AppendIO, h: seq<Payload>)
    requires Inv(v, h) && v.segs != [] && v.opts.maxRecord >= 1 && v.nextSeq < 0x1_0000_0000_0000_0000
    requires RollbackWorks(io.rotate) && RollbackWorks(io.flush)
    ensures var r := Append(v, p, force, io);
            var fits := |p| <= v.opts.maxPayload;
            && (|p| > v.opts.maxPayload ==> r == AppendResult(v, TooBig))
            && (r.outcome.RotateFailed? <==> fits && !HasRoom(v, p, io))
            && (r.outcome.TooBig? <==> !fits || (HasRoom(v, p, io) && !Storable(p, v.opts.maxRecord)))
            && (r.outcome.FlushFailed? <==>
                 && fits && HasRoom(v, p, io) && Storable(p, v.opts.maxRecord)
                 && Due(v, p, force) && !Writes(io.flush, Buffered(v, p)))
  {
    hide LogBytes, RecordBytes, Tiling, Layout, Watermarks, IndexSound, Bounded, Flush;
    var total := |RecordBytes(v.nextSeq, p, v.opts.maxRecord)|;
    RecordSize(v.nextSeq, p, v.opts.maxRecord);
    RoomKeeps(v, p, io, h);
    RoomIs(v, p, io, h);
    var room := Room(v, total, io);
    if |p| <= v.opts.maxPayload && room.ok && Storable(p, v.opts.maxRecord) {
      PutKeeps(room.log, p, h);
      PutFlushes(room.log, p, io.flush, h);
    }
  }

  // The rotation step.
  lemma RoomIs(v: Log, p: Payload, io: AppendIO, h: seq<Payload>)
    requires Inv(v, h) && v.segs != [] && v.opts.maxRecord >= 1 && RollbackWorks(io.rotate)
    ensures var total := |RecordBytes(v.nextSeq, p, v.opts.maxRecord)|;
            var room := Room(v, total, io);
            && (NeedsRotation(v, total) <==> Full(v, p))
            && (room.ok <==> HasRoom(v, p, io))
            && (room.ok ==> room.log.pending == if Full(v, p) then [] else v.pending)
            && (!Full(v, p) ==> room == FlushResult(v, true))
            && (|room.log.segs| == |v.segs| + (if Full(v, p) && room.ok then 1 else 0))
  {
    hide LogBytes, RecordBytes, Tiling, Layout, Watermarks, IndexSound, Bounded, Flush;
    RoomKeeps(v, p, io, h);
    SameCount(v, io.rotate);
    if Flush(v, io.rotate).ok {
      FlushedClean(v, h, io.rotate);
    }
  }

  lemma SameCount(v: Log, io: FlushIO)
    requires v.segs != []
    ensures |Flush(v, io).log.segs| == |v.segs|
    ensures SegStarts(Flush(v, io).log.segs) == SegStarts(v.segs)
  {
  }

  // The flush behind a buffered record.
  lemma PutFlushes(v: Log, p: Payload, io: FlushIO, h: seq<Payload>)
    requires v.segs != [] && v.opts.maxRecord >= 1 && Inv(Put(v, p), h + [p])
    ensures Flush(Put(v, p), io).ok <==> Writes(io, |v.pending| + |RecordBytes(v.nextSeq, p, v.opts.maxRecord)|)
  {
    hide RecordBytes, Inv, Flush;
    RecordSize(v.nextSeq, p, v.opts.maxRecord);
    FlushSucceedsIff(Put(v, p), h + [p], io);
    StillPending(Put(v, p), h + [p]);
  }

  lemma StillPending(v: Log, h: seq<Payload>)
    requires Inv(v, h) && v.pending != []
    ensures v.durable < v.nextSeq - 1
  {
    hide LogBytes, Tiling, IndexSound, Bounded;
    LayoutSegs(v, h);
    LayoutPending(v, h);
    if OnFile(v) == v.nextSeq {
      LogEmpty(h, v.nextSeq, v.opts.maxRecord);
    }
  }

  // Success means durable when asked for or always wanted, and a buffer below the
  // batch size in any case.
  lemma AppendSyncs(v: Log, p: Payload, force: bool, io: AppendIO, h: seq<Payload>)
    requires Inv(v, h) && v.segs != [] && v.nextSeq < 0x1_0000_0000_0000_0000
    requires RollbackWorks(io.rotate) && RollbackWorks(io.flush)
    requires Append(v, p, force, io).outcome.Assigned?
    ensures var r := Append(v, p, force, io);
            && (force || v.opts.syncAlways ==> r.log.durable == r.outcome.s)
            && |r.log.pending| < v.opts.batchSize
  {
    hide LogBytes, RecordBytes, Tiling, Layout, Watermarks, IndexSound, Bounded, Flush, Room;
    RoomKeeps(v, p, io, h);
    var room := Room(v, |RecordBytes(v.nextSeq, p, v.opts.maxRecord)|, io);
    PutKeeps(room.log, p, h);
    var w := Put(room.log, p);
    FlushConfirmsAll(w, h + [p], io.flush);
    if Flush(w, io.flush).ok {
      FlushedClean(w, h + [p], io.flush);
    }
  }

  // No flush before its time: with room in the segment and in the batch an append
  // only buffers, and the file system plays no part in it.
  lemma AppendOnlyBuffers(v: Log, p: Payload, io: AppendIO, h: seq<Payload>)
    requires Inv(v, h) && v.segs != [] && v.opts.maxRecord >= 1
    requires |p| <= v.opts.maxPayload && Storable(p, v.opts.maxRecord)
    requires !Full(v, p) && !Due(v, p, false)
    ensures var r := Append(v, p, false, io);
            && r.outcome == Assigned(v.nextSeq)
            && r.log.pending == v.pending + RecordBytes(v.nextSeq, p, v.opts.maxRecord)
            && r.log.segs == v.segs && r.log.durable == v.durable && r.log.bytesWritten == v.bytesWritten
  {
    hide RecordBytes, LogBytes, Tiling, Layout, Watermarks, IndexSound, Bounded;
    EmptyCurrent(v, h);
  }

  // A new segment is started only when the record does not fit the current one,
  // and then always.
  lemma AppendRotatesIff(v: Log, p: Payload, force: bool, io: AppendIO, h: seq<Payload>)
    requires Inv(v, h) && v.segs != [] && v.opts.maxRecord >= 1
    requires RollbackWorks(io.rotate) && RollbackWorks(io.flush)
    ensures var starts, after := SegStarts(v.segs), SegStarts(Append(v, p, force, io).log.segs);
            if |p| <= v.opts.maxPayload && Full(v, p) && HasRoom(v, p, io) then after == starts + [v.nextSeq]
            else after == starts
  {
    hide LogBytes, RecordBytes, Tiling, Layout, Watermarks, IndexSound, Bounded, Flush;
    RoomIs(v, p, io, h);
    RoomKeeps(v, p, io, h);
    SameCount(v, io.rotate);
    var room := Room(v, |RecordBytes(v.nextSeq, p, v.opts.maxRecord)|, io);
    SameCount(Put(room.log, p), io.flush);
    assert SegStarts(Created(Flush(v, io.rotate).log).segs) == SegStarts(v.segs) + [v.nextSeq];
  }

  // ----- CleanOldSegments -----

  // A cleaning whose flush fails removes nothing.
  lemma CleanNeedsFlush(v: Log, before: nat, io: FlushIO)
    requires v.segs != []
    ensures Clean(v, before, io).ok <==> Flush(v, io).ok
    ensures !Flush(v, io).ok ==>
              var w := Clean(v, before, io).log;
              SegStarts(w.segs) == SegStarts(v.segs) && w.index == v.index
  {
    hide Flush;
    SameCount(v, io);
  }
}
