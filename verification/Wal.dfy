// The log handle (internal/wal/wal.go, fsync.go, recovery.go, truncate.go,
// reader.go, replay.go). Each method is one critical section under the handle's
// mutex and is proved to do what the corresponding function of LogState,
// Recovery, LogReads, LogFaults and LogClean says.
module Wal {
  import opened Bytes
  import opened Framing
  import opened Scan
  import opened History
  import opened Recovery
  import opened LogState
  import opened LogCrash
  import opened LogReads
  import opened LogFaults
  import opened LogClean
  import opened LogReports
  import opened WalParts

  lemma NothingToWrite(v: Log)
    requires v.segs != [] && v.pending == []
    ensures Written(v) == v
  {
  }

  lemma UnchangedCurrent(v: Log)
    requires v.segs != []
    ensures v.segs[|v.segs| - 1 := Cur(v)] == v.segs
  {
  }

  class WAL {
    const opts: Options
    const pending: PendingBuffer
    var segments: seq<Segment>
    var cur: Segment?
    var index: SequenceIndex
    var durable: nat
    var unsyncedHigh: nat
    var unsyncedBytes: nat
    var nextSeq: nat
    var bytesWritten: nat

    // The open files are distinct and their lengths known.
    ghost predicate FilesValid()
      reads this`segments, segments
    {
      && (forall i :: 0 <= i < |segments| ==> segments[i].Valid())
      && (forall i, j :: 0 <= i < j < |segments| ==> segments[i] != segments[j])
    }

    ghost predicate Valid()
      reads this`segments, this`cur, segments
    {
      && opts.maxRecord >= 1
      && segments != []
      && cur == segments[|segments| - 1]
      && FilesValid()
    }

    // Every byte on file is confirmed.
    ghost predicate AllSynced()
      reads this`segments, segments
    {
      forall i :: 0 <= i < |segments| ==> segments[i].synced == |segments[i].file|
    }

    function Segs(): (s: seq<Seg>)
      reads this`segments, segments
      ensures |s| == |segments|
      ensures forall i :: 0 <= i < |s| ==> s[i] == segments[i].Model()
    {
      var files := segments;
      seq(|files|, i requires 0 <= i < |files| reads files => files[i].Model())
    }

    function Model(): (v: Log)
      reads this, pending, index, segments
      ensures |v.segs| == |segments| && v.opts == opts && v.nextSeq == nextSeq && v.durable == durable
    {
      Log(opts, Segs(), pending.data, pending.low, pending.high, index.entries,
          durable, unsyncedHigh, unsyncedBytes, nextSeq, bytesWritten)
    }

    // The handle Open starts from: every segment file opened, nothing scanned.
    constructor (opts: Options, files: seq<Image>)
      ensures this.opts == opts && fresh(pending) && fresh(index)
      ensures FilesValid() && (forall i :: 0 <= i < |segments| ==> fresh(segments[i]))
      ensures Images() == files
      ensures AllSynced()
      ensures pending.data == [] && pending.low == pending.high == 0 && index.entries == map[]
      ensures durable == unsyncedHigh == unsyncedBytes == bytesWritten == 0
    {
      this.opts := opts;
      pending := new PendingBuffer();
      index := new SequenceIndex();
      segments, cur := [], null;
      durable, unsyncedHigh, unsyncedBytes, nextSeq, bytesWritten := 0, 0, 0, 1, 0;
      new;
      for i := 0 to |files|
        invariant |segments| == i && pending.data == [] && pending.low == pending.high == 0 && index.entries == map[]
        invariant fresh(pending) && fresh(index) && this.opts == opts
        invariant forall j :: 0 <= j < i ==> fresh(segments[j])
        invariant FilesValid()
        invariant forall j :: 0 <= j < i ==> Image(segments[j].start, segments[j].file) == files[j]
        invariant forall j :: 0 <= j < i ==> segments[j].synced == |segments[j].file|
        invariant durable == unsyncedHigh == unsyncedBytes == bytesWritten == 0
      {
        var seg := new Segment(files[i].start, files[i].bytes);
        segments := segments + [seg];
      }
      assert Images() == files;
    }

    // The files as a scan sees them.
    function Images(): (files: seq<Image>)
      reads this`segments, segments
      ensures |files| == |segments|
      ensures forall i :: 0 <= i < |files| ==> files[i] == Image(segments[i].start, segments[i].file)
    {
      var open := segments;
      seq(|open|, i requires 0 <= i < |open| reads open => Image(open[i].start, open[i].file))
    }

    // ----- Flushing and rotation -----

    lemma OthersDiffer()
      requires Valid()
      ensures cur.Valid()
      ensures forall i :: 0 <= i < |segments| - 1 ==> segments[i] != cur
    {
    }

    // Only the current segment was touched.
    twostate lemma OnlyCurrent()
      requires old(Valid()) && segments == old(segments) && cur == old(cur) && cur.Valid()
      requires forall i :: 0 <= i < |segments| - 1 ==> unchanged(segments[i])
      ensures Valid() && Segs() == old(Segs())[|segments| - 1 := cur.Model()]
    {
    }

    // The write half of a flush, with its rollback: `lost` says that a partial
    // write could not be undone and the buffered bytes are gone.
    method WriteBuffer(io: FlushIO) returns (ok: bool, lost: bool)
      requires Valid() && pending.data != []
      modifies this`unsyncedHigh, this`unsyncedBytes, pending, cur
      ensures cur.Valid() && cur.synced == old(cur.synced)
      ensures ok <==> !WriteFails(old(Model()), io)
      ensures lost <==> RollbackFails(old(Model()), io)
      ensures cur.file == old(cur.file) + (if ok || lost then old(pending.data)[..Wrote(old(Model()), io)] else [])
      ensures if ok || lost then pending.data == [] && pending.low == pending.high == 0
              else
                && pending.data == old(pending.data)
                && pending.low == old(pending.low) && pending.high == old(pending.high)
      ensures unsyncedHigh == (if ok then old(pending.high) else old(unsyncedHigh))
      ensures unsyncedBytes == old(unsyncedBytes) + (if ok then |old(pending.data)| else 0)
    {
      hide Segs, Images;
      lost := false;
      var data, lo, hi := pending.Take();
      var before := cur.size;
      ok := cur.Write(data, io.wrote, io.writeErr);
      if !ok {
        var written := cur.size - before;
        if written > 0 {
          var undone := cur.Truncate(before, io.truncErr);
          if !undone {
            return false, true;
          }
        }
        assert cur.file == old(cur.file) + [];
        pending.ResetWith(data, lo, hi);
        assert pending.data == data;
        return false, false;
      }
      unsyncedHigh := hi;
      unsyncedBytes := unsyncedBytes + |data|;
    }

    method WritePending(io: FlushIO) returns (ok: bool)
      requires Valid() && pending.data != []
      modifies this`unsyncedHigh, this`unsyncedBytes, pending, cur
      ensures Valid() && segments == old(segments) && index == old(index) && cur == old(cur)
      ensures ok <==> !WriteFails(old(Model()), io)
      ensures Model() == if ok then Written(old(Model())) else Flush(old(Model()), io).log
    {
      hide Segs, Images;
      ghost var v := Model();
      var lost;
      OthersDiffer();
      ok, lost := WriteBuffer(io);
      OnlyCurrent();
      assert v.pending[..|v.pending|] == v.pending;
      assert Cur(v).bytes + [] == Cur(v).bytes;
      assert !ok && !lost ==> Segs() == v.segs;
    }

    // The fsync half.
    method SyncCurrent(err: bool) returns (ok: bool)
      requires Valid()
      modifies this`durable, this`bytesWritten, this`unsyncedHigh, this`unsyncedBytes, cur
      ensures Valid() && segments == old(segments) && index == old(index) && cur == old(cur)
      ensures ok <==> !err
      ensures Model() == if ok then Synced(old(Model())) else old(Model())
    {
      hide Segs, Images, FilesValid;
      ghost var v := Model();
      OthersDiffer();
      ok := cur.Sync(err);
      OnlyCurrent();
      assert cur.Model() == if ok then Cur(v).(synced := |Cur(v).bytes|) else Cur(v);
      UnchangedCurrent(v);
      if ok {
        durable := unsyncedHigh;
        bytesWritten := bytesWritten + unsyncedBytes;
        unsyncedHigh := 0;
        unsyncedBytes := 0;
        assert Segs() == WithCur(v, Cur(v).(synced := |Cur(v).bytes|)).segs;
      } else {
        assert Segs() == v.segs;
      }
    }

    method FlushLocked(io: FlushIO) returns (high: nat, ok: bool)
      requires Valid()
      modifies this`durable, this`bytesWritten, this`unsyncedHigh, this`unsyncedBytes, pending, cur
      ensures Valid() && segments == old(segments) && index == old(index) && cur == old(cur)
      ensures FlushResult(Model(), ok) == Flush(old(Model()), io)
      ensures high == durable
    {
      hide Written, Synced;
      if pending.Empty() && unsyncedHigh == 0 {
        return durable, true;
      }
      if !pending.Empty() {
        var written := WritePending(io);
        if !written {
          return durable, false;
        }
      } else {
        NothingToWrite(Model());
      }
      ok := SyncCurrent(io.syncErr);
      return durable, ok;
    }

    method RotateLocked(next: nat, io: FlushIO, createErr: bool) returns (ok: bool)
      requires Valid() && next == nextSeq
      modifies this, pending, cur
      ensures Valid() && index == old(index) && nextSeq == old(nextSeq)
      ensures forall s :: s in segments ==> s in old(segments) || fresh(s)
      ensures cur == old(cur) || fresh(cur)
      ensures FlushResult(Model(), ok) == Rotate(old(Model()), io, createErr)
    {
      hide Flush, Segs, Images;
      var _, flushed := FlushLocked(io);
      if !flushed {
        return false;
      }
      ghost var f := Model();
      StartsTaken(f.segs, next);
      if createErr || exists i :: 0 <= i < |segments| && segments[i].start == next {
        return false;
      }
      var seg := new Segment(next, []);
      segments := segments + [seg];
      cur := seg;
      assert Segs() == f.segs + [Seg(next, [], 0)];
      return true;
    }

    // ----- Appending -----

    // The rotation decision.
    method MakeRoom(s: nat, total: nat, io: AppendIO) returns (ok: bool)
      requires Valid() && s == nextSeq
      modifies this, pending, cur
      ensures Valid() && index == old(index) && nextSeq == old(nextSeq)
      ensures forall x :: x in segments ==> x in old(segments) || fresh(x)
      ensures cur == old(cur) || fresh(cur)
      ensures FlushResult(Model(), ok) == Room(old(Model()), total, io)
    {
      hide Rotate;
      var oversized := total > opts.maxSegment;
      assert Cur(Model()) == cur.Model() && |Cur(Model()).bytes| == cur.size;
      if oversized && (cur.size > 0 || !pending.Empty()) {
        ok := RotateLocked(s, io.rotate, io.createErr);
      } else if !oversized && cur.size + pending.Len() + total > opts.maxSegment {
        ok := RotateLocked(s, io.rotate, io.createErr);
      } else {
        ok := true;
      }
    }

    // Buffering and indexing the record.
    method PutRecord(s: nat, p: seq<byte>, parts: seq<Record>, total: nat) returns (ok: bool)
      requires Valid() && s == nextSeq
      requires parts == Fragments(s, p, opts.maxRecord) && total == |RecordBytes(s, p, opts.maxRecord)|
      modifies this`nextSeq, pending, index
      ensures Valid() && index == old(index) && segments == old(segments) && cur == old(cur)
      ensures ok <==> Storable(p, opts.maxRecord)
      ensures Model() == if ok then Put(old(Model()), p)
                         else old(Model()).(low := if old(Model()).pending == [] then s else old(Model()).low)
    {
      hide RecordBytes, Fragments, Storable, Segs, Images;
      var base := cur.size + pending.Len();
      assert Cur(Model()) == cur.Model();
      ok := pending.Append(s, p, opts.maxRecord, parts);
      assert Segs() == old(Segs());
      if !ok {
        return;
      }
      index.Put(s, Location(cur.start, base, total));
      nextSeq := nextSeq + 1;
      assert Segs() == old(Segs());
    }

    method SyncIfDue(force: bool, io: FlushIO) returns (ok: bool)
      requires Valid()
      modifies this`durable, this`bytesWritten, this`unsyncedHigh, this`unsyncedBytes, pending, cur
      ensures Valid() && index == old(index) && segments == old(segments) && cur == old(cur)
      ensures FlushResult(Model(), ok)
           == if ShouldSync(old(Model()), force) then Flush(old(Model()), io) else FlushResult(old(Model()), true)
    {
      hide Flush;
      ok := true;
      if force || opts.syncAlways || pending.Len() >= opts.batchSize {
        var high, done := FlushLocked(io);
        ok := done;
      }
    }

    method Append(p: seq<byte>, force: bool, io: AppendIO) returns (outcome: Outcome)
      requires Valid()
      modifies this, pending, cur, index
      ensures Valid() && index == old(index)
      ensures forall x :: x in segments ==> x in old(segments) || fresh(x)
      ensures cur == old(cur) || fresh(cur)
      ensures AppendResult(Model(), outcome) == LogState.Append(old(Model()), p, force, io)
    {
      hide Flush, Room, RecordBytes, Put, Storable, Fragments, ShouldSync, Model;
      if |p| > opts.maxPayload {
        return TooBig;
      }
      var s := nextSeq;
      var parts := SplitPayload(s, p, opts.maxRecord);
      var total := EncodedSize(parts);
      RecordIsFrames(s, p, opts.maxRecord);
      var roomy := MakeRoom(s, total, io);
      if !roomy {
        return RotateFailed;
      }
      var encoded := PutRecord(s, p, parts, total);
      if !encoded {
        return TooBig;
      }
      var synced := SyncIfDue(force, io.flush);
      return if synced then Assigned(s) else FlushFailed;
    }

    method Sync(io: FlushIO) returns (high: nat, ok: bool)
      requires Valid()
      modifies this`durable, this`bytesWritten, this`unsyncedHigh, this`unsyncedBytes, pending, cur
      ensures Valid() && segments == old(segments) && index == old(index) && cur == old(cur)
      ensures FlushResult(Model(), ok) == Flush(old(Model()), io)
      ensures high == durable
    {
      high, ok := FlushLocked(io);
    }

    // ----- Recovery -----

    // trimTail: keeps a valid prefix of a file and syncs its new length.
    method TrimTail(seg: Segment, valid: nat, io: RepairIO) returns (ok: bool)
      requires seg.Valid() && valid <= seg.size
      modifies seg
      ensures seg.Valid()
      ensures ok <==> valid == old(seg.size) || !io.Fails()
      ensures seg.file == if valid == old(seg.size) || io.truncErr then old(seg.file) else old(seg.file)[..valid]
      ensures seg.synced == if valid == old(seg.size) || io.Fails() then old(seg.synced) else valid
    {
      if valid == seg.size {
        return true;
      }
      var truncated := seg.Truncate(valid, io.truncErr);
      if !truncated {
        return false;
      }
      ok := seg.Sync(io.syncErr);
    }

    method DiscardSegmentsAfter(start: nat)
      modifies this`segments
      ensures segments == UpTo(old(segments), start)
    {
      var kept: seq<Segment> := [];
      for i := 0 to |segments|
        invariant segments == old(segments)
        invariant kept == UpTo(segments[..i], start)
      {
        assert segments[..i + 1][..i] == segments[..i];
        if segments[i].start <= start {
          kept := kept + [segments[i]];
        }
      }
      assert segments[..|segments|] == segments;
      segments := kept;
    }

    // Starts ascend, as sorting the file names leaves them.
    ghost predicate Ordered()
      reads this`segments
    {
      && (segments != [] ==> segments[0].start >= 1)
      && forall i, j :: 0 <= i < j < |segments| ==> segments[i].start < segments[j].start
    }

    // segmentForSeq: the last segment that starts at or before s.
    method SegmentForSeq(s: nat) returns (found: Segment?)
      requires Ordered()
      ensures found == null <==> forall x :: x in segments ==> x.start > s
      ensures found != null ==> found in segments && found.start <= s
      ensures found != null ==> forall x :: x in segments && x.start <= s ==> x.start <= found.start
    {
      found := null;
      var i := 0;
      while i < |segments|
        invariant 0 <= i <= |segments|
        invariant found == null <==> i == 0
        invariant i > 0 ==> found == segments[i - 1] && found.start <= s
      {
        if segments[i].start > s {
          break;
        }
        found := segments[i];
        i := i + 1;
      }
      assert forall j :: 0 <= j < i ==> segments[j].start <= segments[i - 1].start;
      assert i < |segments| ==> forall j :: i < j < |segments| ==> segments[i].start < segments[j].start;
    }

    // One segment. The scan state carries over from segment to segment; records
    // are indexed, and handed to the replay callback, as they are completed.
    method ScanSegment(seg: Segment, isLast: bool, st0: ScanState, io: RepairIO)
        returns (truncated: bool, failed: bool, st: ScanState, err: Option<Corruption>)
      requires seg.Valid() && Placed(st0, 0) && index.entries == IndexOf(st0.out)
      modifies seg, index
      ensures seg.Valid()
      ensures match ScanFrom(old(seg.file), seg.start, opts.maxRecord, 0, st0)
              case Corrupt(at, why) => err == Some(Corruption(seg.start, at, why)) && unchanged(seg)
              case Torn(s, at) =>
                if isLast then
                  && truncated && err == None
                  && st == s.(assembling := false, data := if s.assembling then [] else s.data)
                  && seg.file == (if io.truncErr then old(seg.file) else old(seg.file)[..Boundary(s, at)])
                  && (!failed ==> seg.synced == |seg.file|)
                else err == Some(Corruption(seg.start, at, Undecodable(EndOfFile))) && unchanged(seg)
              case Whole(s) =>
                && unchanged(seg)
                && if s.assembling && !isLast then err == Some(Corruption(seg.start, s.start, CrossesSegment))
                   else err == None && !truncated && st == s
      ensures err == None ==> index.entries == IndexOf(st.out)
      ensures err.Some? ==> !truncated
      ensures failed <==> truncated && io.Fails()
    {
      hide DecodeAt, IsFirst, IsLast, IsPadding;
      truncated, failed, st, err := false, false, st0, None;
      var offset := 0;
      while offset < seg.size
        invariant offset <= seg.size && seg.Valid() && unchanged(seg)
        invariant Placed(st, offset) && err == None && !truncated && !failed
        invariant ScanFrom(seg.file, seg.start, opts.maxRecord, 0, st0)
               == ScanFrom(seg.file, seg.start, opts.maxRecord, offset, st)
        invariant index.entries == IndexOf(st.out)
        decreases seg.size - offset
      {
        var recStart := offset;
        var d := DecodeAt(seg.file, offset, opts.maxRecord);
        ghost var step := ScanStep(seg.file, seg.start, opts.maxRecord, offset, st);
        if d.Bad? {
          if isLast && d.error == EndOfFile {
            if st.assembling {
              recStart := st.start;
              st := st.(assembling := false, data := []);
            }
            var trimmed := TrimTail(seg, recStart, io);
            truncated, failed := true, !trimmed;
            return;
          }
          err := Some(Corruption(seg.start, offset, Undecodable(d.error)));
          return;
        }
        var rec, next := d.rec, d.next;
        if IsPadding(rec.flags) {
          offset := next;
          continue;
        }
        if IsFirst(rec.flags) {
          if st.assembling || rec.seqNo != st.lastSeq + 1 {
            err := Some(Corruption(seg.start, offset, UnexpectedSequence));
            return;
          }
          st := st.(assembling := true, seqNo := rec.seqNo, start := recStart, data := []);
        } else if !st.assembling || rec.seqNo != st.seqNo {
          err := Some(Corruption(seg.start, offset, OrphanContinuation));
          return;
        }
        st := st.(data := st.data + rec.data);
        if IsLast(rec.flags) {
          var e := Entry(rec.seqNo, st.data, seg.start, st.start, next - st.start);
          index.Put(rec.seqNo, LocationOf(e));
          assert (st.out + [e])[..|st.out|] == st.out;
          st := st.(out := st.out + [e], lastSeq := rec.seqNo, assembling := false, data := []);
        }
        assert step == Advance(next, st);
        offset := next;
      }
      if st.assembling && !isLast {
        err := Some(Corruption(seg.start, st.start, CrossesSegment));
      }
    }

    twostate lemma SameFiles()
      requires old(FilesValid()) && segments == old(segments)
      requires forall i :: 0 <= i < |segments| ==> unchanged(segments[i])
      ensures FilesValid() && Images() == old(Images())
    {
    }

    twostate lemma SameSegs()
      requires segments == old(segments)
      requires forall i :: 0 <= i < |segments| ==> unchanged(segments[i])
      ensures Segs() == old(Segs())
    {
    }

    twostate lemma SameModel()
      requires Segs() == old(Segs()) && unchanged(pending) && index == old(index) && unchanged(index)
      requires durable == old(durable) && nextSeq == old(nextSeq) && bytesWritten == old(bytesWritten)
      requires unsyncedHigh == old(unsyncedHigh) && unsyncedBytes == old(unsyncedBytes)
      ensures Model() == old(Model())
    {
    }

    // Only file i was touched.
    twostate lemma OnlyFile(i: nat)
      requires old(FilesValid()) && segments == old(segments) && i < |segments| && segments[i].Valid()
      requires forall j :: 0 <= j < |segments| && j != i ==> unchanged(segments[j])
      ensures FilesValid() && Images() == old(Images())[i := Image(segments[i].start, segments[i].file)]
    {
    }

    // Scanning of file si in the loop of recoverLocked.
    method ScanNext(si: nat, st0: ScanState, io: RepairIO, ghost files: seq<Image>)
        returns (truncated: bool, failed: bool, st: ScanState, err: Option<Corruption>)
      requires FilesValid() && si < |segments| && Images() == files
      requires !st0.assembling && index.entries == IndexOf(st0.out)
      requires si == 0 ==> st0.lastSeq + 1 == segments[0].start
      modifies segments[si], index
      ensures FilesValid()
      ensures match RecoverFrom(files, si, opts.maxRecord, st0)
              case Rejected(e) =>
                !truncated &&
                (err == Some(e) || (err == None && si + 1 < |segments| && !st.assembling
                                    && RecoverFrom(files, si + 1, opts.maxRecord, st) == Rejected(e)))
              case r =>
                && err == None
                && if si + 1 < |segments|
                   then !truncated && !st.assembling && RecoverFrom(files, si + 1, opts.maxRecord, st) == r
                   else ScanLeft(files, Images(), r, st, truncated, io)
      ensures err == None ==> index.entries == IndexOf(st.out)
      ensures if truncated then !failed ==> segments[si].synced == |segments[si].file| else unchanged(segments[si])
      ensures failed <==> truncated && io.Fails()
    {
      hide ScanFrom, IndexOf;
      var seg := segments[si];
      assert files[si] == Image(seg.start, seg.file);
      truncated, failed := false, false;
      if si > 0 && seg.start != st0.lastSeq + 1 {
        return false, false, st0, Some(Corruption(seg.start, 0, SegmentGap));
      }
      ScanAdvances(seg.file, seg.start, opts.maxRecord, 0, st0);
      truncated, failed, st, err := ScanSegment(seg, si == |segments| - 1, st0, io);
      assert forall j :: 0 <= j < |segments| && j != si ==> segments[j] != seg;
      OnlyFile(si);
      if truncated {
        ghost var scanned := ScanFrom(files[si].bytes, seg.start, opts.maxRecord, 0, st0);
        assert Images() == if io.truncErr then files else CutLast(files, Boundary(scanned.st, scanned.at));
      } else {
        assert Images() == files;
      }
    }

    // The loop of recoverLocked. It ends at corruption, at a torn tail, cut off or
    // not, or at the end of the last file.
    method ScanAll(io: RepairIO) returns (st: ScanState, truncated: bool, failed: bool, err: Option<Corruption>)
      requires FilesValid() && Ordered() && segments != [] && index.entries == map[]
      modifies this`segments, index, segments
      ensures segments == old(segments) && FilesValid()
      ensures var r := Recover(old(Images()), opts.maxRecord);
              if r.Rejected? then err == Some(r.error) && Images() == old(Images())
              else
                && err == None && ScanLeft(old(Images()), Images(), r, st, truncated, io)
                && index.entries == IndexOf(st.out)
      ensures err.Some? || !truncated ==> forall i :: 0 <= i < |segments| ==> unchanged(segments[i])
      ensures err == None && !failed && old(AllSynced()) ==> AllSynced()
      ensures failed <==> truncated && io.Fails()
    {
      hide RecoverFrom, IndexOf, ScanLeft, Segs, Images;
      EmptyIndex();
      truncated, failed, err := false, false, None;
      st := Initial(segments[0].start - 1);
      ghost var files := Images();
      ghost var r := Recover(files, opts.maxRecord);
      for si := 0 to |segments|
        invariant segments == old(segments)
        invariant forall i :: 0 <= i < |segments| ==> unchanged(segments[i])
        invariant !truncated && !failed && err == None && index.entries == IndexOf(st.out)
        invariant si == 0 ==> st.lastSeq + 1 == segments[0].start
        invariant si < |segments| ==> !st.assembling && RecoverFrom(files, si, opts.maxRecord, st) == r
        invariant si == |segments| ==> r.Opened? && ScanLeft(files, files, r, st, false, io)
      {
        SameFiles();
        assert forall j :: 0 <= j < |segments| && j != si ==> segments[j] != segments[si];
        truncated, failed, st, err := ScanNext(si, st, io, files);
        if err.Some? || failed {
          return;
        }
        if truncated {
          DropLater(segments[si].start);
          return;
        }
        SameFiles();
      }
      SameFiles();
    }

    // Discarding what starts after the last segment discards nothing.
    method DropLater(start: nat)
      requires FilesValid() && Ordered() && segments != [] && start == segments[|segments| - 1].start
      modifies this`segments
      ensures segments == old(segments) && FilesValid() && Images() == old(Images())
      ensures old(AllSynced()) ==> AllSynced()
    {
      hide Images;
      LastStart();
      UpToAll(segments, start);
      DiscardSegmentsAfter(start);
    }

    // No segment starts after the last one.
    lemma LastStart()
      requires Ordered() && segments != []
      ensures forall s :: s in segments ==> s.start <= segments[|segments| - 1].start
    {
    }

    // A record left open at the end of the last file is cut off.
    method CloseTail(s: nat, start: nat, io: RepairIO) returns (ok: bool)
      requires FilesValid() && Ordered() && segments != []
      requires segments[|segments| - 1].start <= s && start < |segments[|segments| - 1].file|
      modifies this`segments, segments[|segments| - 1]
      ensures segments == old(segments) && FilesValid()
      ensures Images() == if io.truncErr then old(Images()) else CutLast(old(Images()), start)
      ensures ok <==> !io.Fails()
      ensures ok ==> segments[|segments| - 1].synced == |segments[|segments| - 1].file|
    {
      hide Ordered, Images;
      ghost var n := |segments| - 1;
      var seg := SegmentForSeq(s);
      LastStart();
      assert segments[n] in segments;
      SameStart(seg);
      assert forall i :: 0 <= i < |segments| && i != n ==> segments[i] != seg;
      ok := TrimTail(seg, start, io);
      OnlyFile(n);
      if !ok {
        return;
      }
      DropLater(seg.start);
    }

    lemma SameStart(seg: Segment)
      requires Ordered() && segments != [] && seg in segments && seg.start >= segments[|segments| - 1].start
      ensures seg == segments[|segments| - 1]
    {
    }

    // Files and index are what recovery found.
    ghost predicate Rebuilt(r: Recovered)
      requires r.Opened?
      reads this`segments, this`index, index, segments
    {
      Images() == r.files && index.entries == IndexOf(r.out)
    }

    // And so are the counters.
    ghost predicate Reflects(r: Recovered)
      requires r.Opened?
      reads this`segments, this`index, this`durable, this`nextSeq, index, segments
    {
      Rebuilt(r) && durable == r.lastSeq && nextSeq == r.lastSeq + 1
    }

    // recoverLocked: scans every file in order, repairs the tail of the last one
    // and rebuilds index and counters; or reports where the log is corrupt and
    // changes no file and no counter.
    method RecoverLocked(io: RepairIO) returns (result: RecoveryResult, err: Option<RecoverError>)
      requires FilesValid() && Ordered() && opts.maxRecord >= 1
      modifies this`segments, this`cur, this`durable, this`nextSeq, index, segments
      ensures var r := Recover(old(Images()), opts.maxRecord);
              if r.Rejected? || (r.truncated && io.Fails()) then
                && err == Some(if r.Rejected? then Damaged(r.error) else RepairFailed)
                && segments == old(segments) && FilesValid()
                && (if r.Rejected? then Segs() == old(Segs()) else Images() == AfterRepair(old(Images()), r, io))
                && cur == old(cur) && durable == old(durable) && nextSeq == old(nextSeq)
              else
                && err == None && result == Summary(r)
                && Valid() && Reflects(r)
                && (if old(segments) == [] then fresh(segments[0]) else segments == old(segments))
      ensures err == None && old(AllSynced()) ==> AllSynced()
    {
      hide RecoverFrom, IndexOf, Recover, Ordered, Segs, Images, FilesValid, AllSynced, Rebuilt;
      if |segments| == 0 {
        result := FirstSegment();
        err := None;
      } else {
        result, err := RecoverSegments(io);
        if err.Some? {
          return;
        }
      }
      nextSeq := result.lastSeq + 1;
      durable := result.lastSeq;
      cur := segments[|segments| - 1];
    }

    // An empty directory gets its first segment.
    method FirstSegment() returns (result: RecoveryResult)
      requires segments == []
      modifies this`segments, index
      ensures |segments| == 1 && fresh(segments[0]) && FilesValid() && AllSynced()
      ensures var r := Recover(old(Images()), opts.maxRecord);
              r.Opened? && !r.truncated && Rebuilt(r) && result == Summary(r)
    {
      hide Recover, IndexOf;
      RecoverNothing(opts.maxRecord);
      EmptyIndex();
      assert Images() == [];
      index.Reset();
      var seg := new Segment(1, []);
      segments := segments + [seg];
      assert Images() == [Image(1, [])];
      return RecoveryResult(0, 0, false);
    }

    // A directory with segments.
    method RecoverSegments(io: RepairIO) returns (result: RecoveryResult, err: Option<RecoverError>)
      requires FilesValid() && Ordered() && segments != []
      modifies this`segments, index, segments
      ensures segments == old(segments) && FilesValid()
      ensures var r := Recover(old(Images()), opts.maxRecord);
              if r.Rejected? then err == Some(Damaged(r.error)) && Segs() == old(Segs())
              else if r.truncated && io.Fails() then
                err == Some(RepairFailed) && Images() == AfterRepair(old(Images()), r, io)
              else err == None && result == Summary(r) && Rebuilt(r)
      ensures err == None && old(AllSynced()) ==> AllSynced()
    {
      hide RecoverFrom, IndexOf, Recover, Segs, Images, FilesValid, AllSynced, Ordered;
      EmptyIndex();
      index.Reset();
      var st, truncated, failed, bad := ScanAndClose(io);
      result := RecoveryResult(|st.out|, st.lastSeq, truncated);
      err := if bad.Some? then Some(Damaged(bad.value)) else if failed then Some(RepairFailed) else None;
    }

    // Scan and tail repair for a directory that has files.
    method ScanAndClose(io: RepairIO) returns (st: ScanState, truncated: bool, failed: bool, err: Option<Corruption>)
      requires FilesValid() && Ordered() && segments != [] && index.entries == map[]
      modifies this`segments, index, segments
      ensures segments == old(segments) && FilesValid()
      ensures var r := Recover(old(Images()), opts.maxRecord);
              if r.Rejected? then err == Some(r.error) && Segs() == old(Segs())
              else
                && err == None && Images() == AfterRepair(old(Images()), r, io) && index.entries == IndexOf(r.out)
                && st.out == r.out && truncated == r.truncated && (failed <==> r.truncated && io.Fails())
                && (!failed ==> st.lastSeq == r.lastSeq && Images() == r.files)
      ensures err == None && !failed && old(AllSynced()) ==> AllSynced()
    {
      hide RecoverFrom, IndexOf, Recover, Segs, Images;
      st, truncated, failed, err := ScanAll(io);
      if err.Some? {
        SameSegs();
        return;
      }
      if failed {
        return;
      }
      if st.assembling {
        var closed := CloseTail(st.seqNo, st.start, io);
        truncated, failed := true, !closed;
        st := st.(lastSeq := st.seqNo - 1);
      } else {
        WholeLast(old(Images()));
      }
    }

    // Rescans into a new index; on an error the old one is put back.
    method Rescan(io: RepairIO, ghost files: seq<Image>, ghost segs: seq<Seg>) returns (reply: RecoverReply)
      requires Valid() && Ordered() && Images() == files && Segs() == segs
      modifies this`index, this`segments, this`cur, this`durable, this`nextSeq, segments
      ensures Valid()
      ensures var r := Recover(files, opts.maxRecord);
              if r.Rejected? || (r.truncated && io.Fails()) then
                && reply == (if r.Rejected? then RecoverCorrupt(r.error) else RecoverRepairFailed)
                && index == old(index) && unchanged(index)
                && (if r.Rejected? then Segs() == segs else Images() == AfterRepair(files, r, io))
                && durable == old(durable) && nextSeq == old(nextSeq)
              else reply == RecoverDone(Summary(r)) && Reflects(r)
    {
      hide RecoverFrom, Recover, IndexOf, Ordered, Model, Segs, Images, FilesValid, AllSynced, Reflects, Rebuilt,
           Summary, AfterRepair;
      var oldIndex := index;
      index := new SequenceIndex();
      assert FilesValid() && Images() == files && Segs() == segs;
      var result, err := RecoverLocked(io);
      if err == None {
        return RecoverDone(result);
      }
      ghost var now, left := Images(), Segs();
      index := oldIndex;
      assert FilesValid() && Images() == now && Segs() == left;
      return if err.value.Damaged? then RecoverCorrupt(err.value.at) else RecoverRepairFailed;
    }

    // The public Recover.
    method RecoverNow(flush: FlushIO, io: RepairIO) returns (reply: RecoverReply)
      requires Valid() && Ordered()
      modifies this, pending, segments
      ensures Valid()
      ensures var f := Flush(old(Model()), flush);
              if !f.ok then reply == RecoverFlushFailed && Model() == f.log
              else
                var r := Recover(Files(f.log), opts.maxRecord);
                if r.Rejected? then reply == RecoverCorrupt(r.error) && index == old(index) && Model() == f.log
                else if r.truncated && io.Fails() then
                  && reply == RecoverRepairFailed && index == old(index) && index.entries == f.log.index
                  && durable == f.log.durable && nextSeq == f.log.nextSeq
                  && Images() == AfterRepair(Files(f.log), r, io)
                else reply == RecoverDone(Summary(r)) && Reflects(r)
    {
      hide Flush, RecoverFrom, Recover, IndexOf, Ordered, Segs, Images;
      var high, flushed := FlushLocked(flush);
      if !flushed {
        return RecoverFlushFailed;
      }
      assert Images() == Files(Model());
      label L: reply := Rescan(io, Files(Model()), Segs());
      if reply.RecoverCorrupt? {
        SameModel@L();
      }
    }

    // ----- Reading -----

    method SegmentByStart(start: nat) returns (found: Segment?)
      ensures match LogReads.SegmentByStart(Segs(), start, 0)
              case None => found == null
              case Some(i) => found == segments[i]
    {
      for i := 0 to |segments|
        invariant LogReads.SegmentByStart(Segs(), start, 0) == LogReads.SegmentByStart(Segs(), start, i)
      {
        if segments[i].start == start {
          return segments[i];
        }
      }
      return null;
    }

    method ReadLocation(s: nat, loc: Location) returns (r: ReadOutcome)
      ensures r == LogReads.ReadLocation(Model(), s, loc)
    {
      hide DecodeAt, IsFirst, IsLast;
      var seg := SegmentByStart(loc.segment);
      if seg == null {
        return ReadFailed(NotFound);
      }
      var offset, end := loc.offset, loc.offset + loc.size;
      var data, first := [], true;
      ghost var whole := ReadFrom(seg.file, opts.maxRecord, s, offset, end, true, []);
      while offset < end
        invariant ReadFrom(seg.file, opts.maxRecord, s, offset, end, first, data) == whole
        decreases end - offset
      {
        var d := DecodeAt(seg.file, offset, opts.maxRecord);
        if d.Bad? {
          return ReadFailed(CorruptAt(Corruption(seg.start, offset, Undecodable(d.error))));
        }
        var rec, next := d.rec, d.next;
        if rec.seqNo != s || (first && !IsFirst(rec.flags)) {
          return ReadFailed(CorruptAt(Corruption(seg.start, offset, UnrelatedFragment)));
        }
        data := data + rec.data;
        first := false;
        offset := next;
        if IsLast(rec.flags) {
          return Payload(data);
        }
      }
      return ReadFailed(UnexpectedEnd);
    }

    method Read(s: nat, io: FlushIO) returns (r: ReadOutcome)
      requires Valid()
      modifies this`durable, this`bytesWritten, this`unsyncedHigh, this`unsyncedBytes, pending, cur
      ensures Valid() && segments == old(segments) && index == old(index)
      ensures (Model(), r) == LogReads.Read(old(Model()), s, io)
    {
      hide Flush, LogReads.ReadLocation, Segs, Images;
      if s > durable {
        var high, flushed := FlushLocked(io);
        if !flushed {
          return ReadFailed(FlushError);
        }
      }
      var loc := index.Get(s);
      if loc == None {
        return ReadFailed(NotFound);
      }
      r := ReadLocation(s, loc.value);
    }

    // The loop shared by Replay and Verify: what was read, in order, and why the
    // walk stopped early, if it did.
    method Walk() returns (found: seq<(nat, seq<byte>)>, stop: Option<ReadError>)
      ensures LogReads.Walk(found, stop) == WalkFrom(Model(), 1)
    {
      hide LogReads.ReadLocation;
      found := [];
      for s := 1 to durable + 1
        invariant WalkFrom(Model(), 1) == LogReads.Walk(found + WalkFrom(Model(), s).found, WalkFrom(Model(), s).stop)
      {
        var loc := index.Get(s);
        if loc.Some? {
          var r := ReadLocation(s, loc.value);
          assert r == ReadIndexed(Model(), s);
          if r.ReadFailed? {
            assert found + [] == found;
            return found, Some(r.error);
          }
          ghost var rest := WalkFrom(Model(), s + 1).found;
          assert found + ([(s, r.data)] + rest) == (found + [(s, r.data)]) + rest;
          found := found + [(s, r.data)];
        }
      }
      assert found + [] == found;
      return found, None;
    }

    // Replay, with the list of delivered records standing for the callback.
    method Replay(io: FlushIO) returns (found: seq<(nat, seq<byte>)>, stop: Option<ReadError>)
      requires Valid()
      modifies this`durable, this`bytesWritten, this`unsyncedHigh, this`unsyncedBytes, pending, cur
      ensures Valid() && segments == old(segments) && index == old(index)
      ensures Model() == Flush(old(Model()), io).log
      ensures LogReads.Walk(found, stop)
           == if Flush(old(Model()), io).ok then WalkFrom(Model(), 1) else LogReads.Walk([], Some(FlushError))
    {
      hide Flush, WalkFrom;
      var high, flushed := FlushLocked(io);
      if !flushed {
        return [], Some(FlushError);
      }
      found, stop := Walk();
    }

    method Verify(io: FlushIO) returns (result: VerificationResult, stop: Option<ReadError>)
      requires Valid()
      modifies this`durable, this`bytesWritten, this`unsyncedHigh, this`unsyncedBytes, pending, cur
      ensures Valid() && segments == old(segments) && index == old(index)
      ensures Model() == Flush(old(Model()), io).log
      ensures var walk := VerifyWalk(old(Model()), io);
              stop == walk.stop && result == Reported(walk)
    {
      hide Flush, WalkFrom;
      var found;
      found, stop := Replay(io);
      var bytes := 0;
      for i := 0 to |found|
        invariant bytes == TotalBytes(found[..i])
      {
        assert found[..i + 1][..i] == found[..i];
        bytes := bytes + |found[i].1|;
      }
      assert found[..|found|] == found;
      result := VerificationResult(|found|, bytes, if found == [] then 0 else found[|found| - 1].0, stop.None?);
    }

    // ----- Cleaning, fault injection, report -----

    method CleanOldSegments(before: nat, io: FlushIO) returns (ok: bool)
      requires Valid()
      modifies this, pending, cur, index
      ensures Valid() && index == old(index) && cur == old(cur)
      ensures forall x :: x in segments ==> x in old(segments)
      ensures FlushResult(Model(), ok) == LogClean.Clean(old(Model()), before, io)
    {
      hide Flush, KeptFrom, Segs, Images;
      var high, flushed := FlushLocked(io);
      if !flushed {
        return false;
      }
      ghost var f := Model();
      var kept, out := KeepLoop(before);
      Retain(kept, out);
      index.RemoveBefore(before);
      assert Segs() == out;
      assert index.entries == From(f.index, before);
      return true;
    }

    // The loop over the segments; it never drops the current one.
    method KeepLoop(before: nat) returns (kept: seq<Segment>, ghost out: seq<Seg>)
      requires Valid()
      ensures Picked(kept, segments[..|segments|]) && kept != [] && kept[|kept| - 1] == cur
      ensures out == KeptFrom(Segs(), nextSeq, before, 0)
      ensures |out| == |kept| && forall i :: 0 <= i < |kept| ==> kept[i].Model() == out[i]
    {
      hide KeptFrom, Picked;
      ghost var segs := Segs();
      kept, out := [], [];
      KeptNone(segs, nextSeq, before);
      PickNone(segments);
      for i := 0 to |segments|
        invariant Picked(kept, segments[..i])
        invariant |out| == |kept| && forall j :: 0 <= j < |kept| ==> kept[j].Model() == out[j]
        invariant KeptFrom(segs, nextSeq, before, 0) == out + KeptFrom(segs, nextSeq, before, i)
        invariant i == |segments| ==> kept != [] && kept[|kept| - 1] == cur
      {
        var last: int := nextSeq - 1;
        if i + 1 < |segments| {
          last := segments[i + 1].start - 1;
        }
        KeptStep(segs, nextSeq, before, i, out);
        PickNext(kept, segments, i);
        assert segments[i] == cur <==> i == |segments| - 1;
        if segments[i] == cur || last >= before {
          kept, out := kept + [segments[i]], out + [segs[i]];
        }
      }
      assert out + [] == out;
    }

    // Puts the kept segments in place.
    method Retain(kept: seq<Segment>, ghost out: seq<Seg>)
      requires Valid() && kept != [] && kept[|kept| - 1] == cur && Picked(kept, segments[..|segments|])
      requires |out| == |kept| && forall i :: 0 <= i < |kept| ==> kept[i].Model() == out[i]
      modifies this`segments
      ensures Valid() && cur == old(cur) && segments == kept && Segs() == out
      ensures forall x :: x in segments ==> x in old(segments)
    {
      hide Picked, Segs, Images;
      PickedOf(kept, segments);
      segments := kept;
      SegsAre(out);
    }

    lemma SegsAre(out: seq<Seg>)
      requires |out| == |segments| && forall i :: 0 <= i < |segments| ==> segments[i].Model() == out[i]
      ensures Segs() == out
    {
    }

    // Flips the stored checksum of record s and syncs the file.
    method Corrupt(s: nat, io: FaultIO) returns (outcome: FaultOutcome)
      requires Valid()
      modifies this, pending, segments
      ensures Valid() && segments == old(segments) && index == old(index)
      ensures (Model(), outcome) == Inject(old(Model()), s, io)
    {
      hide Flush, Segs, Images, FilesValid;
      var high, flushed := FlushLocked(io.flush);
      if !flushed {
        return FaultFlushFailed;
      }
      var loc := index.Get(s);
      if loc == None {
        return FaultNotFound;
      }
      ghost var f := Model();
      var seg := SegmentByStart(loc.value.segment);
      if seg == null {
        return FaultNotFound;
      }
      ghost var i := LogReads.SegmentByStart(f.segs, loc.value.segment, 0).value;
      var ok := FlipAt(seg, loc.value.offset + 3, io, i);
      return if ok then Injected else FaultIoFailed;
    }

    // ReadAt, flip, WriteAt, Sync.
    method FlipAt(seg: Segment, position: nat, io: FaultIO, ghost i: nat) returns (ok: bool)
      requires Valid() && i < |segments| && segments[i] == seg
      modifies seg
      ensures Valid()
      ensures position >= |old(seg.file)| || io.readErr || io.writeErr ==> !ok && Model() == old(Model())
      ensures position < |old(seg.file)| && !io.readErr && !io.writeErr ==>
                ok == !io.syncErr && Model() == FlipIn(old(Model()), i, position, !io.syncErr)
    {
      hide Segs, Images;
      if io.readErr || position >= |seg.file| || io.writeErr {
        return false;
      }
      ghost var segs := Segs();
      assert forall j :: 0 <= j < |segments| && j != i ==> segments[j] != seg;
      seg.file := seg.file[position := Flipped(seg.file[position])];
      ok := seg.Sync(io.syncErr);
      assert Segs() == segs[i := seg.Model()];
    }

    method SegmentReport() returns (report: seq<SegmentInfo>)
      requires Valid()
      ensures report == Report(Model())
    {
      report := [];
      for i := 0 to |segments|
        invariant report == Report(Model())[..i]
      {
        var end: int := nextSeq - 1;
        if i + 1 < |segments| {
          end := segments[i + 1].start - 1;
        }
        var bytes := segments[i].size;
        if segments[i] == cur {
          bytes := bytes + pending.Len();
        }
        assert segments[i] == cur <==> i == |segments| - 1;
        report := report + [SegmentInfo(segments[i].start, end, bytes, segments[i] == cur)];
      }
    }
  }

  // The segments that start at or before `start`, in order.
  function UpTo(segs: seq<Segment>, start: nat): seq<Segment> {
    if segs == [] then []
    else
      var n := |segs| - 1;
      UpTo(segs[..n], start) + (if segs[n].start <= start then [segs[n]] else [])
  }

  lemma {:induction false} UpToAll(segs: seq<Segment>, start: nat)
    requires forall s :: s in segs ==> s.start <= start
    ensures UpTo(segs, start) == segs
  {
    if segs != [] {
      var n := |segs| - 1;
      UpToAll(segs[..n], start);
      assert segs[..n] + [segs[n]] == segs;
    }
  }

  // Some of these segments, none twice.
  ghost predicate Picked(kept: seq<Segment>, segs: seq<Segment>) {
    && (forall s :: s in kept ==> s in segs)
    && (forall j, k :: 0 <= j < k < |kept| ==> kept[j] != kept[k])
  }

  lemma PickNext(kept: seq<Segment>, segs: seq<Segment>, i: nat)
    requires i < |segs| && Picked(kept, segs[..i])
    requires forall j, k :: 0 <= j < k < |segs| ==> segs[j] != segs[k]
    ensures Picked(kept, segs[..i + 1]) && Picked(kept + [segs[i]], segs[..i + 1])
  {
    assert forall s :: s in segs[..i] ==> s in segs[..i + 1] && s != segs[i];
    assert segs[..i + 1][i] == segs[i];
    assert forall j :: 0 <= j < |kept| ==> kept[j] in kept;
  }

  lemma PickNone(segs: seq<Segment>)
    ensures Picked([], segs[..0])
  {
  }

  lemma PickedOf(kept: seq<Segment>, segs: seq<Segment>)
    requires Picked(kept, segs[..|segs|])
    requires forall j :: 0 <= j < |segs| ==> segs[j].Valid()
    ensures forall j :: 0 <= j < |kept| ==> kept[j].Valid()
    ensures forall j, k :: 0 <= j < k < |kept| ==> kept[j] != kept[k]
    ensures forall x :: x in kept ==> x in segs
  {
    assert forall j :: 0 <= j < |kept| ==> kept[j] in kept;
  }

  lemma KeptNone(segs: seq<Seg>, nextSeq: nat, before: nat)
    ensures KeptFrom(segs, nextSeq, before, |segs|) == []
    ensures [] + KeptFrom(segs, nextSeq, before, 0) == KeptFrom(segs, nextSeq, before, 0)
  {
  }

  lemma KeptStep(segs: seq<Seg>, nextSeq: nat, before: nat, i: nat, kept: seq<Seg>)
    requires i < |segs|
    ensures kept + KeptFrom(segs, nextSeq, before, i)
         == if i == |segs| - 1 || LastOf(segs, nextSeq, i) >= before
            then kept + [segs[i]] + KeptFrom(segs, nextSeq, before, i + 1)
            else kept + KeptFrom(segs, nextSeq, before, i + 1)
  {
    var rest := KeptFrom(segs, nextSeq, before, i + 1);
    assert kept + ([segs[i]] + rest) == kept + [segs[i]] + rest;
  }

  // Open: load the segment files, recover, and hand out the handle, the position
  // of the corruption, or the failure of a repair. `left` is the directory as it
  // leaves it.
  method Open(opts: Options, files: seq<Image>, io: RepairIO)
      returns (w: WAL?, err: Option<RecoverError>, ghost left: seq<Image>)
    requires opts.Valid()
    requires files != [] ==> files[0].start >= 1
    requires forall i, j :: 0 <= i < j < |files| ==> files[i].start < files[j].start
    ensures var r := Recover(files, opts.maxRecord);
            if r.Rejected? then w == null && err == Some(Damaged(r.error)) && left == files
            else if r.truncated && io.Fails() then
              w == null && err == Some(RepairFailed) && left == AfterRepair(files, r, io)
            else
              && err == None && left == r.files
              && w != null && fresh(w) && fresh(w.pending) && fresh(w.index)
              && (forall s :: s in w.segments ==> fresh(s))
              && w.Valid() && w.Model() == Reopened(opts, r)
  {
    hide Recover, IndexOf;
    var v := new WAL(opts, files);
    assert v.Ordered() by {
      assert forall i :: 0 <= i < |v.segments| ==> v.Images()[i].start == v.segments[i].start;
    }
    ghost var loaded := v.segments;
    var result;
    result, err := v.RecoverLocked(io);
    left := v.Images();
    if err.Some? {
      return null, err, left;
    }
    assert v.AllSynced();
    assert forall i :: 0 <= i < |v.segments| ==> fresh(v.segments[i]) by {
      if loaded == [] {
        assert files == [];
        RecoverNothing(opts.maxRecord);
      } else {
        assert v.segments == loaded;
      }
    }
    ghost var found := Recover(files, opts.maxRecord);
    forall i | 0 <= i < |v.segments|
      ensures v.Segs()[i] == Reopened(opts, found).segs[i]
    {
      assert v.Images()[i] == Image(v.segments[i].start, v.segments[i].file);
    }
    assert v.Segs() == Reopened(opts, found).segs;
    assert v.Model() == Reopened(opts, found);
    w := v;
  }

  datatype RecoverError = Damaged(at: Corruption) | RepairFailed

  datatype RecoverReply =
    | RecoverFlushFailed
    | RecoverCorrupt(error: Corruption)
    | RecoverRepairFailed
    | RecoverDone(result: RecoveryResult)

  // What the scan of all files leaves to do, for files that recover to r: the
  // tail of the last file is either cut already or its open record is known.
  ghost predicate ScanLeft(files: seq<Image>, now: seq<Image>, r: Recovered, st: ScanState, truncated: bool,
                           io: RepairIO) {
    && files != [] && r.Opened? && st.out == r.out && st.lastSeq == r.lastSeq
    && if truncated then !st.assembling && now == AfterRepair(files, r, io) && r.truncated
       else
         && now == files
         && Placed(st, |files[|files| - 1].bytes|)
         && (st.assembling ==> st.seqNo >= files[|files| - 1].start)
         && r.truncated == st.assembling
         && r.files == CutLast(files, Boundary(st, |files[|files| - 1].bytes|))
  }

  lemma RecoverNothing(max: nat)
    ensures Recover([], max) == Opened([Image(1, [])], 0, [], false)
  {
  }

  lemma WholeLast(files: seq<Image>)
    requires files != []
    ensures CutLast(files, |files[|files| - 1].bytes|) == files
  {
    var b := files[|files| - 1].bytes;
    assert b[..|b|] == b;
  }

  lemma EmptyIndex()
    ensures IndexOf([]) == map[]
  {
  }

  // A scan never goes back in sequence numbers.
  lemma {:induction false} ScanAdvances(file: seq<byte>, segment: nat, max: nat, offset: nat, st: ScanState)
    requires offset <= |file| && Placed(st, offset)
    ensures var r := ScanFrom(file, segment, max, offset, st);
            !r.Corrupt? ==> r.st.lastSeq >= st.lastSeq
    decreases |file| - offset
  {
    hide DecodeAt, IsFirst, IsLast, IsPadding;
    if offset < |file| {
      var step := ScanStep(file, segment, max, offset, st);
      if step.Advance? {
        ScanAdvances(file, segment, max, step.next, step.st);
      }
    }
  }

  lemma RecordIsFrames(s: nat, p: seq<byte>, max: nat)
    requires max >= 1
    ensures RecordBytes(s, p, max) == Frames(Fragments(s, p, max))
  {
  }

  lemma StartsTaken(segs: seq<Seg>, next: nat)
    ensures next in SegStarts(segs) <==> exists i :: 0 <= i < |segs| && segs[i].start == next
  {
    if next in SegStarts(segs) {
      var i :| 0 <= i < |segs| && SegStarts(segs)[i] == next;
      assert segs[i].start == next;
    }
    if exists i :: 0 <= i < |segs| && segs[i].start == next {
      var i :| 0 <= i < |segs| && segs[i].start == next;
      assert SegStarts(segs)[i] == next;
    }
  }
}
