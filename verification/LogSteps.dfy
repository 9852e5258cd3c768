// Every step of the write path keeps the log invariant, over all outcomes of
// the file system in which a failed partial write can be rolled back.
module LogSteps {
  import opened History
  import opened Recovery
  import opened LogState

  // ----- A new segment -----

  lemma HomeOfPrefix(starts: seq<nat>, b: nat, s: nat)
    requires starts != [] && starts[0] <= s < b
    ensures (starts + [b])[0] <= s && Home(starts + [b], s) == Home(starts, s)
  {
    assert (starts + [b])[..|starts|] == starts;
  }

  lemma PlaceOfPrefix(starts: seq<nat>, h: seq<Payload>, b: nat, s: nat, max: nat)
    requires max >= 1 && starts != [] && 1 <= starts[0] <= s < b && s <= |h|
    ensures (starts + [b])[0] == starts[0]
    ensures Place(starts + [b], h, s, max) == Place(starts, h, s, max)
  {
    hide LogBytes, RecordBytes, Home;
    HomeOfPrefix(starts, b, s);
  }

  lemma CreatedLayout(v: Log, h: seq<Payload>)
    requires Layout(v, h) && Watermarks(v, h) && v.pending == [] && v.unsyncedHigh == 0
    requires Cur(v).start < v.nextSeq
    ensures v.nextSeq !in SegStarts(v.segs)
    ensures Layout(Created(v), h) && Watermarks(Created(v), h)
  {
    hide LogBytes;
    LayoutSegs(v, h);
    var w := Created(v);
    var starts := SegStarts(v.segs);
    forall i | 0 <= i < |starts|
      ensures starts[i] < v.nextSeq
    {
      TilingOrder(starts, OnFile(v), i, |starts| - 1);
    }
    assert SegStarts(w.segs) == starts + [v.nextSeq];
    LogEmpty(h, v.nextSeq, v.opts.maxRecord);
    assert v.durable + 1 == OnFile(v) == v.nextSeq;
    assert Cur(w) == Seg(v.nextSeq, [], 0);
    assert forall i :: 0 <= i < |v.segs| ==> w.segs[i] == v.segs[i];
  }

  lemma CreatedKeeps(v: Log, h: seq<Payload>)
    requires Inv(v, h) && v.pending == [] && v.unsyncedHigh == 0
    requires Cur(v).start < v.nextSeq
    ensures v.nextSeq !in SegStarts(v.segs)
    ensures Inv(Created(v), h)
  {
    hide LogBytes, Tiling, Layout, Watermarks, Place;
    LayoutSegs(v, h);
    CreatedLayout(v, h);
    var w := Created(v);
    var starts := SegStarts(v.segs);
    assert SegStarts(w.segs) == starts + [v.nextSeq];
    forall s | s in w.index
      ensures w.index[s] == Place(SegStarts(w.segs), h, s, w.opts.maxRecord)
    {
      PlaceOfPrefix(starts, h, v.nextSeq, s, v.opts.maxRecord);
    }
    forall i | 0 <= i < |w.segs|
      ensures InLimit(w, i)
    {
      if i < |v.segs| {
        assert InLimit(v, i);
        assert w.segs[i] == v.segs[i];
        assert Load(w, i) == Load(v, i) && Until(w, i) == Until(v, i);
      }
    }
  }

  // ----- A buffered record -----

  lemma Recorded(h: seq<Payload>, p: Payload, max: nat)
    requires Recordable(h, max) && Storable(p, max) && |h| + 1 < 0x1_0000_0000_0000_0000
    ensures Recordable(h + [p], max)
  {
  }

  lemma LogOfPrefix(h: seq<Payload>, p: Payload, a: nat, b: nat, max: nat)
    requires max >= 1 && Range(h, a, b)
    ensures Range(h + [p], a, b) && LogBytes(h + [p], a, b, max) == LogBytes(h, a, b, max)
  {
    assert (h + [p])[..b - 1] == h[..b - 1];
    LogAgree(h, h + [p], a, b, max);
  }

  lemma PlaceOfLonger(starts: seq<nat>, b: nat, h: seq<Payload>, p: Payload, s: nat, max: nat)
    requires max >= 1 && Tiling(starts, b) && starts[0] <= s <= |h|
    ensures Place(starts, h + [p], s, max) == Place(starts, h, s, max)
  {
    hide LogBytes, RecordBytes;
    var i := Home(starts, s);
    TilingOrder(starts, b, i, |starts| - 1);
    LogOfPrefix(h, p, starts[i], s, max);
  }

  lemma PutLayout(v: Log, p: Payload, h: seq<Payload>)
    requires Layout(v, h) && Watermarks(v, h)
    ensures Layout(Put(v, p), h + [p]) && Watermarks(Put(v, p), h + [p])
    ensures OnFile(Put(v, p)) == OnFile(v)
  {
    hide LogBytes, RecordBytes, Tiling;
    LayoutSegs(v, h);
    LayoutPending(v, h);
    var w, g, max := Put(v, p), h + [p], v.opts.maxRecord;
    RecordSize(v.nextSeq, p, max);
    assert w.pending != [];
    forall i, j | 0 <= i && j == i + 1 < |w.segs|
      ensures Closed(g, w.segs[i], w.segs[j], max)
    {
      assert Closed(h, v.segs[i], v.segs[j], max);
      LogOfPrefix(h, p, v.segs[i].start, v.segs[j].start, max);
    }
    LogOfPrefix(h, p, Cur(v).start, OnFile(v), max);
    LogOfPrefix(h, p, OnFile(v), v.nextSeq, max);
    LogOfPrefix(h, p, Cur(v).start, v.durable + 1, max);
    LogOfPrefix(h, p, v.durable + 1, OnFile(v), max);
    LogNext(g, OnFile(v), v.nextSeq, max);
    assert w.segs == v.segs && OnFile(w) == OnFile(v) && Cur(w) == Cur(v);
    assert Tiling(SegStarts(w.segs), OnFile(w));
    assert Range(g, Cur(w).start, OnFile(w)) && Range(g, OnFile(w), w.nextSeq);
    assert Cur(w).bytes == LogBytes(g, Cur(w).start, OnFile(w), max);
    assert w.pending == LogBytes(g, OnFile(w), w.nextSeq, max);
    assert Layout(w, g);
  }

  lemma PutIndex(v: Log, p: Payload, h: seq<Payload>)
    requires Layout(v, h) && IndexSound(v, h)
    requires Layout(Put(v, p), h + [p])
    ensures IndexSound(Put(v, p), h + [p])
  {
    hide LogBytes, RecordBytes, Layout, Tiling, Place;
    LayoutSegs(v, h);
    LayoutPending(v, h);
    var w, g, max := Put(v, p), h + [p], v.opts.maxRecord;
    var starts := SegStarts(v.segs);
    forall s | s in w.index
      ensures v.segs[0].start <= s < w.nextSeq
      ensures w.index[s] == Place(starts, g, s, max)
    {
      if s == v.nextSeq {
        var i := |starts| - 1;
        HomeIs(starts, OnFile(v), s, i);
        PlaceAt(starts, g, s, max, i);
        LogOfPrefix(h, p, Cur(v).start, s, max);
        LogSplit(h, Cur(v).start, OnFile(v), s, max);
      } else {
        PlaceOfLonger(starts, OnFile(v), h, p, s, max);
      }
    }
  }

  // The record goes where it fits, or into a segment of its own.
  ghost predicate Fits(v: Log, p: Payload)
    requires v.segs != [] && v.opts.maxRecord >= 1
  {
    || Load(v, |v.segs| - 1) + |RecordBytes(v.nextSeq, p, v.opts.maxRecord)| <= v.opts.maxSegment
    || Cur(v).start == v.nextSeq
  }

  lemma PutKeeps(v: Log, p: Payload, h: seq<Payload>)
    requires Inv(v, h) && Storable(p, v.opts.maxRecord) && v.nextSeq < 0x1_0000_0000_0000_0000
    requires v.segs != [] && Fits(v, p)
    ensures Inv(Put(v, p), h + [p])
  {
    hide LogBytes, RecordBytes, Layout, Watermarks, IndexSound, Tiling, Place;
    LayoutSegs(v, h);
    Recorded(h, p, v.opts.maxRecord);
    PutLayout(v, p, h);
    PutIndex(v, p, h);
    var w := Put(v, p);
    forall i | 0 <= i < |w.segs|
      ensures InLimit(w, i)
    {
      if i < |v.segs| - 1 {
        assert InLimit(v, i);
        assert Load(w, i) == Load(v, i) && Until(w, i) == Until(v, i);
      }
    }
  }

  // ----- Making room -----

  lemma EmptyCurrent(v: Log, h: seq<Payload>)
    requires Layout(v, h)
    ensures v.segs != [] && (Load(v, |v.segs| - 1) == 0 <==> Cur(v).start == v.nextSeq)
  {
    hide RecordBytes, Tiling;
    LayoutSegs(v, h);
    LogGrows(h, Cur(v).start, OnFile(v), v.opts.maxRecord);
    LogGrows(h, OnFile(v), v.nextSeq, v.opts.maxRecord);
  }

  predicate RollbackWorks(io: FlushIO) { !io.truncErr }

  // Rotation happens only with something in the current segment, never picks a
  // name that exists, and afterwards the record fits or stands alone.
  lemma RoomKeeps(v: Log, p: Payload, io: AppendIO, h: seq<Payload>)
    requires Inv(v, h) && RollbackWorks(io.rotate)
    requires v.segs != []
    ensures var total := |RecordBytes(v.nextSeq, p, v.opts.maxRecord)|;
            var room := Room(v, total, io);
            && room.log.segs != []
            && Inv(room.log, h)
            && room.log.opts == v.opts && room.log.nextSeq == v.nextSeq && room.log.index == v.index
            && v.durable <= room.log.durable
            && (room.ok ==> Fits(room.log, p))
            && (NeedsRotation(v, total) && Flush(v, io.rotate).ok ==>
                 && Cur(v).start < v.nextSeq
                 && v.nextSeq !in SegStarts(Flush(v, io.rotate).log.segs))
  {
    hide LogBytes, RecordBytes, Tiling, Layout, Watermarks, IndexSound, Bounded;
    var total := |RecordBytes(v.nextSeq, p, v.opts.maxRecord)|;
    EmptyCurrent(v, h);
    if NeedsRotation(v, total) {
      FlushKeepsUnlessRollbackFails(v, h, io.rotate);
      FlushConfirmsAll(v, h, io.rotate);
      var f := Flush(v, io.rotate);
      LayoutSegs(f.log, h);
      assert Cur(v).start < v.nextSeq;
      assert Cur(f.log).start == SegStarts(f.log.segs)[|f.log.segs| - 1]
             == SegStarts(v.segs)[|v.segs| - 1] == Cur(v).start;
      if f.ok {
        FlushedClean(v, h, io.rotate);
        CreatedKeeps(f.log, h);
      }
    }
  }

  lemma FlushedClean(v: Log, h: seq<Payload>, io: FlushIO)
    requires Inv(v, h) && v.segs != [] && Flush(v, io).ok
    ensures Flush(v, io).log.pending == [] && Flush(v, io).log.unsyncedHigh == 0
  {
    hide Inv;
  }

  // ----- Appending -----

  // The one theorem about append: a refused payload leaves the history alone, an
  // assigned one extends it by exactly this record, also when its flush failed.
  lemma AppendKeeps(v: Log, p: Payload, force: bool, io: AppendIO, h: seq<Payload>)
    requires Inv(v, h) && v.segs != []
    requires RollbackWorks(io.rotate) && RollbackWorks(io.flush)
    requires v.nextSeq < 0x1_0000_0000_0000_0000
    ensures var r := Append(v, p, force, io);
            && r.log.opts == v.opts
            && v.durable <= r.log.durable
            && match r.outcome
               case Assigned(s) =>
                 && s == v.nextSeq == r.log.nextSeq - 1
                 && Inv(r.log, h + [p])
                 && (force ==> r.log.durable == s)
               case FlushFailed =>
                 && r.log.nextSeq == v.nextSeq + 1
                 && Inv(r.log, h + [p])
                 && r.log.durable < v.nextSeq
               case RotateFailed => r.log.nextSeq == v.nextSeq && Inv(r.log, h)
               case TooBig =>
                 && r.log.nextSeq == v.nextSeq
                 && Inv(r.log, h)
                 && (|p| > v.opts.maxPayload || !Storable(p, v.opts.maxRecord))
  {
    hide LogBytes, RecordBytes, Tiling, Layout, Watermarks, IndexSound, Bounded, Room, Flush;
    if |p| <= v.opts.maxPayload {
      RoomKeeps(v, p, io, h);
      var room := Room(v, |RecordBytes(v.nextSeq, p, v.opts.maxRecord)|, io);
      if room.ok {
        if !Storable(p, v.opts.maxRecord) {
          LowIsFree(room.log, h);
        } else {
          PutKeeps(room.log, p, h);
          var w := Put(room.log, p);
          assert w.durable == room.log.durable;
          FlushKeepsUnlessRollbackFails(w, h + [p], io.flush);
          FlushConfirmsAll(w, h + [p], io.flush);
          DurableAssigned(room.log, h);
        }
      }
    }
  }

  lemma DurableAssigned(v: Log, h: seq<Payload>)
    requires Inv(v, h)
    ensures v.durable < v.nextSeq
  {
    hide LogBytes, Tiling;
    LayoutSegs(v, h);
  }

  // An encoding failure may set the buffer's low mark; it means nothing while
  // the buffer is empty.
  lemma LowIsFree(v: Log, h: seq<Payload>)
    requires Inv(v, h)
    ensures Inv(v.(low := if v.pending == [] then v.nextSeq else v.low), h)
  {
    hide LogBytes, Tiling, Place;
    var w := v.(low := if v.pending == [] then v.nextSeq else v.low);
    assert OnFile(w) == OnFile(v);
    LayoutSegs(v, h);
    forall i | 0 <= i < |w.segs|
      ensures InLimit(w, i)
    {
      assert InLimit(v, i);
    }
  }

  // ----- Every moment of an append -----

  // The states an append passes through, each of which a crash can interrupt.
  function AppendSteps(v: Log, p: Payload, force: bool, io: AppendIO): (steps: seq<Log>)
    requires v.segs != [] && v.opts.maxRecord >= 1
    ensures steps != []
  {
    if |p| > v.opts.maxPayload then [v]
    else
      var total := |RecordBytes(v.nextSeq, p, v.opts.maxRecord)|;
      var room := Room(v, total, io);
      var before := if NeedsRotation(v, total) then [v, Flush(v, io.rotate).log, room.log] else [v];
      if !room.ok || !Storable(p, v.opts.maxRecord) then before + [Append(v, p, force, io).log]
      else before + [Put(room.log, p), Append(v, p, force, io).log]
  }

  // A state in the middle of a run whose full history is h.
  ghost predicate InvAt(v: Log, h: seq<Payload>) {
    1 <= v.nextSeq <= |h| + 1 && Inv(v, h[..v.nextSeq - 1])
  }

  // At every moment the invariant holds for the history assigned so far, and
  // confirmed sequences stay confirmed.
  lemma AppendStepsKeep(v: Log, p: Payload, force: bool, io: AppendIO, h: seq<Payload>, x: Log)
    requires Inv(v, h) && v.segs != []
    requires RollbackWorks(io.rotate) && RollbackWorks(io.flush)
    requires v.nextSeq < 0x1_0000_0000_0000_0000
    requires x in AppendSteps(v, p, force, io)
    ensures x.opts == v.opts && v.durable <= x.durable
    ensures (x.nextSeq == v.nextSeq && Inv(x, h)) || (x.nextSeq == v.nextSeq + 1 && Inv(x, h + [p]))
    ensures InvAt(x, h + [p])
  {
    hide LogBytes, RecordBytes, Tiling, Layout, Watermarks, IndexSound, Bounded, Flush, Room;
    AppendKeeps(v, p, force, io, h);
    var total := |RecordBytes(v.nextSeq, p, v.opts.maxRecord)|;
    var room := Room(v, total, io);
    RoomKeeps(v, p, io, h);
    FlushKeepsUnlessRollbackFails(v, h, io.rotate);
    FlushConfirmsAll(v, h, io.rotate);
    if room.ok && Storable(p, v.opts.maxRecord) {
      PutKeeps(room.log, p, h);
    }
    assert |h| + 1 == v.nextSeq by { LayoutSegs(v, h); }
    assert h == (h + [p])[..|h|] && h + [p] == (h + [p])[..|h| + 1];
  }
}
