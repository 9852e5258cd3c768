// The write path never takes back what was confirmed or indexed.
module LogOnward {
  import opened Bytes
  import opened History
  import opened LogState
  import opened LogSteps
  import opened LogCrash

  // The log moved on: nothing confirmed or indexed was lost.
  ghost predicate Onward(v: Log, x: Log) {
    && v.durable <= x.durable
    && forall from: nat :: Covers(v, from) ==> Covers(x, from)
  }

  // The same for what starts at or above a.
  ghost predicate OnwardFrom(v: Log, x: Log, a: nat) {
    && v.durable <= x.durable
    && forall from: nat :: a <= from && Covers(v, from) ==> Covers(x, from)
  }

  lemma OnwardAbove(v: Log, x: Log, a: nat)
    requires Onward(v, x)
    ensures OnwardFrom(v, x, a)
  {
    hide Covers;
  }

  lemma OnwardFromTrans(u: Log, v: Log, w: Log, a: nat)
    requires OnwardFrom(u, v, a) && OnwardFrom(v, w, a)
    ensures OnwardFrom(u, w, a)
  {
    hide Covers;
  }

  lemma FlushFirst(v: Log, io: FlushIO)
    requires v.segs != []
    ensures Flush(v, io).log.segs[0].start == v.segs[0].start
  {
  }

  lemma FlushOnward(v: Log, h: seq<seq<byte>>, io: FlushIO)
    requires Inv(v, h) && v.segs != []
    ensures Onward(v, Flush(v, io).log)
  {
    hide Inv, Flush;
    FlushConfirmsAll(v, h, io);
    var f := Flush(v, io).log;
    assert f.segs[0].start == SegStarts(f.segs)[0] == SegStarts(v.segs)[0] == v.segs[0].start;
  }

  lemma CreatedOnward(v: Log)
    requires v.segs != []
    ensures Onward(v, Created(v))
  {
  }

  lemma PutOnward(v: Log, p: seq<byte>)
    requires v.segs != [] && v.opts.maxRecord >= 1
    ensures Onward(v, Put(v, p))
  {
    hide RecordBytes;
  }

  lemma OnwardTrans(u: Log, v: Log, w: Log)
    requires Onward(u, v) && Onward(v, w)
    ensures Onward(u, w)
  {
    hide Covers;
  }

  lemma RoomOnward(v: Log, h: seq<seq<byte>>, total: nat, io: AppendIO)
    requires Inv(v, h) && v.segs != []
    ensures Onward(v, Room(v, total, io).log)
  {
    hide Inv, Flush, Covers;
    FlushOnward(v, h, io.rotate);
    var f := Flush(v, io.rotate).log;
    CreatedOnward(f);
    OnwardTrans(v, f, Created(f));
  }

  lemma LowOnward(v: Log, low: nat)
    requires v.segs != []
    ensures Onward(v, v.(low := low)) && Onward(v, v.(low := v.low))
  {
  }

  // Nothing confirmed or indexed is lost at any moment of an append.
  lemma AppendOnward(v: Log, p: seq<byte>, force: bool, io: AppendIO, h: seq<seq<byte>>, x: Log)
    requires Inv(v, h) && v.segs != []
    requires RollbackWorks(io.rotate) && RollbackWorks(io.flush)
    requires v.nextSeq < 0x1_0000_0000_0000_0000
    requires x in AppendSteps(v, p, force, io) || x == Append(v, p, force, io).log
    ensures Onward(v, x)
  {
    hide Inv, Flush, Covers, Room, RecordBytes, Onward, Put;
    Unfold(v, h);
    var total := |RecordBytes(v.nextSeq, p, v.opts.maxRecord)|;
    var room := Room(v, total, io);
    SelfOnward(v);
    if |p| <= v.opts.maxPayload {
      RoomKeeps(v, p, io, h);
      RoomOnward(v, h, total, io);
      FlushOnward(v, h, io.rotate);
      LowOnward(room.log, v.nextSeq);
      OnwardTrans(v, room.log, room.log.(low := v.nextSeq));
      OnwardTrans(v, room.log, room.log.(low := room.log.low));
      if room.ok && Storable(p, v.opts.maxRecord) {
        PutKeeps(room.log, p, h);
        var w := Put(room.log, p);
        PutOnward(room.log, p);
        OnwardTrans(v, room.log, w);
        FlushOnward(w, h + [p], io.flush);
        OnwardTrans(v, w, Flush(w, io.flush).log);
      }
    }
  }

  lemma SelfOnward(v: Log)
    ensures Onward(v, v)
  {
  }

  lemma LastAppendStep(v: Log, p: seq<byte>, force: bool, io: AppendIO)
    requires v.segs != [] && v.opts.maxRecord >= 1
    ensures var steps := AppendSteps(v, p, force, io);
            steps[|steps| - 1] == Append(v, p, force, io).log
  {
    hide Room, Flush, Put;
  }
}
