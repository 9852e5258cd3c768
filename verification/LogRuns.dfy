// Whole lives of an open handle: any sequence of appends and flushes, with any
// outcomes of the file system in which a failed partial write can be rolled
// back.
module LogRuns {
  import opened History
  import opened Recovery
  import opened LogState
  import opened LogSteps
  import opened LogCrash
  import opened LogClean
  import opened LogOnward

  datatype LogEvent =
    | Appending(p: Payload, force: bool, io: AppendIO)
    | Flushing(flush: FlushIO)

  function Next(v: Log, e: LogEvent): (w: Log)
    requires v.segs != [] && v.opts.maxRecord >= 1
    ensures w.segs != [] && w.opts == v.opts
  {
    match e
    case Appending(p, force, io) => LogState.Append(v, p, force, io).log
    case Flushing(io) => Flush(v, io).log
  }

  function RunLog(v: Log, es: seq<LogEvent>): (w: Log)
    requires v.segs != [] && v.opts.maxRecord >= 1
    ensures w.segs != [] && w.opts == v.opts
    decreases es
  {
    if es == [] then v else RunLog(Next(v, es[0]), es[1..])
  }

  // The history with the payload of this event, if it was given a sequence.
  function Grown(v: Log, h: seq<Payload>, e: LogEvent): seq<Payload>
    requires v.segs != [] && v.opts.maxRecord >= 1
  {
    if e.Appending? && Next(v, e).nextSeq > v.nextSeq then h + [e.p] else h
  }

  function RunHistory(v: Log, h: seq<Payload>, es: seq<LogEvent>): seq<Payload>
    requires v.segs != [] && v.opts.maxRecord >= 1
    decreases es
  {
    if es == [] then h else RunHistory(Next(v, es[0]), Grown(v, h, es[0]), es[1..])
  }

  predicate NoRollbackFails(e: LogEvent) {
    match e
    case Appending(_, _, io) => RollbackWorks(io.rotate) && RollbackWorks(io.flush)
    case Flushing(io) => RollbackWorks(io)
  }

  ghost predicate Runnable(v: Log, es: seq<LogEvent>) {
    v.nextSeq + |es| <= 0x1_0000_0000_0000_0000 && forall i :: 0 <= i < |es| ==> NoRollbackFails(es[i])
  }

  lemma AppendFirst(v: Log, p: Payload, force: bool, io: AppendIO)
    requires v.segs != [] && v.opts.maxRecord >= 1
    ensures LogState.Append(v, p, force, io).log.segs[0].start == v.segs[0].start
  {
    hide Flush, RecordBytes;
    FlushFirst(v, io.rotate);
    var room := Room(v, |RecordBytes(v.nextSeq, p, v.opts.maxRecord)|, io).log;
    assert room.segs[0].start == v.segs[0].start;
    FlushFirst(Put(room, p), io.flush);
  }

  lemma NextKeeps(v: Log, h: seq<Payload>, x: LogEvent, e: nat)
    requires Inv(v, h) && v.segs != [] && v.opts.maxRecord >= 1 && Conserved(v, h, e)
    requires NoRollbackFails(x) && v.nextSeq < 0x1_0000_0000_0000_0000
    ensures var w, g := Next(v, x), Grown(v, h, x);
            && Inv(w, g) && Conserved(w, g, e) && Onward(v, w)
            && w.segs[0].start == v.segs[0].start
            && v.nextSeq <= w.nextSeq <= v.nextSeq + 1
  {
    hide Inv, LogState.Append, Flush, Conserved, Onward;
    match x
    case Appending(p, force, io) =>
      AppendKeeps(v, p, force, io, h);
      AppendConserves(v, p, force, io, h, e);
      AppendOnward(v, p, force, io, h, LogState.Append(v, p, force, io).log);
      AppendFirst(v, p, force, io);
    case Flushing(io) =>
      FlushKeepsUnlessRollbackFails(v, h, io);
      FlushConserves(v, h, io, e);
      FlushOnward(v, h, io);
      FlushFirst(v, io);
  }

  // Every run keeps the log invariant for the history it assigned, never
  // forgets or renumbers a record, and keeps the byte count.
  lemma {:induction false} RunKeeps(v: Log, h: seq<Payload>, es: seq<LogEvent>, e: nat)
    requires Inv(v, h) && v.segs != [] && v.opts.maxRecord >= 1 && Conserved(v, h, e) && Runnable(v, es)
    ensures var w, g := RunLog(v, es), RunHistory(v, h, es);
            && Inv(w, g) && Conserved(w, g, e) && Onward(v, w)
            && w.segs[0].start == v.segs[0].start
            && h <= g
    decreases es
  {
    hide Inv, Next, Conserved, Onward;
    if es == [] {
      SelfOnward(v);
    } else {
      NextKeeps(v, h, es[0], e);
      var w, g := Next(v, es[0]), Grown(v, h, es[0]);
      assert h <= g;
      RunKeeps(w, g, es[1..], e);
      OnwardTrans(v, w, RunLog(w, es[1..]));
    }
  }

  // A handle as Open returns it.
  ghost predicate JustOpened(v: Log, h: seq<Payload>) {
    && Inv(v, h) && v.segs != []
    && v.bytesWritten == 0 && v.durable + 1 == v.nextSeq
    && Indexed(v, v.segs[0].start)
  }

  // At any moment of any run the metrics and the buffer add up to the encoded
  // size of the records assigned through this handle, and the files followed by
  // the buffer are the encoding of the whole retained history.
  lemma RunAccountsForEveryByte(v: Log, h: seq<Payload>, es: seq<LogEvent>)
    requires JustOpened(v, h) && v.opts.maxRecord >= 1 && Runnable(v, es)
    ensures var w, g := RunLog(v, es), RunHistory(v, h, es);
            && h <= g && |h| + 1 == v.nextSeq && |g| + 1 == w.nextSeq
            && v.durable <= w.durable
            && w.bytesWritten + w.unsyncedBytes + |w.pending| == |LogBytes(g, |h| + 1, |g| + 1, v.opts.maxRecord)|
            && 1 <= w.segs[0].start <= w.nextSeq
            && AllBytes(w.segs) + w.pending == LogBytes(g, w.segs[0].start, |g| + 1, v.opts.maxRecord)
  {
    hide Inv, Conserved, LogBytes, RunLog, RunHistory, AllBytes;
    OpenConserves(v, h);
    RunKeeps(v, h, es, v.nextSeq);
    var w, g := RunLog(v, es), RunHistory(v, h, es);
    HistoryLength(v, h);
    HistoryLength(w, g);
    ConservedTotal(w, g, v.nextSeq);
    DiskIsPrefix(w, g);
  }

  lemma HistoryLength(v: Log, h: seq<Payload>)
    requires Inv(v, h)
    ensures v.nextSeq == |h| + 1
  {
    hide LogBytes, Tiling;
  }

  // After any run that ends in a successful flush, a rescan of the files finds
  // exactly the index and counters the handle maintained.
  lemma RunAgreesWithRescan(v: Log, h: seq<Payload>, es: seq<LogEvent>, io: FlushIO)
    requires JustOpened(v, h) && v.opts.maxRecord >= 1 && Runnable(v, es) && RollbackWorks(io)
    requires Flush(RunLog(v, es), io).ok
    ensures var f := Flush(RunLog(v, es), io).log;
            && f.segs != [] && f.segs[0].start >= 1
            && var r := Recover(Files(f), f.opts.maxRecord);
               && r.Opened? && !r.truncated && r.files == Files(f)
               && r.lastSeq == f.durable == f.nextSeq - 1 == |RunHistory(v, h, es)|
               && IndexOf(r.out) == f.index
  {
    hide Inv, Conserved, LogBytes, RunLog, RunHistory, Recover, IndexOf, Flush;
    OpenConserves(v, h);
    RunKeeps(v, h, es, v.nextSeq);
    var w, g := RunLog(v, es), RunHistory(v, h, es);
    assert Covers(v, v.segs[0].start);
    assert Covers(w, v.segs[0].start);
    FlushKeepsUnlessRollbackFails(w, g, io);
    FlushConfirmsAll(w, g, io);
    FlushedClean(w, g, io);
    FlushFirst(w, io);
    var f := Flush(w, io).log;
    HistoryLength(f, g);
    RescanAgrees(f, g);
  }
}
