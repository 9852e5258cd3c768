// Reading records back: Read and readLocation (internal/wal/reader.go) and the
// walk of Replay and Verify (internal/wal/replay.go).
module LogReads {
  import opened Bytes
  import opened History
  import opened Recovery
  import opened LogState
  import opened LogSteps
  import opened LogCrash

  datatype ReadError =
    | NotFound
    | CorruptAt(error: Corruption)
    | UnexpectedEnd
    | FlushError

  datatype ReadOutcome = Payload(data: seq<byte>) | ReadFailed(error: ReadError)

  // segmentByStart: the first segment with this start.
  function SegmentByStart(segs: seq<Seg>, start: nat, from: nat): (found: Option<nat>)
    ensures found.Some? ==> from <= found.value < |segs| && segs[found.value].start == start
    decreases |segs| - from
  {
    if from >= |segs| then None
    else if segs[from].start == start then Some(from)
    else SegmentByStart(segs, start, from + 1)
  }

  function Outcome(start: nat, r: ReadResult): ReadOutcome {
    match r
    case Data(p) => Payload(p)
    case Damage(at, why) => ReadFailed(CorruptAt(Corruption(start, at, why)))
    case Short => ReadFailed(UnexpectedEnd)
  }

  function ReadLocation(v: Log, s: nat, loc: Location): ReadOutcome {
    match SegmentByStart(v.segs, loc.segment, 0)
    case None => ReadFailed(NotFound)
    case Some(i) =>
      Outcome(v.segs[i].start,
              ReadFrom(v.segs[i].bytes, v.opts.maxRecord, s, loc.offset, loc.offset + loc.size, true, []))
  }

  function ReadIndexed(v: Log, s: nat): ReadOutcome {
    if s in v.index then ReadLocation(v, s, v.index[s]) else ReadFailed(NotFound)
  }

  // Read flushes first when the sequence is not confirmed yet.
  function Read(v: Log, s: nat, io: FlushIO): (Log, ReadOutcome)
    requires v.segs != []
  {
    if s > v.durable then
      var f := Flush(v, io);
      if f.ok then (f.log, ReadIndexed(f.log, s)) else (f.log, ReadFailed(FlushError))
    else (v, ReadIndexed(v, s))
  }

  // ----- Every index entry reads back its record -----

  lemma {:induction false} FindsSegment(segs: seq<Seg>, b: nat, i: nat, from: nat)
    requires Tiling(SegStarts(segs), b) && from <= i < |segs|
    ensures SegmentByStart(segs, segs[i].start, from) == Some(i)
    decreases i - from
  {
    if from < i {
      TilingOrder(SegStarts(segs), b, from, i);
      assert SegStarts(segs)[from] == segs[from].start && SegStarts(segs)[i] == segs[i].start;
      FindsSegment(segs, b, i, from + 1);
    }
  }

  // Record s inside the stretch a, ..., b - 1.
  lemma RecordInside(h: seq<seq<byte>>, a: nat, s: nat, b: nat, max: nat)
    requires max >= 1 && Range(h, a, s) && s < b && Range(h, s + 1, b)
    ensures var base, n := |LogBytes(h, a, s, max)|, |RecordBytes(s, h[s - 1], max)|;
            var file := LogBytes(h, a, b, max);
            && base + n == |LogBytes(h, a, s + 1, max)| <= |file|
            && file[base..base + n] == RecordBytes(s, h[s - 1], max)
  {
    hide LogBytes, RecordBytes;
    LogSplit(h, a, s + 1, b, max);
    LogNext(h, a, s, max);
  }

  // The segment and offset of record s, and the stretch its segment holds.
  lemma WhereIs(v: Log, h: seq<seq<byte>>, s: nat) returns (i: nat, end: nat)
    requires Inv(v, h) && s in v.index && s < OnFile(v)
    ensures i < |v.segs| && 1 <= v.segs[i].start <= s < end <= |h| + 1
    ensures v.segs[i].bytes == LogBytes(h, v.segs[i].start, end, v.opts.maxRecord)
    ensures v.index[s] == LocationOf(EntryOf(h, v.segs[i].start, s, v.opts.maxRecord))
    ensures SegmentByStart(v.segs, v.segs[i].start, 0) == Some(i)
    ensures end == if i + 1 < |v.segs| then v.segs[i + 1].start else OnFile(v)
    ensures i == Home(SegStarts(v.segs), s)
  {
    hide LogBytes, RecordBytes, Watermarks, Bounded, Home;
    LayoutSegs(v, h);
    var starts := SegStarts(v.segs);
    i := Home(starts, s);
    HomeBounds(starts, OnFile(v), s);
    TilingOrder(starts, OnFile(v), i, |starts| - 1);
    PlaceAt(starts, h, s, v.opts.maxRecord, i);
    FindsSegment(v.segs, OnFile(v), i, 0);
    end := if i + 1 < |v.segs| then v.segs[i + 1].start else OnFile(v);
    if i + 1 < |v.segs| {
      assert starts[i + 1] == v.segs[i + 1].start;
    }
  }

  lemma {:induction false} HomeBounds(starts: seq<nat>, b: nat, s: nat)
    requires Tiling(starts, b) && starts[0] <= s
    ensures var i := Home(starts, s); i + 1 < |starts| ==> s < starts[i + 1]
    decreases |starts|
  {
    var n := |starts| - 1;
    if starts[n] > s {
      HomeBounds(starts[..n], starts[n], s);
    }
  }

  lemma IndexReadsBack(v: Log, h: seq<seq<byte>>, s: nat)
    requires Inv(v, h) && s in v.index && s < OnFile(v)
    ensures 1 <= s <= |h|
    ensures ReadIndexed(v, s) == Payload(h[s - 1])
  {
    hide LogBytes, RecordBytes, Layout, Watermarks, IndexSound, Bounded, ReadFrom;
    var i, end := WhereIs(v, h, s);
    var a, max := v.segs[i].start, v.opts.maxRecord;
    RecordInside(h, a, s, end, max);
    ReadRecord(v.segs[i].bytes, max, s, h[s - 1], max, |LogBytes(h, a, s, max)|);
  }

  // Read returns the payload that was appended under this sequence; only a
  // sequence that is not indexed, or a failing flush, makes it fail.
  lemma ReadReturnsAppended(v: Log, h: seq<seq<byte>>, s: nat, io: FlushIO)
    requires Inv(v, h) && v.segs != [] && RollbackWorks(io)
    ensures var (w, r) := Read(v, s, io);
            && Inv(w, h)
            && (s <= v.durable || Flush(v, io).ok ==>
                 if s in v.index then 1 <= s <= |h| && r == Payload(h[s - 1]) else r == ReadFailed(NotFound))
            && (s > v.durable && !Flush(v, io).ok ==> r == ReadFailed(FlushError))
  {
    hide Layout, Watermarks, IndexSound, Bounded, ReadIndexed, Flush;
    FlushKeepsUnlessRollbackFails(v, h, io);
    FlushConfirmsAll(v, h, io);
    var w := Read(v, s, io).0;
    DurableOnFile(w, h);
    NotIndexed(w, s);
    if s in w.index {
      IndexedRange(w, h, s);
      if s < OnFile(w) {
        IndexReadsBack(w, h, s);
      }
    }
  }

  lemma DurableOnFile(v: Log, h: seq<seq<byte>>)
    requires Inv(v, h)
    ensures v.durable < OnFile(v) <= v.nextSeq
    ensures v.pending == [] ==> OnFile(v) == v.nextSeq
  {
    hide LogBytes, Tiling;
    LayoutSegs(v, h);
  }

  lemma NotIndexed(v: Log, s: nat)
    ensures s !in v.index ==> ReadIndexed(v, s) == ReadFailed(NotFound)
  {
  }

  lemma IndexedRange(v: Log, h: seq<seq<byte>>, s: nat)
    requires Inv(v, h) && s in v.index
    ensures 1 <= v.segs[0].start <= s < v.nextSeq
  {
    hide LogBytes, Tiling;
    LayoutSegs(v, h);
  }

  lemma NothingBelow(v: Log, h: seq<seq<byte>>)
    requires Inv(v, h)
    ensures v.segs != [] && forall s :: s in v.index ==> v.segs[0].start <= s
  {
    hide LogBytes, Tiling;
    LayoutSegs(v, h);
  }

  // ----- Replay and Verify -----

  // The loop of Replay and of Verify: indexed sequences s, ..., durable in
  // order, until one does not read.
  datatype Walk = Walk(found: seq<(nat, seq<byte>)>, stop: Option<ReadError>)

  function WalkFrom(v: Log, s: nat): Walk
    decreases v.durable + 1 - s
  {
    if s > v.durable then Walk([], None)
    else if s !in v.index then WalkFrom(v, s + 1)
    else
      match ReadIndexed(v, s)
      case ReadFailed(e) => Walk([], Some(e))
      case Payload(p) => var rest := WalkFrom(v, s + 1); Walk([(s, p)] + rest.found, rest.stop)
  }

  // The indexed records s, ..., b - 1 of a history.
  function Expected(v: Log, h: seq<seq<byte>>, s: nat, b: nat): seq<(nat, seq<byte>)>
    requires 1 <= s && b <= |h| + 1
    decreases b - s
  {
    if s >= b then []
    else if s !in v.index then Expected(v, h, s + 1, b)
    else [(s, h[s - 1])] + Expected(v, h, s + 1, b)
  }

  // A walk over a healthy log delivers every indexed durable record once, in
  // order, with its payload.
  lemma {:induction false} WalkDelivers(v: Log, h: seq<seq<byte>>, s: nat)
    requires Inv(v, h) && s >= 1
    ensures v.durable <= |h|
    ensures WalkFrom(v, s) == Walk(Expected(v, h, s, v.durable + 1), None)
    decreases v.durable + 1 - s
  {
    hide Inv, ReadIndexed;
    DurableOnFile(v, h);
    assert v.nextSeq == |h| + 1 by { Unfold(v, h); LayoutSegs(v, h); }
    if s <= v.durable {
      WalkDelivers(v, h, s + 1);
      if s in v.index {
        IndexReadsBack(v, h, s);
      }
    }
  }

  lemma {:induction false} ExpectedAll(v: Log, h: seq<seq<byte>>, s: nat, b: nat)
    requires 1 <= s <= b <= |h| + 1
    requires forall t :: s <= t < b ==> t in v.index
    ensures Expected(v, h, s, b) == Stretch(h, s, b)
    decreases b - s
  {
    if s < b {
      ExpectedAll(v, h, s + 1, b);
    }
  }

  lemma {:induction false} ExpectedFrom(v: Log, h: seq<seq<byte>>, s: nat, a: nat, b: nat)
    requires 1 <= s <= a <= b <= |h| + 1
    requires forall t :: s <= t < a ==> t !in v.index
    ensures Expected(v, h, s, b) == Expected(v, h, a, b)
    decreases a - s
  {
    if s < a {
      ExpectedFrom(v, h, s + 1, a, b);
    }
  }

  // Records a, ..., b - 1 with their sequences.
  function Stretch(h: seq<seq<byte>>, a: nat, b: nat): seq<(nat, seq<byte>)>
    requires 1 <= a <= b <= |h| + 1
  {
    seq(b - a, i requires 0 <= i < b - a => (a + i, h[a + i - 1]))
  }

  // On a handle with a complete index, as Open returns it and appends keep it,
  // Replay and Verify deliver every record from the first retained one to the
  // last durable one, each once and in order.
  lemma ReplayDeliversAll(v: Log, h: seq<seq<byte>>)
    requires Inv(v, h) && v.segs != [] && Indexed(v, v.segs[0].start)
    ensures 1 <= v.segs[0].start <= v.durable + 1 <= |h| + 1
    ensures WalkFrom(v, 1) == Walk(Stretch(h, v.segs[0].start, v.durable + 1), None)
  {
    hide Inv, WalkFrom, Expected, LogBytes, Bounded, Layout;
    Unfold(v, h);
    LayoutSegs(v, h);
    DurableOnFile(v, h);
    WalkDelivers(v, h, 1);
    FirstDurable(v, h);
    NothingBelow(v, h);
    ExpectedFrom(v, h, 1, v.segs[0].start, v.durable + 1);
    ExpectedAll(v, h, v.segs[0].start, v.durable + 1);
  }

  lemma FirstDurable(v: Log, h: seq<seq<byte>>)
    requires Inv(v, h)
    ensures v.segs != [] && v.segs[0].start <= v.durable + 1
  {
    hide LogBytes, Tiling;
    LayoutSegs(v, h);
  }
}
