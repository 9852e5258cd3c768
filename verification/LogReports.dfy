// The numbers Verify (internal/wal/replay.go) and recovery (internal/wal/recovery.go)
// report.
module LogReports {
  import opened Bytes
  import opened History
  import opened Recovery
  import opened LogState
  import opened LogSteps
  import opened LogCrash
  import opened LogReads
  import opened LogFaults
  import LogOutcomes

  datatype VerificationResult = VerificationResult(checked: nat, bytes: nat, lastSeq: nat, valid: bool)

  function TotalBytes(found: seq<(nat, seq<byte>)>): nat {
    if found == [] then 0 else TotalBytes(found[..|found| - 1]) + |found[|found| - 1].1|
  }

  // The report on a walk.
  function Reported(walk: Walk): VerificationResult {
    VerificationResult(|walk.found|, TotalBytes(walk.found),
                       if walk.found == [] then 0 else walk.found[|walk.found| - 1].0, walk.stop.None?)
  }

  // The walk of Verify: nothing when its flush fails.
  function VerifyWalk(v: Log, io: FlushIO): Walk
    requires v.segs != []
  {
    var f := Flush(v, io);
    if f.ok then WalkFrom(f.log, 1) else Walk([], Some(FlushError))
  }

  // Payloads a, ..., b - 1 end to end.
  function Laid(h: seq<Payload>, a: nat, b: nat): seq<byte>
    requires 1 <= a && b <= |h| + 1
    decreases b
  {
    if a >= b then [] else Laid(h, a, b - 1) + h[b - 2]
  }

  lemma {:induction false} StretchBytes(h: seq<Payload>, a: nat, b: nat)
    requires 1 <= a <= b <= |h| + 1
    ensures TotalBytes(Stretch(h, a, b)) == |Laid(h, a, b)|
    decreases b
  {
    if a < b {
      StretchBytes(h, a, b - 1);
      assert Stretch(h, a, b)[..b - 1 - a] == Stretch(h, a, b - 1);
    }
  }

  lemma StretchReported(h: seq<Payload>, a: nat, b: nat, stop: Option<ReadError>)
    requires 1 <= a <= b <= |h| + 1
    ensures Reported(Walk(Stretch(h, a, b), stop))
         == VerificationResult(b - a, |Laid(h, a, b)|, if a == b then 0 else b - 1, stop.None?)
  {
    StretchBytes(h, a, b);
  }

  // On a healthy log with a complete index Verify counts every retained record,
  // adds up exactly their payloads, names the last of them, and is satisfied.
  lemma VerifyCounts(v: Log, h: seq<Payload>, io: FlushIO)
    requires Inv(v, h) && v.segs != [] && Indexed(v, v.segs[0].start) && RollbackWorks(io) && Flush(v, io).ok
    ensures 1 <= v.segs[0].start <= v.nextSeq == |h| + 1
    ensures var a, b := v.segs[0].start, v.nextSeq;
            Reported(VerifyWalk(v, io))
            == VerificationResult(b - a, |Laid(h, a, b)|, if a == b then 0 else b - 1, true)
  {
    hide Inv, Flush, WalkFrom, Laid, Stretch, Reported;
    FlushKeepsUnlessRollbackFails(v, h, io);
    FlushConfirmsAll(v, h, io);
    LogOutcomes.SameCount(v, io);
    var f := Flush(v, io).log;
    assert f.segs[0].start == SegStarts(f.segs)[0] == SegStarts(v.segs)[0] == v.segs[0].start;
    ReplayDeliversAll(f, h);
    LogLength(v, h);
    StretchReported(h, v.segs[0].start, v.nextSeq, None);
  }

  // Of any log Verify is satisfied if and only if its flush works and every durable
  // record in the index reads.
  lemma ValidIff(v: Log, io: FlushIO)
    requires v.segs != []
    ensures var f := Flush(v, io);
            Reported(VerifyWalk(v, io)).valid <==>
              f.ok && forall s :: 1 <= s <= f.log.durable && s in v.index ==> ReadIndexed(f.log, s).Payload?
  {
    hide Flush, WalkFrom, ReadIndexed;
    WalkEnds(Flush(v, io).log, 1);
  }

  lemma {:induction false} WalkEnds(v: Log, s: nat)
    ensures WalkFrom(v, s).stop == None <==>
              forall t :: s <= t <= v.durable && t in v.index ==> ReadIndexed(v, t).Payload?
    decreases v.durable + 1 - s
  {
    hide ReadIndexed;
    if s <= v.durable {
      WalkEnds(v, s + 1);
    }
  }

  lemma LogLength(v: Log, h: seq<Payload>)
    requires Inv(v, h)
    ensures v.segs != [] && 1 <= v.segs[0].start <= v.nextSeq == |h| + 1
  {
    hide LogBytes, Tiling;
    LayoutSegs(v, h);
  }

  // After Corrupt of record s it counts and adds up exactly the records below s,
  // and is not.
  lemma VerifyAfterFault(v: Log, h: seq<Payload>, s: nat, io: FaultIO, again: FlushIO)
    requires Inv(v, h) && v.segs != [] && Indexed(v, v.segs[0].start) && RollbackWorks(io.flush)
    requires Flush(v, io.flush).ok && s in v.index && io.Works()
    ensures Inject(v, s, io).0.segs != [] && 1 <= v.segs[0].start <= s <= |h|
    ensures var a := v.segs[0].start;
            Reported(VerifyWalk(Inject(v, s, io).0, again))
            == VerificationResult(s - a, |Laid(h, a, s)|, if a == s then 0 else s - 1, false)
  {
    hide Inv, WalkFrom, Laid, Stretch, Reported, Inject, Expected, Recover, ReadIndexed, Flush;
    FaultIsExact(v, h, s, io);
    IndexedRange(v, h, s);
    LogLength(v, h);
    FlushKeepsUnlessRollbackFails(v, h, io.flush);
    FlushedClean(v, h, io.flush);
    var f, w := Flush(v, io.flush).log, Inject(v, s, io).0;
    NothingToFlush(w, again);
    NothingBelow(v, h);
    ExpectedFrom(f, h, 1, v.segs[0].start, s);
    ExpectedAll(f, h, v.segs[0].start, s);
    StretchReported(h, v.segs[0].start, s, WalkFrom(w, 1).stop);
  }

  lemma NothingToFlush(w: Log, io: FlushIO)
    requires w.segs != [] && w.pending == [] && w.unsyncedHigh == 0
    ensures Flush(w, io) == FlushResult(w, true)
  {
  }

  // ----- Recovery -----

  datatype RecoveryResult = RecoveryResult(records: nat, lastSeq: nat, truncated: bool)

  function Summary(r: Recovered): RecoveryResult
    requires r.Opened?
  {
    RecoveryResult(|r.out|, r.lastSeq, r.truncated)
  }

  // Recovery after a crash reports the number of records it kept, the last of
  // them, and whether the crash left anything behind it.
  lemma SummaryCounts(v: Log, h: seq<Payload>, k: nat)
    requires Inv(v, h) && Survives(v, k)
    ensures v.segs[0].start >= 1 && AfterCrash(v, k).Opened?
    ensures Range(h, Cur(v).start, v.nextSeq)
    ensures var m := Lost(v, h, k);
            && v.segs[0].start <= m
            && Summary(AfterCrash(v, k))
               == RecoveryResult(m - v.segs[0].start, m - 1, k > |LogBytes(h, Cur(v).start, m, v.opts.maxRecord)|)
  {
    hide LogBytes, Inv, AllEntries, Recover, Lost, Tiling;
    CrashRecovers(v, h, k);
    LogLength(v, h);
    assert v.opts.maxRecord >= 1 by { Unfold(v, h); LayoutSegs(v, h); }
    EntriesInPlace(SegStarts(v.segs), 0, h, Lost(v, h, k), v.opts.maxRecord);
  }
}
