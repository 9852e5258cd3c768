// Crashes and reopening. A crash keeps what an fsync confirmed and any prefix
// of the bytes after it, including bytes of a write that was under way.
module LogCrash {
  import opened Bytes
  import opened Scan
  import opened History
  import opened Recovery
  import opened LogState

  // ----- What is on disk -----

  function ImageOf(s: Seg): Image { Image(s.start, s.bytes) }

  function Files(v: Log): (files: seq<Image>)
    ensures |files| == |v.segs|
  {
    seq(|v.segs|, i requires 0 <= i < |v.segs| => ImageOf(v.segs[i]))
  }

  function AllBytes(segs: seq<Seg>): seq<byte> {
    if segs == [] then [] else AllBytes(segs[..|segs| - 1]) + segs[|segs| - 1].bytes
  }

  // The on-disk prefix property: segment bytes in order, then the buffer, are
  // the encoding of the retained history, whatever failed on the way here.
  lemma DiskIsPrefix(v: Log, h: seq<Payload>)
    requires Inv(v, h)
    ensures v.segs != [] && Range(h, v.segs[0].start, v.nextSeq)
    ensures AllBytes(v.segs) + v.pending == LogBytes(h, v.segs[0].start, v.nextSeq, v.opts.maxRecord)
  {
    hide LogBytes, Tiling, Layout, Watermarks, IndexSound, Bounded;
    LayoutSegs(v, h);
    LayoutPending(v, h);
    BytesUpTo(v, h, |v.segs| - 1);
    assert v.segs[..|v.segs| - 1] + [Cur(v)] == v.segs;
    LogSplit(h, v.segs[0].start, Cur(v).start, OnFile(v), v.opts.maxRecord);
    LogSplit(h, v.segs[0].start, OnFile(v), v.nextSeq, v.opts.maxRecord);
  }

  lemma {:induction false} BytesUpTo(v: Log, h: seq<Payload>, n: nat)
    requires Layout(v, h) && n < |v.segs|
    ensures Range(h, v.segs[0].start, v.segs[n].start)
    ensures AllBytes(v.segs[..n]) == LogBytes(h, v.segs[0].start, v.segs[n].start, v.opts.maxRecord)
  {
    hide LogBytes, Watermarks;
    LayoutSegs(v, h);
    TilingOrder(SegStarts(v.segs), OnFile(v), 0, n);
    if n == 0 {
      LogEmpty(h, v.segs[0].start, v.opts.maxRecord);
    } else {
      BytesUpTo(v, h, n - 1);
      assert v.segs[..n][..n - 1] == v.segs[..n - 1];
      TilingOrder(SegStarts(v.segs), OnFile(v), 0, n - 1);
      LogSplit(h, v.segs[0].start, v.segs[n - 1].start, v.segs[n].start, v.opts.maxRecord);
    }
  }

  // ----- Crashing -----

  // The current segment may end anywhere between its confirmed length and the
  // end of the bytes handed, or about to be handed, to the file.
  predicate Survives(v: Log, k: nat) {
    v.segs != [] && Cur(v).synced <= k <= |Cur(v).bytes| + |v.pending|
  }

  function CrashFiles(v: Log, k: nat): (files: seq<Image>)
    requires Survives(v, k)
    ensures |files| == |v.segs|
  {
    Files(v)[|v.segs| - 1 := Image(Cur(v).start, (Cur(v).bytes + v.pending)[..k])]
  }

  lemma CrashHolds(v: Log, h: seq<Payload>, k: nat)
    requires Inv(v, h) && Survives(v, k)
    ensures Starts(CrashFiles(v, k)) == SegStarts(v.segs)
    ensures Holds(CrashFiles(v, k), h, v.nextSeq, v.opts.maxRecord, k)
  {
    hide LogBytes;
    LayoutSegs(v, h);
    var files := CrashFiles(v, k);
    assert Starts(files) == SegStarts(v.segs);
    WiderTiling(Starts(files), OnFile(v), v.nextSeq);
    LogSplit(h, Cur(v).start, OnFile(v), v.nextSeq, v.opts.maxRecord);
  }

  // First sequence lost in the crash.
  function Lost(v: Log, h: seq<Payload>, k: nat): (m: nat)
    requires v.segs != [] && v.opts.maxRecord >= 1 && Range(h, Cur(v).start, v.nextSeq)
    ensures Cur(v).start <= m <= v.nextSeq
  {
    Fitting(h, Cur(v).start, v.nextSeq, v.opts.maxRecord, k)
  }

  lemma LogMonotone(h: seq<Payload>, a: nat, m: nat, b: nat, max: nat)
    requires max >= 1 && Range(h, a, m) && Range(h, m, b)
    ensures |LogBytes(h, a, m, max)| <= |LogBytes(h, a, b, max)|
  {
    hide LogBytes;
    LogSplit(h, a, m, b, max);
  }

  // Everything confirmed survives; nothing unassigned appears.
  lemma DurableSurvives(v: Log, h: seq<Payload>, k: nat)
    requires Inv(v, h) && Survives(v, k)
    ensures Range(h, Cur(v).start, v.nextSeq)
    ensures v.durable + 1 <= Lost(v, h, k) <= v.nextSeq
  {
    hide LogBytes, Tiling, Fitting, Layout, IndexSound, Bounded;
    LayoutSegs(v, h);
    var max, m := v.opts.maxRecord, Lost(v, h, k);
    FittingIsLargest(h, Cur(v).start, v.nextSeq, max, k);
    if m < v.durable + 1 {
      LogMonotone(h, Cur(v).start, m + 1, v.durable + 1, max);
    }
  }

  // Reopening after any crash succeeds. It finds exactly the records 1, ..., m-1
  // of the history for some m above every confirmed sequence, with their
  // payloads, and leaves exactly their bytes.
  lemma CrashRecovers(v: Log, h: seq<Payload>, k: nat)
    requires Inv(v, h) && Survives(v, k)
    ensures Range(h, Cur(v).start, v.nextSeq) && v.segs[0].start >= 1
    ensures var m := Lost(v, h, k);
            var files := CrashFiles(v, k);
            && v.durable + 1 <= m <= v.nextSeq
            && Tiling(SegStarts(v.segs), m)
            && |LogBytes(h, Cur(v).start, m, v.opts.maxRecord)| <= k
            && Recover(files, v.opts.maxRecord)
               == Opened(CutLast(files, |LogBytes(h, Cur(v).start, m, v.opts.maxRecord)|), m - 1,
                         AllEntries(SegStarts(v.segs), 0, h, m, v.opts.maxRecord),
                         |LogBytes(h, Cur(v).start, m, v.opts.maxRecord)| < k)
  {
    hide LogBytes, Inv, AllEntries, RecoverFrom, Fitting, Layout, Tiling, Holds;
    assert Layout(v, h) && Recordable(h, v.opts.maxRecord) by { Unfold(v, h); }
    LayoutSegs(v, h);
    CrashHolds(v, h, k);
    DurableSurvives(v, h, k);
    var files := CrashFiles(v, k);
    var st := Initial(files[0].start - 1);
    assert files[0].start == Starts(files)[0] == SegStarts(v.segs)[0] == v.segs[0].start;
    RecoverHeld(files, 0, h, v.nextSeq, v.opts.maxRecord, v.opts.maxRecord, k, st);
    var all := AllEntries(SegStarts(v.segs), 0, h, Lost(v, h, k), v.opts.maxRecord);
    assert [] + all == all;
  }

  lemma Unfold(v: Log, h: seq<Payload>)
    requires Inv(v, h)
    ensures v.opts.Valid() && Recordable(h, v.opts.maxRecord)
    ensures Layout(v, h) && Watermarks(v, h) && IndexSound(v, h) && Bounded(v)
  {
  }

  // ----- Reopening -----

  // The handle Open builds from what recovery found. The bytes it saw are taken
  // to be stable.
  function Reopened(opts: Options, r: Recovered): (v: Log)
    requires r.Opened?
  {
    Log(opts,
        seq(|r.files|, i requires 0 <= i < |r.files| =>
          Seg(r.files[i].start, r.files[i].bytes, |r.files[i].bytes|)),
        [], 0, 0, IndexOf(r.out), r.lastSeq, 0, 0, r.lastSeq + 1, 0)
  }

  // What Open finds after a crash that left k bytes of the last segment.
  function AfterCrash(v: Log, k: nat): Recovered
    requires Survives(v, k) && v.segs[0].start >= 1
  {
    Recover(CrashFiles(v, k), v.opts.maxRecord)
  }

  // The log reopened over files that hold h, cut down to what survived.
  lemma ReopenedLayout(v: Log, h: seq<Payload>, k: nat)
    requires Inv(v, h) && Survives(v, k)
    ensures v.segs[0].start >= 1 && Recover(CrashFiles(v, k), v.opts.maxRecord).Opened?
    ensures Range(h, Cur(v).start, v.nextSeq) && v.durable + 1 <= Lost(v, h, k) <= v.nextSeq
    ensures var w := Reopened(v.opts, Recover(CrashFiles(v, k), v.opts.maxRecord));
            var m := Lost(v, h, k);
            && SegStarts(w.segs) == SegStarts(v.segs)
            && w.nextSeq == m && w.index == IndexOf(AllEntries(SegStarts(v.segs), 0, h, m, v.opts.maxRecord))
            && (forall i :: 0 <= i < |v.segs| - 1 ==> w.segs[i] == v.segs[i])
            && Cur(w).bytes == LogBytes(h, Cur(v).start, m, v.opts.maxRecord)
  {
    hide LogBytes, AllEntries, RecoverFrom, Recover, Lost, Tiling, IndexOf;
    CrashRecovers(v, h, k);
    var w := Reopened(v.opts, Recover(CrashFiles(v, k), v.opts.maxRecord));
    var m := Lost(v, h, k);
    CrashHolds(v, h, k);
    LayoutSegs(v, h);
    assert SegStarts(w.segs) == SegStarts(v.segs);
    forall i | 0 <= i < |v.segs| - 1
      ensures v.segs[i].synced == |v.segs[i].bytes|
    {
      assert Closed(h, v.segs[i], v.segs[i + 1], v.opts.maxRecord);
    }
    LogSplit(h, Cur(v).start, m, v.nextSeq, v.opts.maxRecord);
    var n := |LogBytes(h, Cur(v).start, m, v.opts.maxRecord)|;
    assert CrashFiles(v, k)[|v.segs| - 1].bytes[..n] == LogBytes(h, Cur(v).start, v.nextSeq, v.opts.maxRecord)[..n];
  }

  lemma PlaceInPrefix(starts: seq<nat>, h: seq<Payload>, g: seq<Payload>, s: nat, b: nat, max: nat)
    requires max >= 1 && Tiling(starts, b) && starts[0] <= s < b <= |g| + 1 <= |h| + 1
    requires g == h[..|g|]
    ensures Place(starts, g, s, max) == Place(starts, h, s, max)
  {
    hide LogBytes, RecordBytes;
    var i := Home(starts, s);
    TilingOrder(starts, b, i, |starts| - 1);
    assert g[..s - 1] == h[..s - 1];
    LogAgree(h, g, starts[i], s, max);
  }

  // Reopening restores the whole invariant, for the surviving history, with a
  // complete index. Only the current segment can have become shorter.
  lemma ReopenedKeeps(v: Log, h: seq<Payload>, k: nat)
    requires Inv(v, h) && Survives(v, k)
    ensures v.segs[0].start >= 1 && AfterCrash(v, k).Opened?
    ensures Range(h, Cur(v).start, v.nextSeq) && v.durable < Lost(v, h, k) <= v.nextSeq
    ensures var w := Reopened(v.opts, AfterCrash(v, k));
            var m := Lost(v, h, k);
            && w.segs != [] && w.nextSeq == m && w.durable == m - 1
            && w.pending == [] && w.unsyncedHigh == 0 && w.opts == v.opts
            && SegStarts(w.segs) == SegStarts(v.segs) && w.segs[0].start == v.segs[0].start
            && Inv(w, h[..m - 1])
            && Indexed(w, w.segs[0].start)
  {
    hide LogBytes, AllEntries, RecoverFrom, Recover, Lost, Tiling, IndexOf, Bounded, IndexSound, Layout, Watermarks,
         Place;
    ReopenedLayout(v, h, k);
    CrashRecovers(v, h, k);
    LayoutSegs(v, h);
    var w := Reopened(v.opts, AfterCrash(v, k));
    var m := Lost(v, h, k);
    var starts := SegStarts(v.segs);
    assert w.segs[0].start == SegStarts(w.segs)[0] == v.segs[0].start == starts[0];
    assert Cur(w).start == SegStarts(w.segs)[|w.segs| - 1] == Cur(v).start;
    SurvivingLayout(v, w, h, m);
    AllConfirmed(w, h[..m - 1]);
    RebuiltIndex(starts, h, m, v.opts.maxRecord);
    SurvivingIndex(w, h, m);
    ReopenedBounded(v, w, h, m);
    assert forall i :: 0 <= i < |h[..m - 1]| ==> h[..m - 1][i] == h[i];
  }

  lemma AllConfirmed(w: Log, g: seq<Payload>)
    requires Layout(w, g) && w.pending == [] && w.durable + 1 == w.nextSeq
    requires w.unsyncedHigh == 0 && w.unsyncedBytes == 0 && Cur(w).synced == |Cur(w).bytes|
    ensures Watermarks(w, g)
  {
    hide LogBytes, Tiling;
    LayoutSegs(w, g);
    LogEmpty(g, w.nextSeq, w.opts.maxRecord);
  }

  lemma SurvivingIndex(w: Log, h: seq<Payload>, m: nat)
    requires 1 <= m <= |h| + 1 && Layout(w, h[..m - 1]) && w.nextSeq == m && w.segs != []
    requires Tiling(SegStarts(w.segs), m)
    requires forall s :: s in w.index ==>
               w.segs[0].start <= s < m && w.index[s] == Place(SegStarts(w.segs), h, s, w.opts.maxRecord)
    ensures IndexSound(w, h[..m - 1])
  {
    hide LogBytes, Tiling, Layout, Place;
    LayoutSegs(w, h[..m - 1]);
    forall s | s in w.index
      ensures w.index[s] == Place(SegStarts(w.segs), h[..m - 1], s, w.opts.maxRecord)
    {
      PlaceInPrefix(SegStarts(w.segs), h, h[..m - 1], s, m, w.opts.maxRecord);
    }
  }

  lemma SurvivingLayout(v: Log, w: Log, h: seq<Payload>, m: nat)
    requires Layout(v, h) && SegStarts(w.segs) == SegStarts(v.segs) && Tiling(SegStarts(v.segs), m)
    requires w.opts == v.opts && w.pending == [] && w.nextSeq == m <= v.nextSeq && 1 <= m
    requires forall i :: 0 <= i < |v.segs| - 1 ==> w.segs[i] == v.segs[i]
    requires v.segs != [] && Range(h, Cur(v).start, m) && w.segs != []
    requires Cur(w).start == Cur(v).start && Cur(w).bytes == LogBytes(h, Cur(v).start, m, v.opts.maxRecord)
    ensures Layout(w, h[..m - 1])
    ensures Cur(w).bytes == LogBytes(h[..m - 1], Cur(v).start, m, v.opts.maxRecord)
  {
    hide LogBytes, Tiling;
    var g, max, starts := h[..m - 1], v.opts.maxRecord, SegStarts(v.segs);
    assert |w.segs| == |v.segs|;
    forall i, j | 0 <= i && j == i + 1 < |w.segs|
      ensures Closed(g, w.segs[i], w.segs[j], max)
    {
      assert Closed(h, v.segs[i], v.segs[j], max);
      TilingOrder(starts, m, j, |starts| - 1);
      assert SegStarts(w.segs)[j] == starts[j] == v.segs[j].start;
      assert g[..v.segs[j].start - 1] == h[..v.segs[j].start - 1];
      LogAgree(h, g, v.segs[i].start, v.segs[j].start, max);
    }
    assert g[..m - 1] == h[..m - 1];
    LogAgree(h, g, Cur(v).start, m, max);
    LogEmpty(g, m, max);
  }

  lemma ReopenedBounded(v: Log, w: Log, h: seq<Payload>, m: nat)
    requires Inv(v, h) && w.opts == v.opts && w.pending == []
    requires SegStarts(w.segs) == SegStarts(v.segs) && w.nextSeq == m && Cur(v).start <= m <= v.nextSeq
    requires forall i :: 0 <= i < |v.segs| - 1 ==> w.segs[i] == v.segs[i]
    requires Range(h, Cur(v).start, m) && Cur(w).bytes == LogBytes(h, Cur(v).start, m, v.opts.maxRecord)
    ensures Bounded(w)
  {
    hide LogBytes, Tiling, Layout, Watermarks, IndexSound;
    var n := |v.segs| - 1;
    assert |w.segs| == |SegStarts(w.segs)| == |v.segs|;
    LayoutSegs(v, h);
    LayoutPending(v, h);
    LogSplit(h, Cur(v).start, OnFile(v), v.nextSeq, v.opts.maxRecord);
    LogMonotone(h, Cur(v).start, m, v.nextSeq, v.opts.maxRecord);
    LogEmpty(h, Cur(v).start, v.opts.maxRecord);
    assert Load(w, n) <= Load(v, n);
    forall i | 0 <= i < |w.segs|
      ensures InLimit(w, i)
    {
      assert w.segs[i].start == SegStarts(w.segs)[i] == v.segs[i].start;
      assert InLimit(v, i);
      if i < n {
        assert Load(w, i) == Load(v, i) && Until(w, i) == Until(v, i);
      } else if m == Cur(v).start {
        assert Load(w, i) == 0;
      }
    }
  }

  // ----- Rescanning a healthy log -----

  lemma NothingLost(v: Log, h: seq<Payload>)
    requires Inv(v, h) && v.pending == [] && v.unsyncedHigh == 0
    ensures v.durable == v.nextSeq - 1 && v.segs[0].start >= 1
    ensures Tiling(SegStarts(v.segs), v.nextSeq)
    ensures Recover(Files(v), v.opts.maxRecord)
         == Opened(Files(v), v.nextSeq - 1, AllEntries(SegStarts(v.segs), 0, h, v.nextSeq, v.opts.maxRecord), false)
  {
    hide LogBytes, AllEntries, Recover, Tiling, Bounded, IndexSound, Lost;
    LayoutSegs(v, h);
    LayoutPending(v, h);
    var k := |Cur(v).bytes|;
    assert Cur(v).bytes + v.pending == Cur(v).bytes == Cur(v).bytes[..k];
    assert CrashFiles(v, k) == Files(v);
    CrashRecovers(v, h, k);
    assert Lost(v, h, k) == v.nextSeq;
    assert CutLast(Files(v), k) == Files(v);
  }

  // After a successful flush a rescan changes nothing at all: no truncation, the
  // same nextSeq and durable, and, if nothing was cleaned from the index, the
  // very same index.
  lemma RescanAgrees(v: Log, h: seq<Payload>)
    requires Inv(v, h) && v.pending == [] && v.unsyncedHigh == 0
    requires v.segs != [] && Indexed(v, v.segs[0].start)
    ensures v.segs[0].start >= 1
    ensures var r := Recover(Files(v), v.opts.maxRecord);
            && r.Opened? && !r.truncated
            && r.files == Files(v)
            && r.lastSeq == v.durable == v.nextSeq - 1
            && IndexOf(r.out) == v.index
  {
    hide LogBytes, AllEntries, Recover, IndexOf, Tiling, Layout, Watermarks, IndexSound, Bounded;
    NothingLost(v, h);
    LayoutSegs(v, h);
    var starts := SegStarts(v.segs);
    RebuiltIndex(starts, h, v.nextSeq, v.opts.maxRecord);
    assert starts[0] == v.segs[0].start;
    SameIndex(v, h, IndexOf(AllEntries(starts, 0, h, v.nextSeq, v.opts.maxRecord)));
  }

  lemma SameIndex(v: Log, h: seq<Payload>, index: map<nat, Location>)
    requires Layout(v, h) && IndexSound(v, h) && v.segs != [] && Indexed(v, v.segs[0].start) && v.segs[0].start >= 1
    requires forall s :: s in index <==> v.segs[0].start <= s < v.nextSeq
    requires forall s :: s in index ==> index[s] == Place(SegStarts(v.segs), h, s, v.opts.maxRecord)
    ensures index == v.index
  {
    hide Place, LogBytes, Tiling, Layout;
    assert forall s :: s in index <==> s in v.index;
  }
}
