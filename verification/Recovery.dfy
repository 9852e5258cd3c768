// Recovery over a whole directory: recoverLocked of internal/wal/recovery.go as
// a function of the segment files it finds.
module Recovery {
  import opened Bytes
  import opened Framing
  import opened Scan
  import opened History

  // A segment file: its first sequence, read from its name, and its bytes.
  datatype Image = Image(start: nat, bytes: seq<byte>)

  datatype Corruption = Corruption(segment: nat, offset: nat, reason: Reason)

  datatype Recovered =
    | Opened(files: seq<Image>, lastSeq: nat, out: seq<Entry>, truncated: bool)
    | Rejected(error: Corruption)

  function RecoverFrom(files: seq<Image>, i: nat, max: nat, st: ScanState): Recovered
    requires i < |files| && !st.assembling
    decreases |files| - i
  {
    var f := files[i];
    if i > 0 && f.start != st.lastSeq + 1 then Rejected(Corruption(f.start, 0, SegmentGap))
    else if i == |files| - 1 then
      match TailFrom(f.bytes, f.start, max, 0, st)
      case Refused(at, why) => Rejected(Corruption(f.start, at, why))
      case Kept(keep, lastSeq, out) =>
        Opened(files[i := Image(f.start, f.bytes[..keep])], lastSeq, out, keep < |f.bytes|)
    else
      match ScanFrom(f.bytes, f.start, max, 0, st)
      case Corrupt(at, why) => Rejected(Corruption(f.start, at, why))
      case Torn(_, at) => Rejected(Corruption(f.start, at, Undecodable(EndOfFile)))
      case Whole(s) =>
        if s.assembling then Rejected(Corruption(f.start, s.start, CrossesSegment))
        else RecoverFrom(files, i + 1, max, s)
  }

  // An empty directory gets its first segment; otherwise the first file, which
  // need not start at 1, says where the log begins.
  function Recover(files: seq<Image>, max: nat): Recovered
    requires files != [] ==> files[0].start >= 1
  {
    if files == [] then Opened([Image(1, [])], 0, [], false)
    else RecoverFrom(files, 0, max, Initial(files[0].start - 1))
  }

  // ----- Arbitrary files -----

  function CutLast(files: seq<Image>, k: nat): seq<Image>
    requires files != [] && k <= |files[|files| - 1].bytes|
  {
    var n := |files| - 1;
    files[n := Image(files[n].start, files[n].bytes[..k])]
  }

  lemma {:induction false} RecoverCut(files: seq<Image>, i: nat, max: nat, st: ScanState, k: nat)
    requires i < |files| && !st.assembling
    requires RecoverFrom(files, i, max, st).Opened?
    requires var r := RecoverFrom(files, i, max, st);
             |r.files| == |files| && |r.files[|files| - 1].bytes| <= k <= |files[|files| - 1].bytes|
    ensures var r := RecoverFrom(files, i, max, st);
            RecoverFrom(CutLast(files, k), i, max, st) == r.(truncated := |r.files[|files| - 1].bytes| < k)
    decreases |files| - i
  {
    hide TailFrom, ScanFrom;
    var f := files[i];
    var cut := CutLast(files, k);
    if i == |files| - 1 {
      var tail := TailFrom(f.bytes, f.start, max, 0, st);
      CutAnywhere(f.bytes, k, f.start, max, 0, st);
      assert f.bytes[..k][..tail.keep] == f.bytes[..tail.keep];
      assert cut[i := Image(f.start, f.bytes[..tail.keep])] == files[i := Image(f.start, f.bytes[..tail.keep])];
    } else {
      assert cut[i] == f;
      RecoverCut(files, i + 1, max, ScanFrom(f.bytes, f.start, max, 0, st).st, k);
    }
  }

  lemma {:induction false} RecoverShape(files: seq<Image>, i: nat, max: nat, st: ScanState)
    requires i < |files| && !st.assembling
    requires RecoverFrom(files, i, max, st).Opened?
    ensures var r := RecoverFrom(files, i, max, st);
            var n := |files| - 1;
            && |r.files| == |files|
            && |r.files[n].bytes| <= |files[n].bytes|
            && r.files == CutLast(files, |r.files[n].bytes|)
            && (r.truncated <==> |r.files[n].bytes| < |files[n].bytes|)
    decreases |files| - i
  {
    hide TailFrom, ScanFrom;
    var f := files[i];
    if i == |files| - 1 {
    } else {
      RecoverShape(files, i + 1, max, ScanFrom(f.bytes, f.start, max, 0, st).st);
    }
  }

  // Recovery of whatever bytes is idempotent: when it succeeds, the repaired
  // files are recovered to the very same result with nothing left to cut off,
  // and so are files whose repair a crash interrupted at any length.
  lemma RecoveryIdempotent(files: seq<Image>, max: nat, k: nat)
    requires files != [] && files[0].start >= 1
    requires Recover(files, max).Opened?
    ensures var r := Recover(files, max);
            var n := |files| - 1;
            && |r.files| == |files| && r.files[0].start >= 1 && |r.files[n].bytes| <= |files[n].bytes|
            && Recover(r.files, max) == r.(truncated := false)
            && (|r.files[n].bytes| <= k <= |files[n].bytes| ==>
                 Recover(CutLast(files, k), max) == r.(truncated := |r.files[n].bytes| < k))
  {
    hide RecoverFrom;
    var st := Initial(files[0].start - 1);
    var r := Recover(files, max);
    var n := |files| - 1;
    RecoverShape(files, 0, max, st);
    RecoverCut(files, 0, max, st, |r.files[n].bytes|);
    if |r.files[n].bytes| <= k <= |files[n].bytes| {
      RecoverCut(files, 0, max, st, k);
    }
  }

  // The repair of a torn file cuts it and syncs the cut; both can fail.
  datatype RepairIO = RepairIO(truncErr: bool, syncErr: bool) {
    predicate Fails() { truncErr || syncErr }
  }

  // The files as an attempt at that repair leaves them.
  function AfterRepair(files: seq<Image>, r: Recovered, io: RepairIO): seq<Image>
    requires r.Opened?
  {
    if io.truncErr then files else r.files
  }

  // An attempt that fails loses nothing: the next one finds the same log.
  lemma FailedRepairIsHarmless(files: seq<Image>, max: nat, io: RepairIO)
    requires files != [] && files[0].start >= 1
    requires Recover(files, max).Opened?
    ensures var r := Recover(files, max);
            var left := AfterRepair(files, r, io);
            && left != [] && left[0].start >= 1
            && Recover(left, max) == r.(truncated := r.truncated && io.truncErr)
  {
    hide Recover;
    RecoveryIdempotent(files, max, 0);
  }

  // The files after an attempt to open them that a crash, or a failed repair,
  // ended when the last file was n bytes long, or as near to n as a repair comes.
  function AfterAttempt(files: seq<Image>, max: nat, n: nat): (left: seq<Image>)
    requires files != [] && files[0].start >= 1
    ensures left != [] && left[0].start >= 1
  {
    match Recover(files, max)
    case Rejected(_) => files
    case r =>
      RecoveryIdempotent(files, max, 0);
      var kept, full := |r.files[|files| - 1].bytes|, |files[|files| - 1].bytes|;
      CutLast(files, if n < kept then kept else if n > full then full else n)
  }

  function AfterAttempts(files: seq<Image>, max: nat, ns: seq<nat>): (left: seq<Image>)
    requires files != [] && files[0].start >= 1
    ensures left != [] && left[0].start >= 1
    decreases ns
  {
    if ns == [] then files else AfterAttempts(AfterAttempt(files, max, ns[0]), max, ns[1..])
  }

  // However many attempts came to nothing, the next one finds the same log.
  lemma {:induction false} AttemptsAreHarmless(files: seq<Image>, max: nat, ns: seq<nat>)
    requires files != [] && files[0].start >= 1
    requires Recover(files, max).Opened?
    ensures var r := Recover(AfterAttempts(files, max, ns), max);
            r.Opened? && r == Recover(files, max).(truncated := r.truncated)
    decreases ns
  {
    hide Recover;
    if ns != [] {
      var r, n := Recover(files, max), ns[0];
      RecoveryIdempotent(files, max, 0);
      var kept, full := |r.files[|files| - 1].bytes|, |files[|files| - 1].bytes|;
      RecoveryIdempotent(files, max, if n < kept then kept else if n > full then full else n);
      AttemptsAreHarmless(AfterAttempt(files, max, n), max, ns[1..]);
    }
  }

  ghost predicate Consecutive(out: seq<Entry>, first: nat) {
    forall i :: 0 <= i < |out| ==> out[i].seqNo == first + i
  }

  // Whatever the bytes, an accepted log is a gapless run of sequence numbers.
  lemma {:induction false} ScanConsecutive(file: seq<byte>, segment: nat, max: nat, offset: nat, st: ScanState,
                                           first: nat)
    requires offset <= |file| && Placed(st, offset)
    requires Consecutive(st.out, first) && st.lastSeq + 1 == first + |st.out|
    ensures var r := ScanFrom(file, segment, max, offset, st);
            !r.Corrupt? ==> Consecutive(r.st.out, first) && r.st.lastSeq + 1 == first + |r.st.out|
    decreases |file| - offset
  {
    hide DecodeAt, IsFirst, IsLast, IsPadding;
    if offset < |file| {
      var step := ScanStep(file, segment, max, offset, st);
      if step.Advance? {
        ScanConsecutive(file, segment, max, step.next, step.st, first);
      }
    }
  }

  lemma {:induction false} RecoverConsecutive(files: seq<Image>, i: nat, max: nat, st: ScanState, first: nat)
    requires i < |files| && !st.assembling
    requires Consecutive(st.out, first) && st.lastSeq + 1 == first + |st.out|
    requires RecoverFrom(files, i, max, st).Opened?
    ensures var r := RecoverFrom(files, i, max, st);
            Consecutive(r.out, first) && r.lastSeq + 1 == first + |r.out|
    decreases |files| - i
  {
    hide ScanFrom;
    var f := files[i];
    ScanConsecutive(f.bytes, f.start, max, 0, st, first);
    if i < |files| - 1 {
      RecoverConsecutive(files, i + 1, max, ScanFrom(f.bytes, f.start, max, 0, st).st, first);
    }
  }

  // ----- The index a scan builds -----

  datatype Location = Location(segment: nat, offset: nat, size: nat)

  function LocationOf(e: Entry): Location { Location(e.segment, e.offset, e.size) }

  // One put per record, in order.
  function IndexOf(out: seq<Entry>): map<nat, Location> {
    if out == [] then map[]
    else
      var n := |out| - 1;
      IndexOf(out[..n])[out[n].seqNo := LocationOf(out[n])]
  }

  lemma {:induction false} IndexOfConsecutive(out: seq<Entry>, first: nat)
    requires Consecutive(out, first)
    ensures forall s :: s in IndexOf(out) <==> first <= s < first + |out|
    ensures forall s :: s in IndexOf(out) ==> IndexOf(out)[s] == LocationOf(out[s - first])
  {
    if out == [] {
    } else {
      IndexOfConsecutive(out[..|out| - 1], first);
    }
  }

  // ----- Files that hold a payload history -----

  function Starts(files: seq<Image>): (s: seq<nat>)
    ensures |s| == |files|
  {
    seq(|files|, i requires 0 <= i < |files| => files[i].start)
  }

  // Segment starts of a log that holds sequences starts[0], ..., b - 1; every
  // segment but the last holds at least one record.
  ghost predicate Tiling(starts: seq<nat>, b: nat) {
    && starts != []
    && starts[0] >= 1
    && (forall i, j :: 0 <= i && j == i + 1 < |starts| ==> starts[i] < starts[j])
    && starts[|starts| - 1] <= b
  }

  lemma {:induction false} Ascending(starts: seq<nat>, b: nat, i: nat, j: nat)
    requires Tiling(starts, b) && i <= j < |starts|
    ensures starts[i] <= starts[j]
    ensures i < j ==> starts[i] < starts[j]
    decreases j - i
  {
    if i < j {
      Ascending(starts, b, i, j - 1);
    }
  }

  lemma TilingOrder(starts: seq<nat>, b: nat, i: nat, j: nat)
    requires Tiling(starts, b) && i <= j < |starts|
    ensures 1 <= starts[0] <= starts[i] <= starts[j] <= b
    ensures i < j ==> starts[i] < starts[j]
  {
    Ascending(starts, b, 0, i);
    Ascending(starts, b, i, j);
    Ascending(starts, b, j, |starts| - 1);
  }

  function EndOf(starts: seq<nat>, b: nat, i: nat): nat
    requires i < |starts|
  {
    if i + 1 < |starts| then starts[i + 1] else b
  }

  lemma TilingRange(starts: seq<nat>, b: nat, i: nat, h: seq<Payload>)
    requires Tiling(starts, b) && i < |starts| && b <= |h| + 1
    ensures Range(h, starts[i], EndOf(starts, b, i))
  {
    TilingOrder(starts, b, i, |starts| - 1);
    if i + 1 < |starts| {
      TilingOrder(starts, b, i + 1, |starts| - 1);
    }
  }

  // Each file holds its stretch of the history; of the last one only the first
  // k bytes are there.
  ghost predicate Holds(files: seq<Image>, h: seq<Payload>, b: nat, max: nat, k: nat) {
    && max >= 1
    && b <= |h| + 1
    && Tiling(Starts(files), b)
    && (forall i, j :: 0 <= i && j == i + 1 < |files| ==>
         && Range(h, files[i].start, files[j].start)
         && files[i].bytes == LogBytes(h, files[i].start, files[j].start, max))
    && var last := files[|files| - 1];
       && Range(h, last.start, b)
       && k <= |LogBytes(h, last.start, b, max)|
       && last.bytes == LogBytes(h, last.start, b, max)[..k]
  }

  // The records of such files, segment by segment.
  function AllEntries(starts: seq<nat>, i: nat, h: seq<Payload>, b: nat, max: nat): seq<Entry>
    requires max >= 1 && Tiling(starts, b) && i < |starts| && b <= |h| + 1
    decreases |starts| - i
  {
    TilingRange(starts, b, i, h);
    Entries(h, starts[i], starts[i], EndOf(starts, b, i), max) +
    (if i + 1 < |starts| then AllEntries(starts, i + 1, h, b, max) else [])
  }

  lemma {:induction false} RecoverHeld(files: seq<Image>, i: nat, h: seq<Payload>, b: nat, max: nat, limit: nat,
                                       k: nat, st: ScanState)
    requires Holds(files, h, b, max, k) && Recordable(h, max) && max <= limit
    requires i < |files| && Ready(st, files[i].start)
    ensures var n := |files| - 1;
            var m := Fitting(h, files[n].start, b, max, k);
            && Tiling(Starts(files), m)
            && |LogBytes(h, files[n].start, m, max)| <= k
            && RecoverFrom(files, i, limit, st)
               == Opened(CutLast(files, |LogBytes(h, files[n].start, m, max)|), m - 1,
                         st.out + AllEntries(Starts(files), i, h, m, max),
                         |LogBytes(h, files[n].start, m, max)| < k)
    decreases |files| - i
  {
    hide LogBytes, ScanFrom, TailFrom, Fitting, Entries;
    var n := |files| - 1;
    var f := files[i];
    var m := Fitting(h, files[n].start, b, max, k);
    FittingIsLargest(h, files[n].start, b, max, k);
    if i == n {
      TornTail(h, f.start, b, max, limit, k, st);
    } else {
      var end := ScanWhole(h, f.start, files[i + 1].start, max, limit, st);
      RecoverHeld(files, i + 1, h, b, max, limit, k, end);
      assert st.out + Entries(h, f.start, f.start, files[i + 1].start, max)
             + AllEntries(Starts(files), i + 1, h, m, max)
          == st.out + AllEntries(Starts(files), i, h, m, max);
    }
  }

  // A segment that holds its whole stretch is scanned to the end.
  lemma ScanWhole(h: seq<Payload>, a: nat, b: nat, max: nat, limit: nat, st: ScanState) returns (end: ScanState)
    requires Recordable(h, max) && max <= limit && Range(h, a, b) && Ready(st, a)
    ensures AtRest(end, b - 1, st.out + Entries(h, a, a, b, max))
    ensures ScanFrom(LogBytes(h, a, b, max), a, limit, 0, st) == Whole(end)
  {
    hide RecordBytes;
    var file := LogBytes(h, a, b, max);
    assert LogBytes(h, a, a, max) == [];
    assert file[0..|file|] == file;
    end := ScanStretch(file, limit, st, h, a, a, b, max);
  }

  // The segment a sequence belongs to: the last one that starts at or before it.
  function Home(starts: seq<nat>, s: nat): (i: nat)
    requires starts != [] && starts[0] <= s
    ensures i < |starts| && starts[i] <= s
    decreases |starts|
  {
    var n := |starts| - 1;
    if starts[n] <= s then n else Home(starts[..n], s)
  }

  lemma {:induction false} HomeIs(starts: seq<nat>, b: nat, s: nat, i: nat)
    requires Tiling(starts, b) && i < |starts|
    requires starts[i] <= s && (i + 1 < |starts| ==> s < starts[i + 1])
    ensures starts[0] <= s && Home(starts, s) == i
    decreases |starts|
  {
    TilingOrder(starts, b, 0, i);
    var n := |starts| - 1;
    if i < n {
      TilingOrder(starts, b, i + 1, n);
      HomeIs(starts[..n], starts[n], s, i);
    }
  }

  // Where the index of such a log has to point.
  function Place(starts: seq<nat>, h: seq<Payload>, s: nat, max: nat): Location
    requires max >= 1 && starts != [] && 1 <= starts[0] <= s <= |h|
  {
    var a := starts[Home(starts, s)];
    if a >= 1 then LocationOf(EntryOf(h, a, s, max)) else Location(0, 0, 0)
  }

  ghost predicate InPlace(e: Entry, starts: seq<nat>, h: seq<Payload>, s: nat, max: nat) {
    && max >= 1 && starts != [] && 1 <= starts[0] <= s <= |h|
    && e.seqNo == s
    && e.payload == h[s - 1]
    && LocationOf(e) == Place(starts, h, s, max)
  }

  lemma {:induction false} EntriesInPlace(starts: seq<nat>, i: nat, h: seq<Payload>, b: nat, max: nat)
    requires max >= 1 && Tiling(starts, b) && i < |starts| && b <= |h| + 1
    ensures starts[i] <= b
    ensures var all := AllEntries(starts, i, h, b, max);
            && |all| == b - starts[i]
            && forall k :: 0 <= k < |all| ==> InPlace(all[k], starts, h, starts[i] + k, max)
    decreases |starts| - i
  {
    hide LogBytes, RecordBytes, Place, Tiling, Home, InPlace, EntryOf, Entries;
    TilingRange(starts, b, i, h);
    TilingOrder(starts, b, i, |starts| - 1);
    var all, end := AllEntries(starts, i, h, b, max), EndOf(starts, b, i);
    var here := Entries(h, starts[i], starts[i], end, max);
    if i + 1 < |starts| {
      EntriesInPlace(starts, i + 1, h, b, max);
    }
    forall k | 0 <= k < |all|
      ensures InPlace(all[k], starts, h, starts[i] + k, max)
    {
      var s := starts[i] + k;
      if s < end {
        EntryAt(h, starts[i], end, max, k);
        assert all[k] == here[k];
        EntryInPlace(starts, i, h, b, max, s);
      } else {
        assert all[k] == AllEntries(starts, i + 1, h, b, max)[s - starts[i + 1]];
      }
    }
  }

  lemma EntryAt(h: seq<Payload>, a: nat, b: nat, max: nat, k: nat)
    requires max >= 1 && Range(h, a, b) && k < b - a
    ensures Entries(h, a, a, b, max)[k] == EntryOf(h, a, a + k, max)
  {
    hide EntryOf;
  }

  lemma EntryInPlace(starts: seq<nat>, i: nat, h: seq<Payload>, b: nat, max: nat, s: nat)
    requires max >= 1 && Tiling(starts, b) && i < |starts| && b <= |h| + 1
    requires starts[i] <= s < EndOf(starts, b, i)
    ensures Range(h, starts[i], s) && s <= |h|
    ensures InPlace(EntryOf(h, starts[i], s, max), starts, h, s, max)
  {
    hide LogBytes, RecordBytes, Place, Home, Tiling;
    TilingOrder(starts, b, i, |starts| - 1);
    TilingRange(starts, b, i, h);
    HomeIs(starts, b, s, i);
    PlaceAt(starts, h, s, max, i);
  }

  lemma PlaceAt(starts: seq<nat>, h: seq<Payload>, s: nat, max: nat, i: nat)
    requires max >= 1 && starts != [] && 1 <= starts[0] <= s <= |h|
    requires i < |starts| && Home(starts, s) == i && 1 <= starts[i]
    ensures Place(starts, h, s, max) == LocationOf(EntryOf(h, starts[i], s, max))
  {
  }

  // The rebuilt index: every surviving sequence, at its place.
  lemma RebuiltIndex(starts: seq<nat>, h: seq<Payload>, b: nat, max: nat)
    requires max >= 1 && Tiling(starts, b) && b <= |h| + 1
    ensures var index := IndexOf(AllEntries(starts, 0, h, b, max));
            && (forall s :: s in index <==> starts[0] <= s < b)
            && (forall s :: s in index ==> index[s] == Place(starts, h, s, max))
  {
    hide Place, AllEntries, IndexOf;
    EntriesInPlace(starts, 0, h, b, max);
    var all := AllEntries(starts, 0, h, b, max);
    forall k | 0 <= k < |all|
      ensures all[k].seqNo == starts[0] + k
    {
      assert InPlace(all[k], starts, h, starts[0] + k, max);
    }
    IndexOfConsecutive(all, starts[0]);
    var index := IndexOf(all);
    forall s | s in index
      ensures index[s] == Place(starts, h, s, max)
    {
      var k := s - starts[0];
      assert InPlace(all[k], starts, h, starts[0] + k, max);
    }
  }
}
