// What recovery accepts, and what it makes of a directory from which a segment
// file, or the end of one, is missing.
module LogMissing {
  import opened Bytes
  import opened Framing
  import opened Scan
  import opened History
  import opened Recovery
  import opened LogState
  import opened LogCrash
  import opened LogDamage
  import opened ScanSound

  // ----- Arbitrary files -----

  // A scan only adds to what was found, and what it adds is in this segment.
  lemma {:induction false} ScanAdds(file: seq<byte>, segment: nat, max: nat, offset: nat, st: ScanState)
    requires offset <= |file| && Placed(st, offset)
    ensures var r := ScanFrom(file, segment, max, offset, st);
            !r.Corrupt? ==> st.out <= r.st.out && InSegment(r.st.out, |st.out|, segment)
    decreases |file| - offset
  {
    hide DecodeAt, IsFirst, IsLast, IsPadding;
    if offset < |file| {
      var step := ScanStep(file, segment, max, offset, st);
      if step.Advance? {
        ScanAdds(file, segment, max, step.next, step.st);
      }
    }
  }

  predicate InSegment(out: seq<Entry>, from: nat, segment: nat) {
    forall k :: from <= k < |out| ==> out[k].segment == segment
  }

  // File j starts with the sequence behind everything found before it and ends
  // where file j + 1, or the log, starts; the records in between were found in it,
  // and they and padding are all that is kept of it.
  ghost predicate InOrder(files: seq<Image>, j: nat, r: Recovered, first: nat)
    requires j < |files| && r.Opened?
  {
    var end := EndOf(Starts(files), r.lastSeq + 1, j);
    && first <= files[j].start <= end
    && end - first <= |r.out| && |r.files| == |files|
    && Accounted(files[j].bytes, r.out[..end - first], files[j].start - first, |r.files[j].bytes|)
    && forall k :: files[j].start - first <= k < end - first ==>
         r.out[k].seqNo == first + k && r.out[k].segment == files[j].start
  }

  // Whatever the bytes, recovery accepts only segments that follow on one
  // another: each starts right behind the last record of the one before it, and
  // has exactly the records up to the start of the next one.
  lemma {:induction false} AcceptedInOrder(files: seq<Image>, i: nat, max: nat, st: ScanState, first: nat)
    requires i < |files| && !st.assembling
    requires Consecutive(st.out, first) && st.lastSeq + 1 == first + |st.out|
    requires i == 0 ==> files[0].start == st.lastSeq + 1
    requires RecoverFrom(files, i, max, st).Opened?
    ensures var r := RecoverFrom(files, i, max, st);
            && files[i].start == st.lastSeq + 1
            && st.out <= r.out && Consecutive(r.out, first) && r.lastSeq + 1 == first + |r.out|
            && forall j :: i <= j < |files| ==> InOrder(files, j, r, first)
    decreases |files| - i
  {
    hide ScanFrom, TailFrom, Accounted;
    var f := files[i];
    var r := RecoverFrom(files, i, max, st);
    RecoverConsecutive(files, i, max, st, first);
    RecoverShape(files, i, max, st);
    if i == |files| - 1 {
      TailAdds(f.bytes, f.start, max, st);
      KeptIsAccounted(f.bytes, f.start, max, st);
      assert r.out[..r.lastSeq + 1 - first] == r.out;
      assert InOrder(files, i, r, first);
    } else {
      var next := ScanFrom(f.bytes, f.start, max, 0, st).st;
      ScanAdds(f.bytes, f.start, max, 0, st);
      ScanConsecutive(f.bytes, f.start, max, 0, st, first);
      WholeIsAccounted(f.bytes, f.start, max, st);
      AcceptedInOrder(files, i + 1, max, next, first);
      assert r.out[..files[i + 1].start - first] == next.out;
      assert r.files[i] == f;
      forall k | f.start - first <= k < files[i + 1].start - first
        ensures r.out[k].seqNo == first + k && r.out[k].segment == f.start
      {
        assert r.out[k] == next.out[k];
      }
      assert InOrder(files, i, r, first);
    }
  }

  lemma TailAdds(file: seq<byte>, segment: nat, max: nat, st: ScanState)
    requires !st.assembling && TailFrom(file, segment, max, 0, st).Kept?
    ensures var r := TailFrom(file, segment, max, 0, st);
            st.out <= r.out && InSegment(r.out, |st.out|, segment)
  {
    hide ScanFrom;
    ScanAdds(file, segment, max, 0, st);
  }

  // The same for a whole directory.
  lemma OpenedInOrder(files: seq<Image>, max: nat)
    requires files != [] && files[0].start >= 1 && Recover(files, max).Opened?
    ensures var r := Recover(files, max);
            && r.lastSeq + 1 == files[0].start + |r.out|
            && forall j :: 0 <= j < |files| ==> InOrder(files, j, r, files[0].start)
  {
    hide RecoverFrom;
    AcceptedInOrder(files, 0, max, Initial(files[0].start - 1), files[0].start);
  }

  // ----- A segment that is not there -----

  // Files 0, ..., i hold their stretches, file i the one up to b.
  ghost predicate HoldUpTo(files: seq<Image>, i: nat, h: seq<Payload>, b: nat, max: nat) {
    && i < |files| && max >= 1
    && (forall k, l :: 0 <= k && l == k + 1 <= i ==>
         && Range(h, files[k].start, files[l].start)
         && files[k].bytes == LogBytes(h, files[k].start, files[l].start, max))
    && Range(h, files[i].start, b)
    && files[i].bytes == LogBytes(h, files[i].start, b, max)
  }

  lemma {:induction false} GapRejected(files: seq<Image>, j: nat, i: nat, h: seq<Payload>, b: nat, max: nat,
                                         st: ScanState)
    requires Recordable(h, max) && j <= i && HoldUpTo(files, i, h, b, max)
    requires i + 1 < |files| && files[i + 1].start != b && Ready(st, files[j].start)
    ensures RecoverFrom(files, j, max, st) == Rejected(Corruption(files[i + 1].start, 0, SegmentGap))
    decreases i - j
  {
    hide LogBytes, ScanFrom;
    if j == i {
      var end := ScanWhole(h, files[i].start, b, max, max, st);
    } else {
      var end := SkipFile(files, j, h, max, st);
      GapRejected(files, j + 1, i, h, b, max, end);
    }
  }

  function Without(files: seq<Image>, j: nat): seq<Image>
    requires j < |files|
  {
    files[..j] + files[j + 1..]
  }

  // Of a flushed log, recovery notices a missing segment file if and only if it
  // is neither the first, as after a cleaning, nor the current one; it names the
  // segment behind the gap.
  lemma MissingSegment(v: Log, h: seq<Payload>, j: nat)
    requires Healthy(v, h) && j < |v.segs|
    ensures var files, max := Without(Files(v), j), v.opts.maxRecord;
            && (files != [] ==> files[0].start >= 1)
            && (0 < j < |v.segs| - 1 ==>
                 Recover(files, max) == Rejected(Corruption(v.segs[j + 1].start, 0, SegmentGap)))
            && (j == 0 || j == |v.segs| - 1 ==> Recover(files, max).Opened?)
            && (0 < j == |v.segs| - 1 ==> Recover(files, max).lastSeq == v.segs[j].start - 1)
            && (0 == j < |v.segs| - 1 ==> Recover(files, max).lastSeq == v.durable)
  {
    hide LogBytes, Inv, RecoverFrom, Until;
    var all, max := Files(v), v.opts.maxRecord;
    var files := Without(all, j);
    SegmentHolds(v, h, j);
    FirstStarts(v, h, j);
    if 0 < j {
      assert files[0].start == v.segs[0].start;
      HealthyUpTo(v, h, j - 1, files);
      if j < |v.segs| - 1 {
        assert files[j] == all[j + 1];
        GapRejected(files, 0, j - 1, h, v.segs[j].start, max, Initial(files[0].start - 1));
      } else {
        WholeLast(files, h, v.segs[j].start, max);
      }
    } else if |v.segs| > 1 {
      HealthyRest(v, h, files);
      WholeLast(files, h, v.nextSeq, max);
    }
  }

  lemma FirstStarts(v: Log, h: seq<Payload>, j: nat)
    requires Healthy(v, h) && j < |v.segs|
    ensures 1 <= v.segs[0].start <= v.segs[j].start
    ensures j + 1 < |v.segs| ==> v.segs[j].start < v.segs[j + 1].start
  {
    hide LogBytes, Tiling, IndexSound, Bounded, Watermarks;
    LayoutSegs(v, h);
    TilingOrder(SegStarts(v.segs), OnFile(v), 0, j);
    if j + 1 < |v.segs| {
      TilingOrder(SegStarts(v.segs), OnFile(v), j, j + 1);
    }
  }

  lemma HealthyUpTo(v: Log, h: seq<Payload>, i: nat, files: seq<Image>)
    requires Healthy(v, h) && i + 1 < |v.segs| && i < |files|
    requires forall k :: 0 <= k <= i ==> files[k] == ImageOf(v.segs[k])
    ensures HoldUpTo(files, i, h, v.segs[i + 1].start, v.opts.maxRecord)
    ensures Recordable(h, v.opts.maxRecord)
  {
    hide LogBytes, Inv, Until;
    SegmentHolds(v, h, i);
    UntilNext(v, i);
    forall k, l | 0 <= k && l == k + 1 <= i
      ensures Range(h, files[k].start, files[l].start)
      ensures files[k].bytes == LogBytes(h, files[k].start, files[l].start, v.opts.maxRecord)
    {
      SegmentHolds(v, h, k);
      UntilNext(v, k);
    }
  }

  lemma HealthyRest(v: Log, h: seq<Payload>, files: seq<Image>)
    requires Healthy(v, h) && |v.segs| > 1 && files == Files(v)[1..]
    ensures HoldUpTo(files, |files| - 1, h, v.nextSeq, v.opts.maxRecord) && files[0].start >= 1
    ensures Recordable(h, v.opts.maxRecord)
  {
    hide LogBytes, Inv, Until;
    var n := |v.segs| - 1;
    SegmentHolds(v, h, n);
    FirstStarts(v, h, 1);
    assert Until(v, n) == v.nextSeq by { UntilLast(v); }
    forall k, l | 0 <= k && l == k + 1 <= |files| - 1
      ensures Range(h, files[k].start, files[l].start)
      ensures files[k].bytes == LogBytes(h, files[k].start, files[l].start, v.opts.maxRecord)
    {
      SegmentHolds(v, h, k + 1);
      UntilNext(v, k + 1);
    }
  }

  lemma UntilLast(v: Log)
    requires v.segs != []
    ensures Until(v, |v.segs| - 1) == v.nextSeq
  {
  }

  // Whole files recover whole.
  lemma WholeLast(files: seq<Image>, h: seq<Payload>, b: nat, max: nat)
    requires files != [] && files[0].start >= 1 && Recordable(h, max)
    requires HoldUpTo(files, |files| - 1, h, b, max)
    ensures Recover(files, max).Opened? && Recover(files, max).lastSeq == b - 1
  {
    hide RecoverFrom;
    WholeFrom(files, 0, h, b, max, Initial(files[0].start - 1));
  }

  lemma {:induction false} WholeFrom(files: seq<Image>, j: nat, h: seq<Payload>, b: nat, max: nat, st: ScanState)
    requires j < |files| && Recordable(h, max) && HoldUpTo(files, |files| - 1, h, b, max) && Ready(st, files[j].start)
    ensures var r := RecoverFrom(files, j, max, st); r.Opened? && r.lastSeq == b - 1
    decreases |files| - j
  {
    hide LogBytes, ScanFrom;
    if j == |files| - 1 {
      var end := ScanWhole(h, files[j].start, b, max, max, st);
    } else {
      var end := SkipFile(files, j, h, max, st);
      WholeFrom(files, j + 1, h, b, max, end);
    }
  }

  // ----- A sealed segment that is too short -----

  // Cutting any byte off a segment that is not the current one is reported: as a
  // gap before the next segment if the cut falls between two records, and in that
  // segment, as an early end or as a record that crosses into the next, if not.
  lemma ShortSegment(v: Log, h: seq<Payload>, i: nat, k: nat)
    requires Healthy(v, h) && i + 1 < |v.segs| && k < |v.segs[i].bytes|
    ensures v.opts.maxRecord >= 1 && Range(h, v.segs[i].start, v.segs[i + 1].start)
    ensures var w, max := WithBytes(v, i, v.segs[i].bytes[..k]), v.opts.maxRecord;
            var m := Fitting(h, v.segs[i].start, v.segs[i + 1].start, max, k);
            && w.segs[0].start >= 1
            && var r := Recover(Files(w), max);
               && r.Rejected?
               && (r.error == Corruption(v.segs[i + 1].start, 0, SegmentGap)
                   <==> k == |LogBytes(h, v.segs[i].start, m, max)|)
               && (k != |LogBytes(h, v.segs[i].start, m, max)| ==>
                    && r.error.segment == v.segs[i].start
                    && r.error.reason in {Undecodable(EndOfFile), CrossesSegment})
  {
    hide LogBytes, Inv, RecoverFrom, Until, Fitting;
    SegmentHolds(v, h, i);
    UntilNext(v, i);
    FirstStarts(v, h, i);
    EarlierFiles(v, h, i, v.segs[i].bytes[..k]);
    var w := WithBytes(v, i, v.segs[i].bytes[..k]);
    var files := Files(w);
    assert files[0].start == v.segs[0].start && files[i].bytes == v.segs[i].bytes[..k];
    assert files[i].start == v.segs[i].start && files[i + 1].start == v.segs[i + 1].start;
    ShortFile(files, 0, i, h, k, v.opts.maxRecord, Initial(files[0].start - 1));
  }

  lemma {:induction false} ShortFile(files: seq<Image>, j: nat, i: nat, h: seq<Payload>, k: nat, max: nat,
                                       st: ScanState)
    requires Recordable(h, max) && j <= i && i + 1 < |files| && Ready(st, files[j].start)
    requires forall a, b :: 0 <= a && b == a + 1 <= i ==>
               && Range(h, files[a].start, files[b].start)
               && files[a].bytes == LogBytes(h, files[a].start, files[b].start, max)
    requires Range(h, files[i].start, files[i + 1].start) && files[i].start < files[i + 1].start
    requires k < |LogBytes(h, files[i].start, files[i + 1].start, max)|
    requires files[i].bytes == LogBytes(h, files[i].start, files[i + 1].start, max)[..k]
    ensures var m := Fitting(h, files[i].start, files[i + 1].start, max, k);
            var r := RecoverFrom(files, j, max, st);
            && r.Rejected?
            && (k == |LogBytes(h, files[i].start, m, max)| ==>
                 r.error == Corruption(files[i + 1].start, 0, SegmentGap))
            && (k != |LogBytes(h, files[i].start, m, max)| ==>
                 && r.error.segment == files[i].start
                 && r.error.reason in {Undecodable(EndOfFile), CrossesSegment})
    decreases i - j
  {
    hide LogBytes, ScanFrom, Fitting;
    if j == i {
      var f := files[i];
      var m := Fitting(h, f.start, files[i + 1].start, max, k);
      FittingIsLargest(h, f.start, files[i + 1].start, max, k);
      TornTail(h, f.start, files[i + 1].start, max, max, k, st);
    } else {
      assert files[j].bytes == LogBytes(h, files[j].start, files[j + 1].start, max);
      var end := SkipFile(files, j, h, max, st);
      ShortFile(files, j + 1, i, h, k, max, end);
    }
  }
}
