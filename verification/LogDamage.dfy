// Damage to any fragment of a healthy log, and what recovery
// (internal/wal/recovery.go) makes of it.
module LogDamage {
  import opened Bytes
  import opened Framing
  import opened Scan
  import opened History
  import opened Recovery
  import opened LogState
  import opened LogCrash

  // ----- Up to a fragment -----

  // A fragment of p starts at `at`, counting from the one at `from`.
  predicate FragmentStart(p: Payload, max: nat, from: nat, at: nat)
    requires max >= 1 && from <= |p|
    decreases |p| - from
  {
    at == from || (FragmentEnd(p, max, from) < |p| && FragmentStart(p, max, FragmentEnd(p, max, from), at))
  }

  // The frames from there to that fragment.
  function Before(s: nat, p: Payload, max: nat, from: nat, at: nat): seq<byte>
    requires max >= 1 && from <= |p| && FragmentStart(p, max, from, at)
    decreases |p| - from
  {
    if at == from then [] else Frame(FragmentAt(s, p, max, from)) + Before(s, p, max, FragmentEnd(p, max, from), at)
  }

  lemma Regroup(x: seq<byte>, y: seq<byte>, z: seq<byte>)
    ensures x + (y + z) == x + y + z
  {
  }

  lemma {:induction false} BeforeAndRest(s: nat, p: Payload, max: nat, from: nat, at: nat)
    requires max >= 1 && from <= |p| && FragmentStart(p, max, from, at)
    ensures from <= at <= |p| && (at > from ==> |Before(s, p, max, from, at)| > 0)
    ensures Frames(FragmentsFrom(s, p, max, from)) == Before(s, p, max, from, at) + Frames(FragmentsFrom(s, p, max, at))
    ensures Frames(FragmentsFrom(s, p, max, at))
         == Frame(FragmentAt(s, p, max, at)) + Frames(FragmentsFrom(s, p, max, at)[1..])
    decreases |p| - from
  {
    hide Frame, FragmentAt;
    if at == from {
      assert [] + Frames(FragmentsFrom(s, p, max, at)) == Frames(FragmentsFrom(s, p, max, at));
    } else {
      var end := FragmentEnd(p, max, from);
      BeforeAndRest(s, p, max, end, at);
      assert FragmentsFrom(s, p, max, from)[1..] == FragmentsFrom(s, p, max, end);
      Regroup(Frame(FragmentAt(s, p, max, from)), Before(s, p, max, end, at), Frames(FragmentsFrom(s, p, max, at)));
    }
  }

  // The scan gets there with the fragments before it assembled.
  lemma {:induction false} ScanBefore(file: seq<byte>, segment: nat, limit: nat, st: ScanState, s: nat, p: Payload,
                                      max: nat, base: nat, offset: nat, from: nat, at: nat)
    requires Legible(s, p, max, limit) && Ready(st, s)
    requires from <= |p| && (if from == 0 then offset == base else base < offset)
    requires FragmentStart(p, max, from, at)
    requires var b := Before(s, p, max, from, at);
             offset + |b| <= |file| && file[offset..offset + |b|] == b
    ensures at <= |p|
    ensures var place := offset + |Before(s, p, max, from, at)|;
            && Placed(Mid(st, s, base, p, from), offset) && Placed(Mid(st, s, base, p, at), place)
            && ScanFrom(file, segment, limit, offset, Mid(st, s, base, p, from))
               == ScanFrom(file, segment, limit, place, Mid(st, s, base, p, at))
    decreases |p| - from
  {
    hide ScanStep, DecodeAt, Frame, FragmentAt, Checksum.RecordCrc;
    if at != from {
      var end := FragmentEnd(p, max, from);
      var r := FragmentAt(s, p, max, from);
      var b := Before(s, p, max, from, at);
      FragmentSize(s, p, max, from);
      SubSlice(file, offset, offset + |b|, 0, |Frame(r)|);
      SubSlice(file, offset, offset + |b|, |Frame(r)|, |b|);
      assert b[..|Frame(r)|] == Frame(r) && b[|Frame(r)|..] == Before(s, p, max, end, at);
      FragmentStep(file, segment, limit, st, s, p, max, base, offset, from);
      ScanBefore(file, segment, limit, st, s, p, max, base, offset + |Frame(r)|, end, at);
    }
  }

  // ----- Up to a fragment of a file -----

  // Where that fragment of record s stands in a segment that starts with a.
  function PlaceOf(h: seq<Payload>, a: nat, s: nat, at: nat, max: nat): nat
    requires max >= 1 && Range(h, a, s) && s <= |h| && FragmentStart(h[s - 1], max, 0, at)
  {
    |LogBytes(h, a, s, max)| + |Before(s, h[s - 1], max, 0, at)|
  }

  // The file is as written up to there.
  ghost predicate Intact(file: seq<byte>, h: seq<Payload>, a: nat, s: nat, at: nat, max: nat) {
    && max >= 1 && Range(h, a, s) && s <= |h| && FragmentStart(h[s - 1], max, 0, at)
    && PlaceOf(h, a, s, at, max) < |file|
    && file[..PlaceOf(h, a, s, at, max)] == LogBytes(h, a, s, max) + Before(s, h[s - 1], max, 0, at)
  }

  lemma Halves(file: seq<byte>, x: seq<byte>, y: seq<byte>)
    requires |x| + |y| <= |file| && file[..|x| + |y|] == x + y
    ensures file[0..|x|] == x && file[|x|..|x| + |y|] == y
  {
    assert file[0..|x|] == (x + y)[..|x|];
    assert file[|x|..|x| + |y|] == (x + y)[|x|..];
  }

  lemma ScanToFragment(file: seq<byte>, h: seq<Payload>, a: nat, s: nat, at: nat, max: nat, st: ScanState)
      returns (end: ScanState)
    requires Recordable(h, max) && Ready(st, a) && Intact(file, h, a, s, at, max)
    ensures at <= |h[s - 1]| && AtRest(end, s - 1, st.out + Entries(h, a, a, s, max))
    ensures var base := |LogBytes(h, a, s, max)|;
            var place := PlaceOf(h, a, s, at, max);
            && Placed(Mid(end, s, base, h[s - 1], at), place)
            && (at > 0 ==> base < place) && (at == 0 ==> base == place)
            && ScanFrom(file, a, max, 0, st) == ScanFrom(file, a, max, place, Mid(end, s, base, h[s - 1], at))
  {
    hide LogBytes, RecordBytes, Before, ScanFrom, FragmentStart, Entries, Storable;
    var base, place := |LogBytes(h, a, s, max)|, PlaceOf(h, a, s, at, max);
    IntactParts(file, h, a, s, at, max);
    LogEmpty(h, a, max);
    hide PlaceOf, Intact;
    end := ScanStretch(file, max, st, h, a, a, s, max);
    ScanBefore(file, a, max, end, s, h[s - 1], max, base, base, 0, at);
  }

  lemma IntactParts(file: seq<byte>, h: seq<Payload>, a: nat, s: nat, at: nat, max: nat)
    requires Intact(file, h, a, s, at, max)
    ensures var base, place := |LogBytes(h, a, s, max)|, PlaceOf(h, a, s, at, max);
            && place == base + |Before(s, h[s - 1], max, 0, at)| <= |file|
            && file[0..base] == LogBytes(h, a, s, max)
            && file[base..place] == Before(s, h[s - 1], max, 0, at)
            && at <= |h[s - 1]| && (at > 0 ==> base < place) && (at == 0 ==> base == place)
  {
    hide LogBytes, Before, FragmentStart, Frames, FragmentsFrom;
    Halves(file, LogBytes(h, a, s, max), Before(s, h[s - 1], max, 0, at));
    BeforeAndRest(s, h[s - 1], max, 0, at);
    FirstBefore(s, h[s - 1], max, at);
  }

  lemma FirstBefore(s: nat, p: Payload, max: nat, at: nat)
    requires max >= 1 && FragmentStart(p, max, 0, at)
    ensures at == 0 ==> Before(s, p, max, 0, at) == []
  {
  }

  // ----- Recovery -----

  // The last file is cut behind record s - 1.
  ghost predicate CutBefore(r: Recovered, files: seq<Image>, i: nat, h: seq<Payload>, s: nat, max: nat)
    requires i < |files| && max >= 1 && Range(h, files[i].start, s)
  {
    var base := |LogBytes(h, files[i].start, s, max)|;
    && i == |files| - 1 && r.Opened? && r.truncated && r.lastSeq == s - 1
    && base <= |files[i].bytes| && r.files == CutLast(files, base)
  }

  // What recovery says of a file whose fragment at `place` does not decode: an
  // early end of the last file costs record s and all behind it, anything else is
  // reported at that segment and offset.
  ghost predicate Reported(r: Recovered, files: seq<Image>, i: nat, h: seq<Payload>, s: nat, place: nat, e: DecodeError,
                           max: nat)
    requires i < |files| && max >= 1 && Range(h, files[i].start, s)
  {
    if e == EndOfFile && i == |files| - 1 then CutBefore(r, files, i, h, s, max)
    else r == Rejected(Corruption(files[i].start, place, Undecodable(e)))
  }

  lemma BadFile(files: seq<Image>, i: nat, h: seq<Payload>, s: nat, at: nat, max: nat, e: DecodeError, st: ScanState)
    requires Recordable(h, max) && i < |files| && Ready(st, files[i].start)
    requires Intact(files[i].bytes, h, files[i].start, s, at, max)
    requires DecodeAt(files[i].bytes, PlaceOf(h, files[i].start, s, at, max), max) == Bad(e)
    ensures Reported(RecoverFrom(files, i, max, st), files, i, h, s, PlaceOf(h, files[i].start, s, at, max), e, max)
  {
    hide LogBytes, DecodeAt, Before, FragmentStart;
    var end := ScanToFragment(files[i].bytes, h, files[i].start, s, at, max, st);
  }

  lemma SkipFile(files: seq<Image>, j: nat, h: seq<Payload>, max: nat, st: ScanState) returns (end: ScanState)
    requires Recordable(h, max) && j + 1 < |files| && Ready(st, files[j].start)
    requires Range(h, files[j].start, files[j + 1].start)
    requires files[j].bytes == LogBytes(h, files[j].start, files[j + 1].start, max)
    ensures Ready(end, files[j + 1].start)
    ensures RecoverFrom(files, j, max, st) == RecoverFrom(files, j + 1, max, end)
  {
    hide LogBytes, ScanFrom;
    end := ScanWhole(h, files[j].start, files[j + 1].start, max, max, st);
  }

  lemma {:induction false} BadRecover(files: seq<Image>, j: nat, i: nat, h: seq<Payload>, s: nat, at: nat, max: nat,
                                      e: DecodeError, st: ScanState)
    requires Recordable(h, max) && j <= i < |files| && Ready(st, files[j].start)
    requires forall k, l :: 0 <= k && l == k + 1 <= i ==>
               && Range(h, files[k].start, files[l].start)
               && files[k].bytes == LogBytes(h, files[k].start, files[l].start, max)
    requires Intact(files[i].bytes, h, files[i].start, s, at, max)
    requires DecodeAt(files[i].bytes, PlaceOf(h, files[i].start, s, at, max), max) == Bad(e)
    ensures Reported(RecoverFrom(files, j, max, st), files, i, h, s, PlaceOf(h, files[i].start, s, at, max), e, max)
    decreases i - j
  {
    hide LogBytes, DecodeAt, RecoverFrom, Reported, Intact, PlaceOf;
    if j == i {
      BadFile(files, i, h, s, at, max, e, st);
    } else {
      assert files[j].bytes == LogBytes(h, files[j].start, files[j + 1].start, max);
      var end := SkipFile(files, j, h, max, st);
      BadRecover(files, j + 1, i, h, s, at, max, e, end);
    }
  }

  // ----- A healthy log -----

  // Everything assigned is on file and synced.
  ghost predicate Healthy(v: Log, h: seq<Payload>) {
    Inv(v, h) && v.pending == [] && v.unsyncedHigh == 0
  }

  lemma SegmentHolds(v: Log, h: seq<Payload>, i: nat)
    requires Healthy(v, h) && i < |v.segs|
    ensures v.opts.maxRecord >= 1 && Recordable(h, v.opts.maxRecord) && v.durable == |h| == v.nextSeq - 1
    ensures 1 <= v.segs[0].start && Range(h, v.segs[i].start, Until(v, i))
    ensures v.segs[i].bytes == LogBytes(h, v.segs[i].start, Until(v, i), v.opts.maxRecord)
  {
    hide LogBytes, Tiling, IndexSound, Bounded;
    LayoutSegs(v, h);
    LayoutPending(v, h);
    if i + 1 < |v.segs| {
      assert Closed(h, v.segs[i], v.segs[i + 1], v.opts.maxRecord);
    }
  }

  lemma HealthySync(v: Log, h: seq<seq<byte>>, i: nat)
    requires Healthy(v, h) && i < |v.segs|
    ensures v.segs[i].synced == |v.segs[i].bytes|
  {
    hide LogBytes, Tiling;
    LayoutSegs(v, h);
    if i + 1 < |v.segs| {
      assert Closed(h, v.segs[i], v.segs[i + 1], v.opts.maxRecord);
    }
  }

  function WithBytes(v: Log, i: nat, other: seq<byte>): Log
    requires i < |v.segs|
  {
    v.(segs := v.segs[i := v.segs[i].(bytes := other)])
  }

  // The fragment at `at` of record s, which stands in segment i.
  ghost predicate Stands(v: Log, h: seq<Payload>, i: nat, s: nat, at: nat) {
    && v.opts.maxRecord >= 1 && i < |v.segs| && v.nextSeq == |h| + 1 && Range(h, v.segs[i].start, Until(v, i))
    && v.segs[i].start <= s < Until(v, i)
    && FragmentStart(h[s - 1], v.opts.maxRecord, 0, at)
  }

  ghost predicate FrameAt(file: seq<byte>, place: nat, r: Record) {
    place + |Frame(r)| <= |file| && file[place..place + |Frame(r)|] == Frame(r)
  }

  // The bytes of that fragment, and those before it.
  lemma FragmentBytes(v: Log, h: seq<Payload>, i: nat, s: nat, at: nat)
    requires Healthy(v, h) && Stands(v, h, i, s, at)
    ensures var max, file := v.opts.maxRecord, v.segs[i].bytes;
            && at <= |h[s - 1]|
            && FrameAt(file, PlaceOf(h, v.segs[i].start, s, at, max), FragmentAt(s, h[s - 1], max, at))
            && Intact(file, h, v.segs[i].start, s, at, max)
  {
    hide LogBytes, RecordBytes, Inv, Frame, Before, FragmentStart, FragmentAt, Until, Frames, FragmentsFrom;
    SegmentHolds(v, h, i);
    var a, max, file, p := v.segs[i].start, v.opts.maxRecord, v.segs[i].bytes, h[s - 1];
    var base, b := |LogBytes(h, a, s, max)|, Before(s, p, max, 0, at);
    RecordOnFile(h, a, s, Until(v, i), max);
    BeforeAndRest(s, p, max, 0, at);
    RecordAsFrames(s, p, max);
    var f := Frame(FragmentAt(s, p, max, at));
    FrameSize(FragmentAt(s, p, max, at));
    InRecord(file, base, RecordBytes(s, p, max), b, f, Frames(FragmentsFrom(s, p, max, at)[1..]));
  }

  lemma FrameSize(r: Record)
    ensures |Frame(r)| >= HEADER
  {
  }

  lemma InRecord(file: seq<byte>, base: nat, rec: seq<byte>, b: seq<byte>, f: seq<byte>, tail: seq<byte>)
    requires rec == b + (f + tail) && base + |rec| <= |file| && file[base..base + |rec|] == rec
    ensures base + |b| + |f| <= |file|
    ensures file[..base + |b|] == file[..base] + b
    ensures file[base + |b|..base + |b| + |f|] == f
  {
    SubSlice(file, base, base + |rec|, |b|, |b| + |f|);
    SubSlice(file, base, base + |rec|, 0, |b|);
    assert rec[|b|..|b| + |f|] == f && rec[0..|b|] == b;
    assert file[..base + |b|] == file[..base] + file[base..base + |b|];
  }

  // It is on file as it was written, and decodes.
  lemma FragmentOnFile(v: Log, h: seq<Payload>, i: nat, s: nat, at: nat)
    requires Healthy(v, h) && Stands(v, h, i, s, at)
    ensures var max, file := v.opts.maxRecord, v.segs[i].bytes;
            var place := PlaceOf(h, v.segs[i].start, s, at, max);
            && at <= |h[s - 1]|
            && Intact(file, h, v.segs[i].start, s, at, max)
            && DecodeAt(file, place, max)
               == Good(Sealed(FragmentAt(s, h[s - 1], max, at)), place + HEADER + FragmentEnd(h[s - 1], max, at) - at)
  {
    hide LogBytes, RecordBytes, Inv, DecodeAt, Frame, Before, FragmentStart, Sealed, FragmentAt, Until, Intact,
         PlaceOf;
    SegmentHolds(v, h, i);
    FragmentBytes(v, h, i, s, at);
    var max, p := v.opts.maxRecord, h[s - 1];
    FragmentSize(s, p, max, at);
    FragmentWritable(s, p, max, at, max);
    FrameDecodes(v.segs[i].bytes, PlaceOf(h, v.segs[i].start, s, at, max), max, FragmentAt(s, p, max, at));
  }

  lemma RecordOnFile(h: seq<Payload>, a: nat, s: nat, b: nat, max: nat)
    requires max >= 1 && Range(h, a, s) && s < b && Range(h, s + 1, b)
    ensures var base, n := |LogBytes(h, a, s, max)|, |RecordBytes(s, h[s - 1], max)|;
            var file := LogBytes(h, a, b, max);
            && base + n <= |file| && file[..base] == LogBytes(h, a, s, max)
            && file[base..base + n] == RecordBytes(s, h[s - 1], max)
  {
    hide LogBytes, RecordBytes;
    LogSplit(h, a, s + 1, b, max);
    LogNext(h, a, s, max);
  }

  lemma RecordAsFrames(s: nat, p: Payload, max: nat)
    requires max >= 1
    ensures RecordBytes(s, p, max) == Frames(FragmentsFrom(s, p, max, 0))
  {
  }

  // Whatever happened to the fragment and the bytes behind it, if it does not
  // decode any more, recovery says so, or, at an early end of the last file, cuts
  // record s and everything behind it off, and opens with exactly the records
  // before.
  lemma DamagedFragment(v: Log, h: seq<Payload>, i: nat, s: nat, at: nat, other: seq<byte>, e: DecodeError)
    requires Healthy(v, h) && Stands(v, h, i, s, at)
    requires var place := PlaceOf(h, v.segs[i].start, s, at, v.opts.maxRecord);
             && place < |other| && place <= |v.segs[i].bytes| && other[..place] == v.segs[i].bytes[..place]
             && DecodeAt(other, place, v.opts.maxRecord) == Bad(e)
    ensures var w, max := WithBytes(v, i, other), v.opts.maxRecord;
            && w.segs[0].start >= 1
            && Reported(Recover(Files(w), max), Files(w), i, h, s, PlaceOf(h, v.segs[i].start, s, at, max), e, max)
  {
    hide LogBytes, Inv, DecodeAt, Before, FragmentStart, RecoverFrom, Reported, Until, RecordBytes, PlaceOf, Intact,
         Files;
    SegmentHolds(v, h, i);
    FragmentOnFile(v, h, i, s, at);
    IntactCopy(v.segs[i].bytes, other, h, v.segs[i].start, s, at, v.opts.maxRecord);
    EarlierFiles(v, h, i, other);
    var files := Files(WithBytes(v, i, other));
    FilesWith(v, i, other);
    BadRecover(files, 0, i, h, s, at, v.opts.maxRecord, e, Initial(files[0].start - 1));
  }

  lemma FilesWith(v: Log, i: nat, other: seq<byte>)
    requires i < |v.segs|
    ensures var files := Files(WithBytes(v, i, other));
            && files[0].start == WithBytes(v, i, other).segs[0].start == v.segs[0].start
            && files[i] == Image(v.segs[i].start, other)
  {
  }

  lemma IntactCopy(file: seq<byte>, other: seq<byte>, h: seq<Payload>, a: nat, s: nat, at: nat, max: nat)
    requires Intact(file, h, a, s, at, max)
    requires var place := PlaceOf(h, a, s, at, max); place < |other| && other[..place] == file[..place]
    ensures Intact(other, h, a, s, at, max)
  {
    hide LogBytes, Before, FragmentStart, PlaceOf;
  }

  lemma EarlierFiles(v: Log, h: seq<Payload>, i: nat, other: seq<byte>)
    requires Healthy(v, h) && i < |v.segs| && v.opts.maxRecord >= 1
    ensures var files := Files(WithBytes(v, i, other));
            forall k, l :: 0 <= k && l == k + 1 <= i ==>
              && Range(h, files[k].start, files[l].start)
              && files[k].bytes == LogBytes(h, files[k].start, files[l].start, v.opts.maxRecord)
  {
    hide LogBytes, Inv, Until;
    var w := WithBytes(v, i, other);
    var files := Files(w);
    forall k, l | 0 <= k && l == k + 1 <= i
      ensures Range(h, files[k].start, files[l].start)
      ensures files[k].bytes == LogBytes(h, files[k].start, files[l].start, v.opts.maxRecord)
    {
      SegmentHolds(v, h, k);
      UntilNext(v, k);
      assert w.segs[k] == v.segs[k] && w.segs[l].start == v.segs[l].start;
    }
  }

  lemma UntilNext(v: Log, k: nat)
    requires k + 1 < |v.segs|
    ensures Until(v, k) == v.segs[k + 1].start
  {
  }

  // ----- The theorems -----

  // Any change of one to four bytes of one field, other than the length, in any
  // fragment of any segment of a healthy log, and so any single-byte change
  // outside a length field, makes recovery report that segment and offset.
  lemma EveryDamageIsReported(v: Log, h: seq<Payload>, i: nat, s: nat, at: nat, other: seq<byte>, q: nat, n: nat)
    requires Healthy(v, h) && Stands(v, h, i, s, at)
    requires Damaged(v.segs[i].bytes, other, q, n)
    requires at <= |h[s - 1]|
    requires var place := PlaceOf(h, v.segs[i].start, s, at, v.opts.maxRecord);
             InsideOneField(place, place + HEADER + FragmentEnd(h[s - 1], v.opts.maxRecord, at) - at, q, n)
    ensures var w, place := WithBytes(v, i, other), PlaceOf(h, v.segs[i].start, s, at, v.opts.maxRecord);
            && w.segs[0].start >= 1
            && Recover(Files(w), v.opts.maxRecord)
               == Rejected(Corruption(v.segs[i].start, place,
                                      Undecodable(if q < place + 2 then BadMagic else BadChecksum)))
  {
    hide LogBytes, Inv, DecodeAt, Before, FragmentStart, Recover, PlaceOf, Intact, Until, RecordBytes, CrcHolds;
    FragmentOnFile(v, h, i, s, at);
    var max := v.opts.maxRecord;
    var place := PlaceOf(h, v.segs[i].start, s, at, max);
    DamageCaught(v.segs[i].bytes, other, place, max, q, n);
    Same(v.segs[i].bytes, other, q, n, 0, place);
    IntactBound(v.segs[i].bytes, h, v.segs[i].start, s, at, max);
    DamagedFragment(v, h, i, s, at, other, if q < place + 2 then BadMagic else BadChecksum);
  }

  lemma IntactBound(file: seq<byte>, h: seq<Payload>, a: nat, s: nat, at: nat, max: nat)
    requires Intact(file, h, a, s, at, max)
    ensures PlaceOf(h, a, s, at, max) < |file|
  {
  }

  // The length field is the exception. A damaged length after which the fragment
  // does not decode goes unreported exactly when the frame now seems to run past
  // the end of the last file, with a length within the limit: recovery takes the
  // log for torn there, and every durable record from s on is gone. Everything else
  // is reported at that place.
  lemma LengthDamageLosesRecords(v: Log, h: seq<Payload>, i: nat, s: nat, at: nat, other: seq<byte>, q: nat, n: nat)
    requires Healthy(v, h) && Stands(v, h, i, s, at)
    requires Damaged(v.segs[i].bytes, other, q, n)
    requires var place := PlaceOf(h, v.segs[i].start, s, at, v.opts.maxRecord);
             place + 7 <= q && q + n <= place + 11 <= |other| && DecodeAt(other, place, v.opts.maxRecord).Bad?
    ensures s <= v.durable == |h|
    ensures var w, max := WithBytes(v, i, other), v.opts.maxRecord;
            var place := PlaceOf(h, v.segs[i].start, s, at, max);
            var length := Word(other[place + 7..place + 11]);
            && w.segs[0].start >= 1
            && var r := Recover(Files(w), max);
               && (r.Opened? <==> i == |v.segs| - 1 && length <= max && place + HEADER + length > |other|)
               && (r.Opened? ==> CutBefore(r, Files(w), i, h, s, max))
               && (r.Rejected? ==>
                    r == Rejected(Corruption(v.segs[i].start, place, Undecodable(DecodeAt(other, place, max).error))))
  {
    hide LogBytes, Inv, DecodeAt, Before, FragmentStart, Recover, PlaceOf, Word, Until, RecordBytes, Damaged;
    var max := v.opts.maxRecord;
    var place := PlaceOf(h, v.segs[i].start, s, at, max);
    SegmentHolds(v, h, i);
    GoodOnFile(v, h, i, s, at);
    LengthFate(v.segs[i].bytes, other, place, max, q, n);
    DamagedFragment(v, h, i, s, at, other, DecodeAt(other, place, max).error);
    UntilBound(v, h, i);
  }

  lemma GoodOnFile(v: Log, h: seq<Payload>, i: nat, s: nat, at: nat)
    requires Healthy(v, h) && Stands(v, h, i, s, at)
    ensures var place := PlaceOf(h, v.segs[i].start, s, at, v.opts.maxRecord);
            place < |v.segs[i].bytes| && DecodeAt(v.segs[i].bytes, place, v.opts.maxRecord).Good?
  {
    hide LogBytes, Inv, DecodeAt, Before, FragmentStart, PlaceOf, Until;
    FragmentOnFile(v, h, i, s, at);
    IntactBound(v.segs[i].bytes, h, v.segs[i].start, s, at, v.opts.maxRecord);
  }

  lemma LengthFate(file: seq<byte>, other: seq<byte>, place: nat, max: nat, q: nat, n: nat)
    requires Damaged(file, other, q, n) && place + 7 <= q && q + n <= place + 11 <= |other|
    requires DecodeAt(file, place, max).Good? && DecodeAt(other, place, max).Bad?
    ensures place <= |file| && file[..place] == other[..place]
    ensures var length := Word(other[place + 7..place + 11]);
            DecodeAt(other, place, max) == Bad(EndOfFile) <==> length <= max && place + HEADER + length > |other|
  {
    hide DecodeAt, Word, CrcHolds;
    LengthDamage(file, other, place, max, q, n);
    Same(file, other, q, n, 0, place);
  }

  lemma UntilBound(v: Log, h: seq<Payload>, i: nat)
    requires Healthy(v, h) && i < |v.segs|
    ensures Until(v, i) <= v.nextSeq
  {
    hide LogBytes, IndexSound, Bounded;
    LayoutSegs(v, h);
    if i + 1 < |v.segs| {
      TilingOrder(SegStarts(v.segs), OnFile(v), i + 1, |v.segs| - 1);
    }
  }

  // ----- One such byte -----

  // A log of the one record [7], twenty bytes, and the same with byte 10, the low
  // byte of its length, changed from 1 to 2.
  function OneRecord(): seq<byte> {
    LogBytes([[7]], 1, 2, 1024)
  }

  lemma OneRecordBytes()
    ensures |OneRecord()| == 20 && OneRecord()[7..11] == [0, 0, 0, 1]
    ensures DecodeAt(OneRecord(), 0, 1024).Good?
  {
    hide Checksum.RecordCrc, DecodeAt;
    var r := FragmentAt(1, [7], 1024, 0);
    LogOne([[7]], 1, 1024);
    RecordAsFrames(1, [7], 1024);
    assert FragmentsFrom(1, [7], 1024, 0) == [r];
    assert Frames([r]) == Frame(r) + Frames([r][1..]);
    assert OneRecord() == Frame(r);
    FrameDecodes(OneRecord(), 0, 1024, r);
    LengthOne();
    assert Frame(r)[7..11] == BigEndian(1, 4);
  }

  lemma LengthOne()
    ensures BigEndian(1, 4) == [0, 0, 0, 1]
    ensures Word([0, 0, 0, 2]) == 2
  {
    assert BigEndian(1, 4) == BigEndian(0, 3) + [1];
    assert BigEndian(0, 3) == BigEndian(0, 2) + [0];
    assert BigEndian(0, 2) == BigEndian(0, 1) + [0];
    assert BigEndian(2, 4) == BigEndian(0, 3) + [2] == [0, 0, 0, 2];
    Widths();
    WordOfBigEndian(2, 4);
  }

  // As written the log recovers its record; with the one byte changed recovery
  // succeeds and the log is empty.
  lemma LengthByteLosesRecord()
    ensures |OneRecord()| == 20
    ensures Recover([Image(1, OneRecord())], 1024).Opened? && Recover([Image(1, OneRecord())], 1024).lastSeq == 1
    ensures var r := Recover([Image(1, OneRecord()[10 := 2])], 1024);
            r.Opened? && r.truncated && r.lastSeq == 0 && r.files == [Image(1, [])]
  {
    hide LogBytes, DecodeAt, Word, BigEndian, RecoverFrom;
    OneRecordBytes();
    LengthOne();
    var h: seq<Payload> := [[7]];
    var file := OneRecord();
    var other := file[10 := 2];
    assert other[7..11] == [0, 0, 0, 2];
    assert file[10] == file[7..11][3] == 1;
    OneChanged(file, 10, 2);
    LengthDamage(file, other, 0, 1024, 10, 1);
    LogEmpty(h, 1, 1024);
    FirstBefore(1, h[0], 1024, 0);
    BadFile([Image(1, other)], 0, h, 1, 0, 1024, EndOfFile, Initial(0));
    WholeRecovers(h);
  }

  lemma OneChanged(file: seq<byte>, i: nat, b: byte)
    requires i < |file| && file[i] != b
    ensures Damaged(file, file[i := b], i, 1)
  {
    assert file[i..i + 1][0] != file[i := b][i..i + 1][0];
  }

  lemma WholeRecovers(h: seq<Payload>)
    requires h == [[7]]
    ensures Recover([Image(1, LogBytes(h, 1, 2, 1024))], 1024).Opened?
    ensures Recover([Image(1, LogBytes(h, 1, 2, 1024))], 1024).lastSeq == 1
  {
    hide LogBytes, ScanFrom;
    var end := ScanWhole(h, 1, 2, 1024, 1024, Initial(0));
  }
}
