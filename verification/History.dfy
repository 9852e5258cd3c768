// The bytes of a payload history: payload number s of a history h is h[s - 1],
// and sequences a, ..., b - 1 are laid out back to back. Scanning and reading
// such bytes gives the history back.
module History {
  import opened Bytes
  import opened Framing
  import opened Scan

  type Payload = seq<byte>

  // Every fragment of the payload fits its 32-bit length field.
  predicate Storable(p: Payload, max: nat) {
    |p| < 0x1_0000_0000 || max < 0x1_0000_0000
  }

  ghost predicate Recordable(h: seq<Payload>, max: nat) {
    && max >= 1
    && |h| < 0x1_0000_0000_0000_0000
    && forall i :: 0 <= i < |h| ==> Storable(h[i], max)
  }

  function RecordBytes(s: nat, p: Payload, max: nat): seq<byte>
    requires max >= 1
  {
    Frames(Fragments(s, p, max))
  }

  predicate Range(h: seq<Payload>, a: nat, b: nat) { 1 <= a <= b <= |h| + 1 }

  function LogBytes(h: seq<Payload>, a: nat, b: nat, max: nat): seq<byte>
    requires max >= 1 && Range(h, a, b)
    decreases b - a
  {
    if a == b then [] else RecordBytes(a, h[a - 1], max) + LogBytes(h, a + 1, b, max)
  }

  // Where record s stands in a segment that starts with record a.
  function EntryOf(h: seq<Payload>, a: nat, s: nat, max: nat): Entry
    requires max >= 1 && Range(h, a, s) && s <= |h|
  {
    Entry(s, h[s - 1], a, |LogBytes(h, a, s, max)|, |RecordBytes(s, h[s - 1], max)|)
  }

  function Entries(h: seq<Payload>, a: nat, m: nat, b: nat, max: nat): (out: seq<Entry>)
    requires max >= 1 && Range(h, a, m) && Range(h, m, b)
    ensures |out| == b - m
  {
    seq(b - m, i requires 0 <= i < b - m => EntryOf(h, a, m + i, max))
  }

  // ----- Laying out -----

  lemma {:induction false} LogSplit(h: seq<Payload>, a: nat, m: nat, b: nat, max: nat)
    requires max >= 1 && Range(h, a, m) && Range(h, m, b)
    ensures LogBytes(h, a, b, max) == LogBytes(h, a, m, max) + LogBytes(h, m, b, max)
    decreases m - a
  {
    hide RecordBytes;
    if a == m {
    } else {
      LogSplit(h, a + 1, m, b, max);
    }
  }

  lemma LogOne(h: seq<Payload>, a: nat, max: nat)
    requires max >= 1 && Range(h, a, a + 1)
    ensures LogBytes(h, a, a + 1, max) == RecordBytes(a, h[a - 1], max)
  {
    hide RecordBytes;
    assert LogBytes(h, a + 1, a + 1, max) == [];
  }

  lemma LogNext(h: seq<Payload>, a: nat, b: nat, max: nat)
    requires max >= 1 && Range(h, a, b) && b <= |h|
    ensures LogBytes(h, a, b + 1, max) == LogBytes(h, a, b, max) + RecordBytes(b, h[b - 1], max)
  {
    hide LogBytes, RecordBytes;
    LogSplit(h, a, b, b + 1, max);
    LogOne(h, b, max);
  }

  // Bytes depend only on the payloads they hold.
  lemma {:induction false} LogAgree(h: seq<Payload>, g: seq<Payload>, a: nat, b: nat, max: nat)
    requires max >= 1 && Range(h, a, b) && Range(g, a, b)
    requires h[..b - 1] == g[..b - 1]
    ensures LogBytes(h, a, b, max) == LogBytes(g, a, b, max)
    decreases b - a
  {
    hide RecordBytes;
    if a == b {
    } else {
      assert h[a - 1] == h[..b - 1][a - 1] == g[a - 1];
      LogAgree(h, g, a + 1, b, max);
    }
  }

  lemma RecordSize(s: nat, p: Payload, max: nat)
    requires max >= 1
    ensures |RecordBytes(s, p, max)| >= HEADER
  {
    var parts := Fragments(s, p, max);
    assert Frames(parts) == Frame(parts[0]) + Frames(parts[1..]);
  }

  lemma {:induction false} LogGrows(h: seq<Payload>, a: nat, b: nat, max: nat)
    requires max >= 1 && Range(h, a, b)
    ensures |LogBytes(h, a, b, max)| >= b - a
    decreases b - a
  {
    hide RecordBytes;
    if a == b {
    } else {
      RecordSize(a, h[a - 1], max);
      LogGrows(h, a + 1, b, max);
    }
  }

  // ----- Scanning one record -----

  // The scan state in the middle of a record, before the fragment at `from`.
  function Mid(st: ScanState, s: nat, base: nat, p: Payload, from: nat): ScanState
    requires from <= |p|
  {
    if from == 0 then st else st.(assembling := true, seqNo := s, start := base, data := p[..from])
  }

  predicate Ready(st: ScanState, s: nat) {
    !st.assembling && st.lastSeq + 1 == s
  }

  function Done(st: ScanState, s: nat, base: nat, p: Payload, segment: nat, size: nat): ScanState {
    st.(assembling := false, seqNo := s, start := base, data := [], lastSeq := s,
        out := st.out + [Entry(s, p, segment, base, size)])
  }

  predicate Legible(s: nat, p: Payload, max: nat, limit: nat) {
    1 <= max <= limit && s < 0x1_0000_0000_0000_0000 && Storable(p, max)
  }

  // One fragment in its place is accepted.
  lemma FragmentStep(file: seq<byte>, segment: nat, limit: nat, st: ScanState,
                     s: nat, p: Payload, max: nat, base: nat, offset: nat, from: nat)
    requires Legible(s, p, max, limit) && Ready(st, s)
    requires max >= 1 && from <= |p| && (if from == 0 then offset == base else base < offset)
    requires var f := Frame(FragmentAt(s, p, max, from));
             offset + |f| <= |file| && file[offset..offset + |f|] == f
    ensures var end := FragmentEnd(p, max, from);
            var next := offset + HEADER + end - from;
            Placed(Mid(st, s, base, p, from), offset) &&
            ScanStep(file, segment, limit, offset, Mid(st, s, base, p, from)) ==
            Advance(next, if end == |p| then Done(st, s, base, p, segment, next - base) else Mid(st, s, base, p, end))
  {
    hide DecodeAt, Frame, FragmentAt, IsFirst, IsLast, IsPadding, Accept, Checksum.RecordCrc;
    var r := FragmentAt(s, p, max, from);
    FragmentFields(s, p, max, from);
    FragmentWritable(s, p, max, from, limit);
    FragmentSize(s, p, max, from);
    FrameDecodes(file, offset, limit, r);
    AcceptFragment(segment, st, s, p, max, base, from, Sealed(r), offset + |Frame(r)|);
  }

  lemma AcceptFragment(segment: nat, st: ScanState, s: nat, p: Payload, max: nat, base: nat, from: nat,
                       rec: Record, next: nat)
    requires max >= 1 && from <= |p| && Ready(st, s) && base <= next
    requires var end := FragmentEnd(p, max, from);
             rec.data == p[from..end] && rec.seqNo == s && IsLast(rec.flags) == (end == |p|)
    ensures var end := FragmentEnd(p, max, from);
            Accept(Mid(st, s, base, p, from).(assembling := true, seqNo := s, start := base, data := p[..from]),
                   rec, segment, next)
            == if end == |p| then Done(st, s, base, p, segment, next - base) else Mid(st, s, base, p, end)
  {
    var end := FragmentEnd(p, max, from);
    assert p[..from] + p[from..end] == p[..end];
    if end == |p| {
      assert p[..end] == p;
    }
  }

  lemma FragmentSize(s: nat, p: Payload, max: nat, from: nat)
    requires from <= |p|
    ensures |Frame(FragmentAt(s, p, max, from))| == HEADER + FragmentEnd(p, max, from) - from
  {
  }

  lemma FragmentWritable(s: nat, p: Payload, max: nat, from: nat, limit: nat)
    requires Legible(s, p, max, limit) && from <= |p|
    ensures var r := FragmentAt(s, p, max, from); Writable(r) && |r.data| <= max
  {
  }

  lemma FragmentFields(s: nat, p: Payload, max: nat, from: nat)
    requires from <= |p|
    ensures var r := FragmentAt(s, p, max, from);
            var end := FragmentEnd(p, max, from);
            && r.seqNo == s && r.data == p[from..end]
            && IsFirst(r.flags) == (from == 0)
            && IsLast(r.flags) == (end == |p|)
            && !IsPadding(r.flags)
  {
  }

  lemma {:induction false} ScanFragments(file: seq<byte>, segment: nat, limit: nat, st: ScanState,
                                         s: nat, p: Payload, max: nat, base: nat, offset: nat, from: nat)
    requires Legible(s, p, max, limit) && Ready(st, s)
    requires from <= |p| && (if from == 0 then offset == base else base < offset)
    requires var f := Frames(FragmentsFrom(s, p, max, from));
             offset + |f| <= |file| && file[offset..offset + |f|] == f
    ensures var end := offset + |Frames(FragmentsFrom(s, p, max, from))|;
            && Placed(Mid(st, s, base, p, from), offset)
            && ScanFrom(file, segment, limit, offset, Mid(st, s, base, p, from))
               == ScanFrom(file, segment, limit, end, Done(st, s, base, p, segment, end - base))
    decreases |p| - from
  {
    hide ScanStep, DecodeAt, Frame, FragmentAt, Checksum.RecordCrc;
    var r := FragmentAt(s, p, max, from);
    var end := FragmentEnd(p, max, from);
    var rest := FragmentsFrom(s, p, max, from)[1..];
    var next := offset + |Frame(r)|;
    var f := Frames(FragmentsFrom(s, p, max, from));
    FragmentSize(s, p, max, from);
    assert f == Frame(r) + Frames(rest);
    SubSlice(file, offset, offset + |f|, 0, |Frame(r)|);
    SubSlice(file, offset, offset + |f|, |Frame(r)|, |f|);
    FragmentStep(file, segment, limit, st, s, p, max, base, offset, from);
    if end == |p| {
      assert rest == [];
    } else {
      assert rest == FragmentsFrom(s, p, max, end);
      ScanFragments(file, segment, limit, st, s, p, max, base, next, end);
    }
  }

  // A record the file ends inside of contributes nothing; the scan stops where
  // the record began, also when the cut falls between two of its fragments.
  lemma {:induction false} ScanCutFragments(file: seq<byte>, segment: nat, limit: nat, st: ScanState,
                                            s: nat, p: Payload, max: nat, base: nat, offset: nat, from: nat)
    requires Legible(s, p, max, limit) && Ready(st, s)
    requires from <= |p| && (if from == 0 then offset == base else base < offset)
    requires var f := Frames(FragmentsFrom(s, p, max, from));
             offset <= |file| < offset + |f| && file[offset..] == f[..|file| - offset]
    ensures Placed(Mid(st, s, base, p, from), offset)
    ensures TailFrom(file, segment, limit, offset, Mid(st, s, base, p, from)) == Kept(base, st.lastSeq, st.out)
    decreases |p| - from
  {
    hide DecodeAt, Frame, FragmentAt, ScanFrom, TailFrom;
    var r := FragmentAt(s, p, max, from);
    var end := FragmentEnd(p, max, from);
    var rest := FragmentsFrom(s, p, max, from)[1..];
    var next := offset + |Frame(r)|;
    var f := Frames(FragmentsFrom(s, p, max, from));
    FragmentSize(s, p, max, from);
    FragmentWritable(s, p, max, from, limit);
    assert f == Frame(r) + Frames(rest);
    var mid := Mid(st, s, base, p, from);
    if offset == |file| {
      TailAtEnd(file, segment, limit, mid);
    } else if |file| < next {
      assert file[offset..] == Frame(r)[..|file| - offset];
      CutFrameIsEndOfFile(file, offset, limit, r);
      TailStep(file, segment, limit, offset, mid);
    } else {
      assert file[offset..next] == file[offset..][..|Frame(r)|] == Frame(r);
      FragmentStep(file, segment, limit, st, s, p, max, base, offset, from);
      TailStep(file, segment, limit, offset, mid);
      assert Frames(rest) != [] && rest != [];
      assert rest == FragmentsFrom(s, p, max, end);
      assert file[next..] == file[offset..][|Frame(r)|..];
      ScanCutFragments(file, segment, limit, st, s, p, max, base, next, end);
    }
  }

  // ----- Scanning a stretch of the log -----

  ghost predicate AtRest(st: ScanState, lastSeq: nat, out: seq<Entry>) {
    !st.assembling && st.lastSeq == lastSeq && st.out == out
  }

  // The framing round trip: the scan runs through the whole stretch and has
  // found exactly its records, with their offsets and sizes.
  lemma {:induction false} ScanStretch(file: seq<byte>, limit: nat, st: ScanState, h: seq<Payload>,
                                       a: nat, m: nat, b: nat, max: nat) returns (end: ScanState)
    requires Recordable(h, max) && max <= limit && Range(h, a, m) && Range(h, m, b)
    requires Ready(st, m)
    requires var from, to := |LogBytes(h, a, m, max)|, |LogBytes(h, a, b, max)|;
             from <= to <= |file| && file[from..to] == LogBytes(h, m, b, max)
    ensures AtRest(end, b - 1, st.out + Entries(h, a, m, b, max))
    ensures ScanFrom(file, a, limit, |LogBytes(h, a, m, max)|, st)
         == ScanFrom(file, a, limit, |LogBytes(h, a, b, max)|, end)
    decreases b - m
  {
    hide RecordBytes, ScanFrom;
    if m == b {
      end := st;
    } else {
      var from, to := |LogBytes(h, a, m, max)|, |LogBytes(h, a, b, max)|;
      var p := h[m - 1];
      var n := |RecordBytes(m, p, max)|;
      LogNext(h, a, m, max);
      LogSplit(h, a, m, b, max);
      assert LogBytes(h, m, b, max) == RecordBytes(m, p, max) + LogBytes(h, m + 1, b, max);
      SubSlice(file, from, to, 0, n);
      SubSlice(file, from, to, n, to - from);
      ScanRecord(file, a, limit, st, m, p, max, from);
      var next := Done(st, m, from, p, a, n);
      end := ScanStretch(file, limit, next, h, a, m + 1, b, max);
      assert Entries(h, a, m, b, max) == [EntryOf(h, a, m, max)] + Entries(h, a, m + 1, b, max);
    }
  }

  lemma ScanRecord(file: seq<byte>, segment: nat, limit: nat, st: ScanState, s: nat, p: Payload, max: nat, base: nat)
    requires Legible(s, p, max, limit) && Ready(st, s)
    requires var f := RecordBytes(s, p, max); base + |f| <= |file| && file[base..base + |f|] == f
    ensures var n := |RecordBytes(s, p, max)|;
            ScanFrom(file, segment, limit, base, st)
            == ScanFrom(file, segment, limit, base + n, Done(st, s, base, p, segment, n))
  {
    hide ScanFrom, Frames, FragmentsFrom;
    ScanFragments(file, segment, limit, st, s, p, max, base, base, 0);
  }

  // The first sequence from a on whose record does not fit into k bytes.
  function Fitting(h: seq<Payload>, a: nat, b: nat, max: nat, k: nat): (m: nat)
    requires max >= 1 && Range(h, a, b)
    ensures a <= m <= b
    decreases b - a
  {
    if a == b || |RecordBytes(a, h[a - 1], max)| > k then a
    else Fitting(h, a + 1, b, max, k - |RecordBytes(a, h[a - 1], max)|)
  }

  lemma {:induction false} FittingIsLargest(h: seq<Payload>, a: nat, b: nat, max: nat, k: nat)
    requires max >= 1 && Range(h, a, b)
    ensures var m := Fitting(h, a, b, max, k);
            && |LogBytes(h, a, m, max)| <= k
            && (m < b ==> |LogBytes(h, a, m + 1, max)| > k)
    decreases b - a
  {
    hide RecordBytes;
    if a == b {
    } else if |RecordBytes(a, h[a - 1], max)| > k {
      LogOne(h, a, max);
    } else {
      FittingIsLargest(h, a + 1, b, max, k - |RecordBytes(a, h[a - 1], max)|);
    }
  }

  // A torn tail at every cut point: whatever number of bytes of the last
  // segment survives, recovery accepts it, keeps exactly the records that
  // survived whole and trims the file to the end of the last of them.
  lemma TornTail(h: seq<Payload>, a: nat, b: nat, max: nat, limit: nat, k: nat, st: ScanState)
    requires Recordable(h, max) && max <= limit && Range(h, a, b)
    requires k <= |LogBytes(h, a, b, max)| && Ready(st, a)
    ensures var m := Fitting(h, a, b, max, k);
            TailFrom(LogBytes(h, a, b, max)[..k], a, limit, 0, st)
            == Kept(|LogBytes(h, a, m, max)|, m - 1, st.out + Entries(h, a, a, m, max))
  {
    hide RecordBytes, ScanFrom;
    var file := LogBytes(h, a, b, max)[..k];
    var m := Fitting(h, a, b, max, k);
    FittingIsLargest(h, a, b, max, k);
    LogSplit(h, a, m, b, max);
    var keep := |LogBytes(h, a, m, max)|;
    assert file[0..keep] == LogBytes(h, a, m, max);
    assert LogBytes(h, a, a, max) == [];
    var end := ScanStretch(file, limit, st, h, a, a, m, max);
    if m == b {
      TailAtEnd(file, a, limit, end);
    } else {
      var p := h[m - 1];
      LogNext(h, a, m, max);
      assert LogBytes(h, m, b, max) == RecordBytes(m, p, max) + LogBytes(h, m + 1, b, max);
      assert file[keep..] == RecordBytes(m, p, max)[..k - keep];
      CutRecord(file, a, limit, end, m, p, max, keep);
    }
  }

  lemma CutRecord(file: seq<byte>, segment: nat, limit: nat, st: ScanState, s: nat, p: Payload, max: nat, base: nat)
    requires Legible(s, p, max, limit) && Ready(st, s)
    requires var f := RecordBytes(s, p, max); base <= |file| < base + |f| && file[base..] == f[..|file| - base]
    ensures TailFrom(file, segment, limit, base, st) == Kept(base, st.lastSeq, st.out)
  {
    hide TailFrom, ScanFrom, Frames, FragmentsFrom;
    ScanCutFragments(file, segment, limit, st, s, p, max, base, base, 0);
  }

  // ----- Reading one record back through its index entry -----

  datatype ReadResult = Data(payload: Payload) | Damage(at: nat, why: Reason) | Short

  // The loop of readLocation: fragments from offset on, until one is Last.
  function ReadFrom(file: seq<byte>, max: nat, s: nat, offset: nat, end: nat, first: bool, data: Payload): ReadResult
    decreases end - offset
  {
    if offset >= end then Short
    else
      match DecodeAt(file, offset, max)
      case Bad(error) => Damage(offset, Undecodable(error))
      case Good(rec, next) =>
        if rec.seqNo != s || (first && !IsFirst(rec.flags)) then Damage(offset, UnrelatedFragment)
        else if IsLast(rec.flags) then Data(data + rec.data)
        else ReadFrom(file, max, s, next, end, false, data + rec.data)
  }

  lemma {:induction false} ReadFragments(file: seq<byte>, limit: nat, s: nat, p: Payload, max: nat,
                                         offset: nat, end: nat, from: nat)
    requires Legible(s, p, max, limit) && from <= |p|
    requires var f := Frames(FragmentsFrom(s, p, max, from));
             offset + |f| == end <= |file| && file[offset..end] == f
    ensures ReadFrom(file, limit, s, offset, end, from == 0, p[..from]) == Data(p)
    decreases |p| - from
  {
    hide DecodeAt, Frame, FragmentAt, Flags, IsFirst, IsLast, Checksum.RecordCrc;
    var r := FragmentAt(s, p, max, from);
    var stop := FragmentEnd(p, max, from);
    var rest := FragmentsFrom(s, p, max, from)[1..];
    var f := Frames(FragmentsFrom(s, p, max, from));
    FragmentSize(s, p, max, from);
    FragmentWritable(s, p, max, from, limit);
    FragmentFields(s, p, max, from);
    assert f == Frame(r) + Frames(rest);
    SubSlice(file, offset, end, 0, |Frame(r)|);
    SubSlice(file, offset, end, |Frame(r)|, |f|);
    FrameDecodes(file, offset, limit, r);
    assert p[..from] + p[from..stop] == p[..stop];
    if stop == |p| {
      assert p[..stop] == p;
    } else {
      ReadFragments(file, limit, s, p, max, offset + |Frame(r)|, end, stop);
    }
  }

  lemma ReadRecord(file: seq<byte>, limit: nat, s: nat, p: Payload, max: nat, base: nat)
    requires Legible(s, p, max, limit)
    requires var f := RecordBytes(s, p, max); base + |f| <= |file| && file[base..base + |f|] == f
    ensures ReadFrom(file, limit, s, base, base + |RecordBytes(s, p, max)|, true, []) == Data(p)
  {
    hide ReadFrom, Frames, FragmentsFrom;
    assert p[..0] == [];
    ReadFragments(file, limit, s, p, max, base, base + |RecordBytes(s, p, max)|, 0);
  }
}
