// What the decoder, the recovery scan and the reader may accept, for arbitrary
// bytes: frames that are written as the encoder writes them, put together to
// records in the one way that makes sense, with nothing in between but padding.
module ScanSound {
  import opened Bytes
  import opened Checksum
  import opened Framing
  import opened Scan
  import opened History

  // ----- One frame -----

  // The decoder accepts exactly the frames the encoder writes.
  lemma DecodesIff(file: seq<byte>, offset: nat, max: nat, rec: Record, next: nat)
    ensures DecodeAt(file, offset, max) == Good(rec, next) <==>
              && Writable(rec) && rec == Sealed(rec) && |rec.data| <= max
              && next == offset + |Frame(rec)| <= |file| && file[offset..next] == Frame(rec)
  {
    hide RecordCrc, Header, Word, Frame;
    if DecodeAt(file, offset, max) == Good(rec, next) {
      DecodedIsFrame(file, offset, max);
    }
    if && Writable(rec) && rec == Sealed(rec) && |rec.data| <= max
       && next == offset + |Frame(rec)| <= |file| && file[offset..next] == Frame(rec) {
      FrameDecodes(file, offset, max, rec);
    }
  }

  lemma DecodedIsFrame(file: seq<byte>, offset: nat, max: nat)
    requires DecodeAt(file, offset, max).Good?
    ensures var Good(rec, next) := DecodeAt(file, offset, max);
            && Writable(rec) && rec == Sealed(rec) && |rec.data| <= max
            && next == offset + |Frame(rec)| <= |file| && file[offset..next] == Frame(rec)
  {
    hide RecordCrc, Word, BigEndian;
    var Good(rec, next) := DecodeAt(file, offset, max);
    var h := file[offset..offset + HEADER];
    Widths();
    WordBounded(h[7..11]);
    WordBounded(h[11..19]);
    CanonicalWord(h[..2]);
    CanonicalWord(h[3..7]);
    CanonicalWord(h[7..11]);
    CanonicalWord(h[11..19]);
    assert h == h[..2] + [h[2]] + h[3..7] + h[7..11] + h[11..19];
    assert file[offset..next] == h + rec.data;
  }

  // ----- Records -----

  predicate AllPadding(parts: seq<Record>) {
    forall i :: 0 <= i < |parts| ==> IsPadding(parts[i].flags)
  }

  // The frames that are not padding.
  function Real(parts: seq<Record>): seq<Record> {
    if parts == [] then []
    else
      var n := |parts| - 1;
      Real(parts[..n]) + (if IsPadding(parts[n].flags) then [] else [parts[n]])
  }

  // Fragments of record s from its First one on; the last of them is Last if and
  // only if the record is complete.
  predicate Chain(g: seq<Record>, s: nat, complete: bool) {
    && g != []
    && forall i :: 0 <= i < |g| ==>
         && g[i].seqNo == s
         && IsFirst(g[i].flags) == (i == 0)
         && IsLast(g[i].flags) == (complete && i == |g| - 1)
  }

  // Bytes a, ..., b - 1 are record s, begun or complete, with this payload so far;
  // padding may stand between its fragments.
  ghost predicate Carries(file: seq<byte>, a: nat, b: nat, s: nat, data: seq<byte>, complete: bool) {
    a <= b <= |file| && exists parts :: IsParse(file, a, b, s, data, complete, parts)
  }

  ghost predicate IsParse(file: seq<byte>, a: nat, b: nat, s: nat, data: seq<byte>, complete: bool, parts: seq<Record>)
    requires a <= b <= |file|
  {
    file[a..b] == Frames(parts) && Chain(Real(parts), s, complete) && Joined(Real(parts)) == data
  }

  // Bytes a, ..., b - 1 are padding.
  ghost predicate Idle(file: seq<byte>, a: nat, b: nat) {
    a <= b <= |file| && exists parts :: IsPadded(file, a, b, parts)
  }

  ghost predicate IsPadded(file: seq<byte>, a: nat, b: nat, parts: seq<Record>)
    requires a <= b <= |file|
  {
    file[a..b] == Frames(parts) && AllPadding(parts)
  }

  // Bytes 0, ..., b - 1 are the records out[n..], whole and in order, each at its
  // place, and padding.
  ghost predicate Accounted(file: seq<byte>, out: seq<Entry>, n: nat, b: nat)
    decreases out
  {
    if |out| <= n then Idle(file, 0, b)
    else
      var e := out[|out| - 1];
      var end := e.offset + e.size;
      && end <= b && Idle(file, end, b)
      && Carries(file, e.offset, end, e.seqNo, e.payload, true)
      && Accounted(file, out[..|out| - 1], n, e.offset)
  }

  lemma {:induction false} FramesAppend(parts: seq<Record>, rec: Record)
    ensures Frames(parts + [rec]) == Frames(parts) + Frame(rec)
  {
    hide Frame;
    if parts == [] {
      assert Frames([rec]) == Frame(rec) + Frames([rec][1..]);
    } else {
      FramesAppend(parts[1..], rec);
      assert (parts + [rec])[1..] == parts[1..] + [rec];
    }
  }

  lemma {:induction false} JoinedAppend(parts: seq<Record>, rec: Record)
    ensures Joined(parts + [rec]) == Joined(parts) + rec.data
  {
    if parts == [] {
      assert Joined([rec]) == rec.data + Joined([rec][1..]);
    } else {
      JoinedAppend(parts[1..], rec);
      assert (parts + [rec])[1..] == parts[1..] + [rec];
    }
  }

  lemma RealAppend(parts: seq<Record>, rec: Record)
    ensures Real(parts + [rec]) == Real(parts) + (if IsPadding(rec.flags) then [] else [rec])
  {
    assert (parts + [rec])[..|parts|] == parts;
  }

  // One more frame: of the record, or padding.
  lemma CarriesOn(file: seq<byte>, a: nat, b: nat, s: nat, data: seq<byte>, rec: Record, next: nat)
    requires Carries(file, a, b, s, data, false)
    requires b <= next <= |file| && file[b..next] == Frame(rec)
    requires IsPadding(rec.flags) || (rec.seqNo == s && !IsFirst(rec.flags))
    ensures if IsPadding(rec.flags) then Carries(file, a, next, s, data, false)
            else Carries(file, a, next, s, data + rec.data, IsLast(rec.flags))
  {
    hide Frame, Frames, IsFirst, IsLast, IsPadding;
    var parts :| IsParse(file, a, b, s, data, false, parts);
    var more := parts + [rec];
    FramesAppend(parts, rec);
    RealAppend(parts, rec);
    JoinedAppend(Real(parts), rec);
    assert file[a..next] == file[a..b] + file[b..next];
    if IsPadding(rec.flags) {
      assert Real(more) == Real(parts) + [] == Real(parts);
      assert IsParse(file, a, next, s, data, false, more);
    } else {
      assert IsParse(file, a, next, s, data + rec.data, IsLast(rec.flags), more);
    }
  }

  lemma CarriesFirst(file: seq<byte>, a: nat, rec: Record, next: nat)
    requires a <= next <= |file| && file[a..next] == Frame(rec)
    requires IsFirst(rec.flags) && !IsPadding(rec.flags)
    ensures Carries(file, a, next, rec.seqNo, rec.data, IsLast(rec.flags))
  {
    hide Frame, IsFirst, IsLast, IsPadding;
    assert Frames([rec]) == Frame(rec) + Frames([rec][1..]);
    assert Real([rec]) == Real([rec][..0]) + [rec] == [rec];
    assert Joined([rec]) == rec.data + Joined([rec][1..]);
    assert IsParse(file, a, next, rec.seqNo, rec.data, IsLast(rec.flags), [rec]);
  }

  lemma IdleNone(file: seq<byte>, a: nat)
    requires a <= |file|
    ensures Idle(file, a, a)
  {
    assert IsPadded(file, a, a, []);
  }

  lemma IdleOn(file: seq<byte>, a: nat, b: nat, rec: Record, next: nat)
    requires Idle(file, a, b) && b <= next <= |file| && file[b..next] == Frame(rec) && IsPadding(rec.flags)
    ensures Idle(file, a, next)
  {
    hide Frame, Frames, IsPadding;
    var parts :| IsPadded(file, a, b, parts);
    FramesAppend(parts, rec);
    assert file[a..next] == file[a..b] + file[b..next];
    assert IsPadded(file, a, next, parts + [rec]);
  }

  lemma AccountedIdle(file: seq<byte>, out: seq<Entry>, n: nat, b: nat, rec: Record, next: nat)
    requires Accounted(file, out, n, b) && b <= next <= |file| && file[b..next] == Frame(rec) && IsPadding(rec.flags)
    ensures Accounted(file, out, n, next)
  {
    hide Idle, Carries, Frame, IsPadding;
    if |out| <= n {
      IdleOn(file, 0, b, rec, next);
    } else {
      var e := out[|out| - 1];
      IdleOn(file, e.offset + e.size, b, rec, next);
    }
  }

  lemma AccountedMore(file: seq<byte>, out: seq<Entry>, n: nat, e: Entry)
    requires n <= |out| && Accounted(file, out, n, e.offset)
    requires Carries(file, e.offset, e.offset + e.size, e.seqNo, e.payload, true)
    ensures Accounted(file, out + [e], n, e.offset + e.size)
  {
    hide Idle;
    IdleNone(file, e.offset + e.size);
    assert (out + [e])[..|out|] == out;
  }

  // ----- The scan -----

  // The scan at `offset` has accounted for every byte before it.
  ghost predicate Tracked(file: seq<byte>, n: nat, offset: nat, st: ScanState) {
    && Placed(st, offset) && offset <= |file| && n <= |st.out|
    && Accounted(file, st.out, n, Boundary(st, offset))
    && (st.assembling ==> Carries(file, st.start, offset, st.seqNo, st.data, false))
  }

  lemma StepTracks(file: seq<byte>, segment: nat, max: nat, n: nat, offset: nat, st: ScanState)
    requires Tracked(file, n, offset, st) && ScanStep(file, segment, max, offset, st).Advance?
    ensures var step := ScanStep(file, segment, max, offset, st); Tracked(file, n, step.next, step.st)
  {
    hide DecodeAt, Frame, IsFirst, IsLast, IsPadding, Accounted, Carries;
    DecodedIsFrame(file, offset, max);
    var Good(rec, next) := DecodeAt(file, offset, max);
    var step := ScanStep(file, segment, max, offset, st);
    if IsPadding(rec.flags) {
      if st.assembling {
        CarriesOn(file, st.start, offset, st.seqNo, st.data, rec, next);
      } else {
        AccountedIdle(file, st.out, n, offset, rec, next);
      }
    } else {
      var start := if IsFirst(rec.flags) then offset else st.start;
      var data := if IsFirst(rec.flags) then rec.data else st.data + rec.data;
      if IsFirst(rec.flags) {
        CarriesFirst(file, offset, rec, next);
        assert [] + rec.data == rec.data;
      } else {
        CarriesOn(file, st.start, offset, st.seqNo, st.data, rec, next);
      }
      if IsLast(rec.flags) {
        AccountedMore(file, st.out, n, Entry(rec.seqNo, data, segment, start, next - start));
      }
    }
  }

  lemma {:induction false} ScanTracks(file: seq<byte>, segment: nat, max: nat, n: nat, offset: nat, st: ScanState)
    requires Tracked(file, n, offset, st)
    ensures match ScanFrom(file, segment, max, offset, st)
            case Whole(s) => Tracked(file, n, |file|, s)
            case Torn(s, at) => Tracked(file, n, at, s)
            case Corrupt(_, _) => true
    decreases |file| - offset
  {
    hide ScanStep, Accounted, Carries;
    if offset < |file| {
      var step := ScanStep(file, segment, max, offset, st);
      if step.Advance? {
        StepTracks(file, segment, max, n, offset, st);
        ScanTracks(file, segment, max, n, step.next, step.st);
      }
    }
  }

  // Whatever the bytes of a last segment that recovery accepts, the part it keeps
  // is the records it found there, whole, each at its place and with its payload,
  // and padding. Nothing is skipped, and no record is made up or pieced together
  // from another's fragments.
  lemma KeptIsAccounted(file: seq<byte>, segment: nat, max: nat, st: ScanState)
    requires !st.assembling && TailFrom(file, segment, max, 0, st).Kept?
    ensures var r := TailFrom(file, segment, max, 0, st); Accounted(file, r.out, |st.out|, r.keep)
  {
    hide ScanFrom, Accounted, Carries;
    Begin(file, st);
    ScanTracks(file, segment, max, |st.out|, 0, st);
  }

  lemma Begin(file: seq<byte>, st: ScanState)
    requires !st.assembling
    ensures Tracked(file, |st.out|, 0, st)
  {
    IdleNone(file, 0);
  }

  // And so for all of every other segment.
  lemma WholeIsAccounted(file: seq<byte>, segment: nat, max: nat, st: ScanState)
    requires !st.assembling && ScanFrom(file, segment, max, 0, st).Whole?
    requires !ScanFrom(file, segment, max, 0, st).st.assembling
    ensures Accounted(file, ScanFrom(file, segment, max, 0, st).st.out, |st.out|, |file|)
  {
    hide ScanFrom, Accounted, Carries;
    Begin(file, st);
    ScanTracks(file, segment, max, |st.out|, 0, st);
  }

  // Padding, a frame with bit 2 of its flags set, is passed over wherever it stands.
  lemma PaddingIsSkipped(file: seq<byte>, segment: nat, max: nat, offset: nat, st: ScanState, rec: Record)
    requires Placed(st, offset) && Writable(rec) && |rec.data| <= max && rec.flags % 8 >= 4
    requires offset + |Frame(rec)| <= |file| && file[offset..offset + |Frame(rec)|] == Frame(rec)
    ensures ScanStep(file, segment, max, offset, st) == Advance(offset + |Frame(rec)|, st)
  {
    hide Frame, DecodeAt, IsPadding;
    PaddingBit(rec.flags);
    FrameDecodes(file, offset, max, rec);
  }

  lemma PaddingBit(flags: byte)
    ensures IsPadding(flags) <==> flags % 8 >= 4
  {
  }

  // ----- Reading -----

  // Frames of record s from a First one to the first Last one.
  predicate Readable(g: seq<Record>, s: nat, first: bool) {
    && g != [] && (first ==> IsFirst(g[0].flags))
    && forall i :: 0 <= i < |g| ==> g[i].seqNo == s && IsLast(g[i].flags) == (i == |g| - 1)
  }

  ghost predicate ReadsAs(file: seq<byte>, max: nat, offset: nat, end: nat, g: seq<Record>) {
    && offset + |Frames(g)| <= |file| && file[offset..offset + |Frames(g)|] == Frames(g)
    && g != [] && offset + |Frames(g[..|g| - 1])| < end
    && forall i :: 0 <= i < |g| ==> |g[i].data| <= max
  }

  lemma Cons(rec: Record, rest: seq<Record>)
    ensures Frames([rec] + rest) == Frame(rec) + Frames(rest)
    ensures Joined([rec] + rest) == rec.data + Joined(rest)
  {
    hide Frame;
    assert ([rec] + rest)[1..] == rest;
  }

  lemma ReadsOn(file: seq<byte>, max: nat, offset: nat, end: nat, rec: Record, rest: seq<Record>)
    requires offset + |Frame(rec)| <= |file| && file[offset..offset + |Frame(rec)|] == Frame(rec) && |rec.data| <= max
    requires ReadsAs(file, max, offset + |Frame(rec)|, end, rest)
    ensures ReadsAs(file, max, offset, end, [rec] + rest)
  {
    hide Frame, Frames;
    var g, next := [rec] + rest, offset + |Frame(rec)|;
    Cons(rec, rest);
    Cons(rec, rest[..|rest| - 1]);
    assert g[..|g| - 1] == [rec] + rest[..|rest| - 1];
    assert file[offset..offset + |Frames(g)|] == file[offset..next] + file[next..next + |Frames(rest)|];
  }

  lemma ReadsOne(file: seq<byte>, max: nat, offset: nat, end: nat, rec: Record)
    requires offset + |Frame(rec)| <= |file| && file[offset..offset + |Frame(rec)|] == Frame(rec) && |rec.data| <= max
    requires offset < end
    ensures ReadsAs(file, max, offset, end, [rec]) && Joined([rec]) == rec.data
  {
    hide Frame;
    Cons(rec, []);
    assert [rec] + [] == [rec] && [rec][..0] == [];
    assert Frames([]) == [] && Joined([]) == [];
  }

  lemma ReadableOn(rec: Record, rest: seq<Record>, s: nat, first: bool)
    requires rec.seqNo == s && (first ==> IsFirst(rec.flags))
    requires if rest == [] then IsLast(rec.flags) else !IsLast(rec.flags) && Readable(rest, s, false)
    ensures Readable([rec] + rest, s, first)
  {
    hide IsFirst, IsLast;
    var g := [rec] + rest;
    forall i | 0 <= i < |g| ensures g[i].seqNo == s && IsLast(g[i].flags) == (i == |g| - 1) {
      assert i > 0 ==> g[i] == rest[i - 1];
    }
  }

  // Read returns a payload only if that is what the frames at the place say: all
  // of this record, the first of them First, the last and no other Last.
  lemma {:induction false} ReadIsSound(file: seq<byte>, max: nat, s: nat, offset: nat, end: nat, first: bool,
                                       data: seq<byte>, p: seq<byte>) returns (g: seq<Record>)
    requires ReadFrom(file, max, s, offset, end, first, data) == Data(p)
    ensures Readable(g, s, first) && ReadsAs(file, max, offset, end, g) && p == data + Joined(g)
    decreases end - offset
  {
    hide DecodeAt, Frame, Frames, Joined, IsFirst, IsLast, ReadsAs, Readable, Writable, Sealed;
    DecodedIsFrame(file, offset, max);
    var Good(rec, next) := DecodeAt(file, offset, max);
    if IsLast(rec.flags) {
      g := [rec];
      ReadableOn(rec, [], s, first);
      assert [rec] + [] == [rec];
      ReadsOne(file, max, offset, end, rec);
    } else {
      var rest := ReadIsSound(file, max, s, next, end, false, data + rec.data, p);
      g := [rec] + rest;
      NotNone(rest, s);
      ReadableOn(rec, rest, s, first);
      ReadsOn(file, max, offset, end, rec, rest);
      JoinedOn(data, rec, rest);
    }
  }

  lemma NotNone(g: seq<Record>, s: nat)
    requires Readable(g, s, false)
    ensures g != []
  {
  }

  lemma JoinedOn(data: seq<byte>, rec: Record, rest: seq<Record>)
    ensures data + Joined([rec] + rest) == data + rec.data + Joined(rest)
  {
    Cons(rec, rest);
  }
}
