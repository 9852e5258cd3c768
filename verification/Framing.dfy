// The record frame of internal/wal/record.go: a 19-byte big-endian header
// (magic, flags, CRC, length, sequence) followed by one fragment of a payload.
module Framing {
  import opened Bytes
  import opened Checksum

  const HEADER: nat := 19
  const MAGIC: nat := 0x5741

  datatype Record = Record(flags: byte, crc: nat, seqNo: nat, data: seq<byte>)

  predicate IsFirst(flags: byte) { flags % 2 == 1 }

  predicate IsLast(flags: byte) { flags / 2 % 2 == 1 }

  predicate IsPadding(flags: byte) { flags / 4 % 2 == 1 }

  function Flags(first: bool, last: bool): (flags: byte)
    ensures IsFirst(flags) == first && IsLast(flags) == last && !IsPadding(flags)
  {
    (if first then 1 else 0) + (if last then 2 else 0)
  }

  // ----- Splitting a payload -----

  function FragmentEnd(payload: seq<byte>, max: nat, start: nat): nat {
    if start + max > |payload| then |payload| else start + max
  }

  function FragmentAt(seqNo: nat, payload: seq<byte>, max: nat, start: nat): Record
    requires start <= |payload|
  {
    var end := FragmentEnd(payload, max, start);
    Record(Flags(start == 0, end == |payload|), 0, seqNo, payload[start..end])
  }

  // The fragments that carry payload[start..].
  function FragmentsFrom(seqNo: nat, payload: seq<byte>, max: nat, start: nat): (parts: seq<Record>)
    requires max >= 1 && start <= |payload|
    ensures parts != []
    decreases |payload| - start
  {
    var end := FragmentEnd(payload, max, start);
    [FragmentAt(seqNo, payload, max, start)] +
    (if end == |payload| then [] else FragmentsFrom(seqNo, payload, max, end))
  }

  function Fragments(seqNo: nat, payload: seq<byte>, max: nat): (parts: seq<Record>)
    requires max >= 1
    ensures parts != []
  {
    FragmentsFrom(seqNo, payload, max, 0)
  }

  method SplitPayload(seqNo: nat, payload: seq<byte>, max: nat) returns (parts: seq<Record>)
    requires max >= 1
    ensures parts == Fragments(seqNo, payload, max)
  {
    hide Flags, IsFirst, IsLast, IsPadding;
    if |payload| == 0 {
      return [Record(Flags(true, true), 0, seqNo, [])];
    }
    parts := [];
    var start := 0;
    while start < |payload|
      invariant 0 <= start <= |payload|
      invariant parts + Remaining(seqNo, payload, max, start) == Fragments(seqNo, payload, max)
    {
      var end := start + max;
      if end > |payload| {
        end := |payload|;
      }
      var part := Record(Flags(start == 0, end == |payload|), 0, seqNo, payload[start..end]);
      NextFragment(seqNo, payload, max, start, parts);
      parts := parts + [part];
      start := end;
    }
  }

  function Remaining(seqNo: nat, payload: seq<byte>, max: nat, start: nat): seq<Record>
    requires max >= 1 && start <= |payload|
  {
    if start == |payload| then [] else FragmentsFrom(seqNo, payload, max, start)
  }

  lemma NextFragment(seqNo: nat, payload: seq<byte>, max: nat, start: nat, parts: seq<Record>)
    requires max >= 1 && start < |payload|
    ensures var end := FragmentEnd(payload, max, start);
            parts + Remaining(seqNo, payload, max, start)
            == parts + [FragmentAt(seqNo, payload, max, start)] + Remaining(seqNo, payload, max, end)
  {
    hide Flags;
  }

  function Joined(parts: seq<Record>): seq<byte> {
    if parts == [] then [] else parts[0].data + Joined(parts[1..])
  }

  ghost predicate Shape(part: Record, seqNo: nat, max: nat, first: bool, last: bool) {
    && part.seqNo == seqNo
    && IsFirst(part.flags) == first
    && IsLast(part.flags) == last
    && !IsPadding(part.flags)
    && |part.data| <= max
    && (last || |part.data| == max)
  }

  // Exactly one First and one Last fragment, at the two ends, every fragment
  // but the last one full, and together they are the payload.
  lemma {:induction false} FragmentsShape(seqNo: nat, payload: seq<byte>, max: nat, start: nat)
    requires max >= 1 && start <= |payload|
    ensures var parts := FragmentsFrom(seqNo, payload, max, start);
            && (forall i :: 0 <= i < |parts| ==>
                 Shape(parts[i], seqNo, max, i == 0 && start == 0, i == |parts| - 1))
            && Joined(parts) == payload[start..]
    decreases |payload| - start
  {
    hide Flags, IsFirst, IsLast, IsPadding;
    var parts := FragmentsFrom(seqNo, payload, max, start);
    var end := FragmentEnd(payload, max, start);
    assert parts[0] == FragmentAt(seqNo, payload, max, start);
    if end == |payload| {
      assert Joined(parts) == parts[0].data + Joined([]);
    } else {
      FragmentsShape(seqNo, payload, max, end);
      var rest := FragmentsFrom(seqNo, payload, max, end);
      assert parts[1..] == rest;
      forall i | 0 < i < |parts|
        ensures Shape(parts[i], seqNo, max, i == 0 && start == 0, i == |parts| - 1)
      {
        assert parts[i] == rest[i - 1];
      }
      assert payload[start..] == payload[start..end] + payload[end..];
    }
  }

  // ----- Encoding -----

  function Header(flags: byte, crc: nat, length: nat, seqNo: nat): (h: seq<byte>)
    ensures |h| == HEADER
  {
    BigEndian(MAGIC, 2) + [flags] + BigEndian(crc, 4) + BigEndian(length, 4) + BigEndian(seqNo, 8)
  }

  function Frame(r: Record): (s: seq<byte>)
    ensures |s| == HEADER + |r.data|
  {
    Header(r.flags, RecordCrc(r.flags, |r.data|, r.seqNo, r.data), |r.data|, r.seqNo) + r.data
  }

  function Frames(parts: seq<Record>): seq<byte> {
    if parts == [] then [] else Frame(parts[0]) + Frames(parts[1..])
  }

  method EncodedSize(parts: seq<Record>) returns (n: nat)
    ensures n == |Frames(parts)|
  {
    n := 0;
    for i := 0 to |parts|
      invariant n + |Frames(parts[i..])| == |Frames(parts)|
    {
      assert parts[i..][1..] == parts[i + 1..];
      n := n + HEADER + |parts[i].data|;
    }
  }

  predicate Encodable(r: Record) { |r.data| < 0x1_0000_0000 }

  // Appends one frame to a buffer, or leaves the buffer alone when the
  // fragment does not fit its 32-bit length field.
  method EncodeRecord(dst: seq<byte>, r: Record) returns (ok: bool, out: seq<byte>)
    ensures ok <==> Encodable(r)
    ensures out == if ok then dst + Frame(r) else dst
  {
    if |r.data| > 0xFFFF_FFFF {
      return false, dst;
    }
    var crc := RecordChecksum(r.flags, |r.data|, r.seqNo, r.data);
    var header := PutHeader(r.flags, crc, |r.data|, r.seqNo);
    return true, dst + header[..] + r.data;
  }

  method PutHeader(flags: byte, crc: nat, length: nat, seqNo: nat) returns (h: array<byte>)
    ensures h[..] == Header(flags, crc, length, seqNo)
  {
    hide BigEndian;
    h := new byte[19];
    PutBigEndian(h, 0, MAGIC, 2);
    h[2] := flags;
    ghost var start := h[..3];
    PutBigEndian(h, 3, crc, 4);
    ghost var mid := h[..7];
    assert mid == start + h[3..7];
    PutBigEndian(h, 7, length, 4);
    ghost var most := h[..11];
    assert most == mid + h[7..11];
    PutBigEndian(h, 11, seqNo, 8);
    assert h[..] == most + h[11..19];
  }

  // ----- Decoding -----

  datatype DecodeError = EndOfFile | BadMagic | TooLong | BadChecksum

  datatype Decoded = Good(rec: Record, next: nat) | Bad(error: DecodeError)

  // Reading past the end of the file reports EndOfFile, whatever is wrong with
  // the bytes that are there; nothing else does.
  function DecodeAt(file: seq<byte>, offset: nat, max: nat): (d: Decoded)
    ensures d.Good? ==> offset + HEADER <= d.next <= |file| && d.next == offset + HEADER + |d.rec.data|
  {
    if |file| < offset + HEADER then Bad(EndOfFile)
    else
      var h := file[offset..offset + HEADER];
      if Word(h[..2]) != MAGIC then Bad(BadMagic)
      else
        var length := Word(h[7..11]);
        if length > max then Bad(TooLong)
        else if |file| < offset + HEADER + length then Bad(EndOfFile)
        else
          var next := offset + HEADER + length;
          var rec := Record(h[2], Word(h[3..7]), Word(h[11..19]), file[offset + HEADER..next]);
          if rec.crc != RecordCrc(rec.flags, length, rec.seqNo, rec.data) then Bad(BadChecksum)
          else Good(rec, next)
  }

  predicate Writable(r: Record) {
    Encodable(r) && r.seqNo < 0x1_0000_0000_0000_0000
  }

  // The record as the decoder hands it back: with its checksum filled in.
  function Sealed(r: Record): Record {
    r.(crc := RecordCrc(r.flags, |r.data|, r.seqNo, r.data))
  }

  lemma HeaderFields(flags: byte, crc: nat, length: nat, seqNo: nat)
    requires crc < 0x1_0000_0000 && length < 0x1_0000_0000 && seqNo < 0x1_0000_0000_0000_0000
    ensures var h := Header(flags, crc, length, seqNo);
            && Word(h[..2]) == MAGIC
            && h[2] == flags
            && Word(h[3..7]) == crc
            && Word(h[7..11]) == length
            && Word(h[11..19]) == seqNo
  {
    hide BigEndian, Word;
    var h := Header(flags, crc, length, seqNo);
    Widths();
    WordOfBigEndian(MAGIC, 2);
    WordOfBigEndian(crc, 4);
    WordOfBigEndian(length, 4);
    WordOfBigEndian(seqNo, 8);
    assert h[..2] == BigEndian(MAGIC, 2);
    assert h[3..7] == BigEndian(crc, 4);
    assert h[7..11] == BigEndian(length, 4);
    assert h[11..] == BigEndian(seqNo, 8);
    assert h[11..19] == h[11..];
  }

  // What is decoded where the frame of r stands: r itself, if the reader's
  // limit allows it.
  lemma FrameDecodes(file: seq<byte>, offset: nat, max: nat, r: Record)
    requires Writable(r) && |r.data| <= max
    requires offset + |Frame(r)| <= |file|
    requires file[offset..offset + |Frame(r)|] == Frame(r)
    ensures DecodeAt(file, offset, max) == Good(Sealed(r), offset + |Frame(r)|)
  {
    hide RecordCrc, Header, Word;
    var crc := RecordCrc(r.flags, |r.data|, r.seqNo, r.data);
    CrcBounded(r);
    HeaderFields(r.flags, crc, |r.data|, r.seqNo);
    var h := Header(r.flags, crc, |r.data|, r.seqNo);
    var end := offset + |Frame(r)|;
    assert file[offset..end][..HEADER] == file[offset..offset + HEADER] == h;
    assert file[offset..end][HEADER..] == file[offset + HEADER..end] == r.data;
  }

  // A frame that the file ends inside of is an early end, never bad bytes.
  lemma CutFrameIsEndOfFile(file: seq<byte>, offset: nat, max: nat, r: Record)
    requires Writable(r) && |r.data| <= max
    requires offset <= |file| < offset + |Frame(r)|
    requires file[offset..] == Frame(r)[..|file| - offset]
    ensures DecodeAt(file, offset, max) == Bad(EndOfFile)
  {
    hide RecordCrc, Header, Word;
    if |file| >= offset + HEADER {
      var crc := RecordCrc(r.flags, |r.data|, r.seqNo, r.data);
      CrcBounded(r);
      HeaderFields(r.flags, crc, |r.data|, r.seqNo);
      assert file[offset..offset + HEADER] == file[offset..][..HEADER] == Header(r.flags, crc, |r.data|, r.seqNo);
    }
  }

  lemma CrcBounded(r: Record)
    ensures RecordCrc(r.flags, |r.data|, r.seqNo, r.data) < 0x1_0000_0000
  {
    HashBounded(0, Covered(r.flags, |r.data|, r.seqNo, r.data));
  }

  // Cutting a file: what decoded well inside the cut still does, and what no
  // longer fits, or never did, is an early end.
  lemma DecodeCut(file: seq<byte>, k: nat, offset: nat, max: nat)
    requires offset <= k <= |file|
    ensures var d, c := DecodeAt(file, offset, max), DecodeAt(file[..k], offset, max);
            && (d.Good? && d.next <= k ==> c == d)
            && (d.Good? && d.next > k ==> c == Bad(EndOfFile))
            && (d == Bad(EndOfFile) ==> c == Bad(EndOfFile))
  {
    hide RecordCrc, Word;
    if offset + HEADER <= k {
      assert file[..k][offset..offset + HEADER] == file[offset..offset + HEADER];
      var length := Word(file[offset..offset + HEADER][7..11]);
      if offset + HEADER + length <= k {
        assert file[..k][offset + HEADER..offset + HEADER + length] == file[offset + HEADER..offset + HEADER + length];
      }
    }
  }

  // ----- Damage -----

  // The checksum test, read straight off the file: the stored word against the
  // flags byte and everything from the length field on.
  ghost predicate CrcHolds(file: seq<byte>, offset: nat, next: nat)
    requires offset + HEADER <= next <= |file|
  {
    Word(file[offset + 3..offset + 7]) == Crc32c([file[offset + 2]] + file[offset + 7..next])
  }

  lemma DecodeByCrc(file: seq<byte>, offset: nat, max: nat, next: nat)
    requires offset + HEADER <= next <= |file|
    requires Word(file[offset..offset + 2]) == MAGIC
    requires Word(file[offset + 7..offset + 11]) == next - offset - HEADER <= max
    ensures DecodeAt(file, offset, max).Good? <==> CrcHolds(file, offset, next)
    ensures !CrcHolds(file, offset, next) ==> DecodeAt(file, offset, max) == Bad(BadChecksum)
  {
    hide Word, BigEndian, Crc32c, Covered;
    var length := next - offset - HEADER;
    HeaderSlices(file, offset);
    var l, s := file[offset + 7..offset + 11], file[offset + 11..offset + 19];
    CanonicalWord(l);
    CanonicalWord(s);
    CoveredParts(file[offset + 2], length, Word(s), file[offset + HEADER..next]);
    assert file[offset + 7..next] == l + s + file[offset + HEADER..next];
    assert [file[offset + 2]] + file[offset + 7..next]
        == [file[offset + 2]] + l + s + file[offset + HEADER..next];
  }

  lemma CanonicalWord(s: seq<byte>)
    ensures BigEndian(Word(s), |s|) == s
  {
    WordBounded(s);
    WordOfBigEndian(Word(s), |s|);
    WordInjective(BigEndian(Word(s), |s|), s);
  }

  lemma CoveredParts(flags: byte, length: nat, seqNo: nat, payload: seq<byte>)
    ensures Covered(flags, length, seqNo, payload) == [flags] + BigEndian(length, 4) + BigEndian(seqNo, 8) + payload
  {
  }

  // `other` is `file` with up to four consecutive bytes changed, at p.
  ghost predicate Damaged(file: seq<byte>, other: seq<byte>, p: nat, n: nat) {
    && 1 <= n <= 4
    && p + n <= |file| == |other|
    && file[..p] == other[..p]
    && file[p + n..] == other[p + n..]
    && file[p..p + n] != other[p..p + n]
  }

  // A window inside one of: magic, flags, checksum, sequence and payload. Only
  // the length field is excluded: it decides which bytes are looked at.
  ghost predicate InsideOneField(offset: nat, next: nat, p: nat, n: nat) {
    || offset <= p < p + n <= offset + 2
    || (p == offset + 2 && n == 1)
    || offset + 3 <= p < p + n <= offset + 7
    || offset + 11 <= p < p + n <= next
  }

  lemma GoodParts(file: seq<byte>, offset: nat, max: nat)
    requires DecodeAt(file, offset, max).Good?
    ensures var next := DecodeAt(file, offset, max).next;
            && Word(file[offset..offset + 2]) == MAGIC
            && Word(file[offset + 7..offset + 11]) == next - offset - HEADER <= max
            && CrcHolds(file, offset, next)
  {
    HeaderSlices(file, offset);
    DecodeByCrc(file, offset, max, DecodeAt(file, offset, max).next);
  }

  lemma DamagedMagic(file: seq<byte>, other: seq<byte>, offset: nat, max: nat, p: nat, n: nat)
    requires DecodeAt(file, offset, max).Good?
    requires Damaged(file, other, p, n)
    requires offset <= p < p + n <= offset + 2
    ensures DecodeAt(other, offset, max) == Bad(BadMagic)
  {
    hide Word, Crc32c;
    GoodParts(file, offset, max);
    HeaderSlices(other, offset);
    Restrict(file, other, p, n, offset, offset + 2);
    MagicOnce(file[offset..offset + 2], other[offset..offset + 2]);
  }

  lemma DamagedCrc(file: seq<byte>, other: seq<byte>, offset: nat, next: nat, p: nat, n: nat)
    requires offset + HEADER <= next <= |file| && CrcHolds(file, offset, next)
    requires Damaged(file, other, p, n)
    requires offset + 3 <= p < p + n <= offset + 7
    ensures !CrcHolds(other, offset, next)
  {
    hide Word, Crc32c;
    Restrict(file, other, p, n, offset + 3, offset + 7);
    Same(file, other, p, n, offset + 2, offset + 3);
    Same(file, other, p, n, offset + 7, next);
    assert file[offset + 2] == file[offset + 2..offset + 3][0] == other[offset + 2..offset + 3][0] == other[offset + 2];
    if CrcHolds(other, offset, next) {
      WordInjective(file[offset + 3..offset + 7], other[offset + 3..offset + 7]);
    }
  }

  lemma DamagedFlags(file: seq<byte>, other: seq<byte>, offset: nat, next: nat, p: nat)
    requires offset + HEADER <= next <= |file| && CrcHolds(file, offset, next)
    requires Damaged(file, other, p, 1)
    requires p == offset + 2
    ensures !CrcHolds(other, offset, next)
  {
    hide Word, Crc32c;
    Same(file, other, p, 1, offset + 3, offset + 7);
    Same(file, other, p, 1, offset + 7, next);
    var f, o, post := [file[p]], [other[p]], file[offset + 7..next];
    assert file[p..p + 1] == f && other[p..p + 1] == o;
    BurstDetected([], f, o, post);
    assert [] + f == f && [] + o == o;
  }

  lemma DamagedBody(file: seq<byte>, other: seq<byte>, offset: nat, next: nat, p: nat, n: nat)
    requires offset + HEADER <= next <= |file| && CrcHolds(file, offset, next)
    requires Damaged(file, other, p, n)
    requires offset + 11 <= p < p + n <= next
    ensures !CrcHolds(other, offset, next)
  {
    hide Word, Crc32c;
    Same(file, other, p, n, offset + 2, offset + 3);
    assert file[offset + 2] == file[offset + 2..offset + 3][0] == other[offset + 2..offset + 3][0] == other[offset + 2];
    Same(file, other, p, n, offset + 3, offset + 7);
    Same(file, other, p, n, offset + 7, p);
    Same(file, other, p, n, p + n, next);
    var pre, post := [file[offset + 2]] + file[offset + 7..p], file[p + n..next];
    BurstDetected(pre, file[p..p + n], other[p..p + n], post);
    Splice(file, offset, next, p, n);
    Splice(other, offset, next, p, n);
  }

  lemma Splice(file: seq<byte>, offset: nat, next: nat, p: nat, n: nat)
    requires offset + 11 <= p < p + n <= next <= |file|
    ensures [file[offset + 2]] + file[offset + 7..next]
         == [file[offset + 2]] + file[offset + 7..p] + file[p..p + n] + file[p + n..next]
  {
    assert file[offset + 7..next] == file[offset + 7..p] + file[p..p + n] + file[p + n..next];
  }

  // Every such damage to a frame that decodes, in any file, is noticed, and
  // never mistaken for a file that ended early.
  lemma DamageCaught(file: seq<byte>, other: seq<byte>, offset: nat, max: nat, p: nat, n: nat)
    requires DecodeAt(file, offset, max).Good?
    requires Damaged(file, other, p, n)
    requires InsideOneField(offset, DecodeAt(file, offset, max).next, p, n)
    ensures DecodeAt(other, offset, max) == Bad(if p < offset + 2 then BadMagic else BadChecksum)
  {
    hide Word, CrcHolds;
    var next := DecodeAt(file, offset, max).next;
    if p < offset + 2 {
      DamagedMagic(file, other, offset, max, p, n);
    } else {
      GoodParts(file, offset, max);
      Same(file, other, p, n, offset, offset + 2);
      Same(file, other, p, n, offset + 7, offset + 11);
      if p == offset + 2 {
        DamagedFlags(file, other, offset, next, p);
      } else if p < offset + 7 {
        DamagedCrc(file, other, offset, next, p, n);
      } else {
        DamagedBody(file, other, offset, next, p, n);
      }
      DecodeByCrc(other, offset, max, next);
    }
  }

  // The length field is the exception: it decides where the frame ends, so a
  // frame that now seems to run past the end of the file is taken for a file
  // that ended early, and otherwise only the checksum of the other stretch of
  // bytes can tell. This is everything that can happen.
  lemma LengthDamage(file: seq<byte>, other: seq<byte>, offset: nat, max: nat, p: nat, n: nat)
    requires DecodeAt(file, offset, max).Good?
    requires Damaged(file, other, p, n)
    requires offset + 7 <= p < p + n <= offset + 11
    ensures var length := Word(other[offset + 7..offset + 11]);
            var next := offset + HEADER + length;
            && next != DecodeAt(file, offset, max).next
            && (DecodeAt(other, offset, max) == Bad(TooLong) <==> length > max)
            && (DecodeAt(other, offset, max) == Bad(EndOfFile) <==> length <= max && next > |other|)
            && (DecodeAt(other, offset, max).Good?
                <==> length <= max && next <= |other| && CrcHolds(other, offset, next))
  {
    hide CrcHolds, RecordCrc, Word;
    GoodParts(file, offset, max);
    Same(file, other, p, n, offset, offset + 2);
    Restrict(file, other, p, n, offset + 7, offset + 11);
    if Word(other[offset + 7..offset + 11]) == Word(file[offset + 7..offset + 11]) {
      WordInjective(file[offset + 7..offset + 11], other[offset + 7..offset + 11]);
    }
    HeaderSlices(other, offset);
    var length := Word(other[offset + 7..offset + 11]);
    if length <= max && offset + HEADER + length <= |other| {
      DecodeByCrc(other, offset, max, offset + HEADER + length);
    }
  }

  lemma HeaderSlices(file: seq<byte>, offset: nat)
    requires offset + HEADER <= |file|
    ensures var h := file[offset..offset + HEADER];
            && h[..2] == file[offset..offset + 2]
            && h[2] == file[offset + 2]
            && h[3..7] == file[offset + 3..offset + 7]
            && h[7..11] == file[offset + 7..offset + 11]
            && h[11..19] == file[offset + 11..offset + 19]
  {
  }

  // Outside the damaged window the files agree...
  lemma Same(file: seq<byte>, other: seq<byte>, p: nat, n: nat, a: nat, b: nat)
    requires Damaged(file, other, p, n)
    requires a <= b <= p || p + n <= a <= b <= |file|
    ensures file[a..b] == other[a..b]
  {
    if b <= p {
      SubSlice(file, 0, p, a, b);
      SubSlice(other, 0, p, a, b);
      assert file[0..p] == file[..p] == other[..p] == other[0..p];
    } else {
      var q := p + n;
      SubSlice(file, q, |file|, a - q, b - q);
      SubSlice(other, q, |file|, a - q, b - q);
      assert file[q..|file|] == file[q..] == other[q..] == other[q..|file|];
    }
  }

  // ...and around it they do not.
  lemma Restrict(file: seq<byte>, other: seq<byte>, p: nat, n: nat, a: nat, b: nat)
    requires Damaged(file, other, p, n)
    requires a <= p && p + n <= b <= |file|
    ensures file[a..b] != other[a..b]
  {
    if file[a..b] == other[a..b] {
      SubSlice(file, a, b, p - a, p + n - a);
      SubSlice(other, a, b, p - a, p + n - a);
    }
  }

  lemma MagicOnce(s: seq<byte>, t: seq<byte>)
    requires |s| == |t| == 2 && s != t && Word(s) == MAGIC
    ensures Word(t) != MAGIC
  {
    if Word(t) == MAGIC {
      WordInjective(s, t);
    }
  }
}
