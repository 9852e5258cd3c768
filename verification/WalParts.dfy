// The objects a log handle is made of: the segment file (segment.go), the
// group-commit buffer (buffer.go) and the sequence index (index.go).
module WalParts {
  import opened Bytes
  import opened Framing
  import opened History
  import opened Recovery
  import opened LogState

  // An open segment file. `file` is the content of the file, `size` the length
  // the handle believes it has, `synced` the length an fsync has confirmed.
  class Segment {
    const start: nat
    var file: seq<byte>
    var size: nat
    var synced: nat

    ghost predicate Valid()
      reads this
    {
      size == |file|
    }

    function Model(): Seg
      reads this
    {
      Seg(start, file, synced)
    }

    // openSegment: the size is read from the file.
    constructor (start: nat, content: seq<byte>)
      ensures Valid() && Model() == Seg(start, content, |content|)
    {
      this.start := start;
      this.file := content;
      this.size := |content|;
      this.synced := |content|;
    }

    // WriteAt at the end of the file gets `wrote` bytes down and may report an
    // error; a short write is one too.
    method Write(data: seq<byte>, wrote: nat, err: bool) returns (ok: bool)
      requires Valid()
      modifies this
      ensures Valid() && synced == old(synced)
      ensures var n := if wrote < |data| then wrote else |data|;
              && file == old(file) + data[..n]
              && (ok <==> data == [] || (!err && n == |data|))
    {
      if |data| == 0 {
        assert file + data[..0] == file;
        return true;
      }
      var n := if wrote < |data| then wrote else |data|;
      file := file[..size] + data[..n];
      size := size + n;
      if err {
        return false;
      }
      return n == |data|;
    }

    method Truncate(length: nat, err: bool) returns (ok: bool)
      requires Valid()
      modifies this
      ensures Valid() && synced == old(synced)
      ensures ok <==> length <= old(size) && !err
      ensures file == if ok then old(file)[..length] else old(file)
    {
      if length > size || err {
        return false;
      }
      file := file[..length];
      size := length;
      return true;
    }

    method Sync(err: bool) returns (ok: bool)
      requires Valid()
      modifies this
      ensures Valid() && file == old(file)
      ensures ok <==> !err
      ensures synced == if ok then |file| else old(synced)
    {
      if err {
        return false;
      }
      synced := size;
      return true;
    }
  }

  class PendingBuffer {
    var data: seq<byte>
    var low: nat
    var high: nat

    constructor ()
      ensures data == [] && low == high == 0
    {
      data, low, high := [], 0, 0;
    }

    // Encodes the fragments behind the buffered bytes. For the fragments of one
    // payload it is all or nothing: on an error the data is unchanged.
    method Append(s: nat, p: Payload, max: nat, parts: seq<Record>) returns (ok: bool)
      requires max >= 1 && parts == Fragments(s, p, max)
      modifies this
      ensures ok <==> Storable(p, max)
      ensures data == if ok then old(data) + RecordBytes(s, p, max) else old(data)
      ensures low == if old(data) == [] then s else old(low)
      ensures high == if ok then s else old(high)
    {
      hide Frame, Frames, FragmentsFrom, Fragments;
      if |data| == 0 {
        low := s;
      }
      StorableParts(s, p, max);
      ghost var was := data;
      for i := 0 to |parts|
        invariant i > 0 ==> Storable(p, max)
        invariant data + Frames(parts[i..]) == was + Frames(parts)
        invariant i == 0 ==> data == was
        invariant low == if was == [] then s else old(low)
        invariant high == old(high)
      {
        NextFrame(data, parts, i);
        var encoded, out := EncodeRecord(data, parts[i]);
        data := out;
        if !encoded {
          assert i == 0;
          return false;
        }
      }
      NoFrames(data, parts[|parts|..]);
      high := s;
      return true;
    }

    function Len(): nat
      reads this
    {
      |data|
    }

    predicate Empty()
      reads this
    {
      |data| == 0
    }

    method Take() returns (taken: seq<byte>, lo: nat, hi: nat)
      modifies this
      ensures taken == old(data) && lo == old(low) && hi == old(high)
      ensures data == [] && low == high == 0
    {
      taken, lo, hi := data, low, high;
      data, low, high := [], 0, 0;
    }

    // Puts taken bytes back in front.
    method ResetWith(taken: seq<byte>, lo: nat, hi: nat)
      modifies this
      ensures data == taken + old(data)
      ensures low == if taken == [] then old(low) else lo
      ensures high == if taken != [] && old(high) == 0 then hi else old(high)
    {
      if |taken| == 0 {
        assert taken + data == data;
        return;
      }
      data := taken + data;
      low := lo;
      if high == 0 {
        high := hi;
      }
    }
  }

  lemma NextFrame(data: seq<byte>, parts: seq<Record>, i: nat)
    requires i < |parts|
    ensures data + Frames(parts[i..]) == data + Frame(parts[i]) + Frames(parts[i + 1..])
  {
    hide Frame;
    assert parts[i..][1..] == parts[i + 1..];
  }

  lemma NoFrames(data: seq<byte>, parts: seq<Record>)
    requires parts == []
    ensures data + Frames(parts) == data
  {
  }

  // Fragments of one payload either all fit the length field, or already the
  // first one does not.
  lemma StorableParts(s: nat, p: Payload, max: nat)
    requires max >= 1
    ensures Fragments(s, p, max) != []
    ensures Storable(p, max) ==> forall i :: 0 <= i < |Fragments(s, p, max)| ==> Encodable(Fragments(s, p, max)[i])
    ensures !Storable(p, max) ==> !Encodable(Fragments(s, p, max)[0])
  {
    FragmentsShape(s, p, max, 0);
    SmallParts(s, p, max, 0);
  }

  lemma {:induction false} SmallParts(s: nat, p: Payload, max: nat, from: nat)
    requires max >= 1 && from <= |p|
    ensures Storable(p, max) ==>
              forall i :: 0 <= i < |FragmentsFrom(s, p, max, from)| ==> Encodable(FragmentsFrom(s, p, max, from)[i])
    decreases |p| - from
  {
    var end := FragmentEnd(p, max, from);
    if end < |p| {
      SmallParts(s, p, max, end);
    }
  }

  class SequenceIndex {
    var entries: map<nat, Location>

    constructor ()
      ensures entries == map[]
    {
      entries := map[];
    }

    method Put(s: nat, loc: Location)
      modifies this
      ensures entries == old(entries)[s := loc]
    {
      entries := entries[s := loc];
    }

    method Get(s: nat) returns (found: Option<Location>)
      ensures found == if s in entries then Some(entries[s]) else None
    {
      if s in entries {
        return Some(entries[s]);
      }
      return None;
    }

    // Deletes every entry below s, one key at a time.
    method RemoveBefore(s: nat)
      modifies this
      ensures forall k :: k in entries <==> k in old(entries) && k >= s
      ensures forall k :: k in entries ==> entries[k] == old(entries)[k]
    {
      var keys := entries.Keys;
      while keys != {}
        invariant keys <= old(entries).Keys
        invariant forall k :: k in entries <==> k in old(entries) && (k >= s || k in keys)
        invariant forall k :: k in entries ==> entries[k] == old(entries)[k]
        decreases |keys|
      {
        var k :| k in keys;
        if k < s {
          entries := entries - {k};
        }
        keys := keys - {k};
      }
    }

    method Reset()
      modifies this
      ensures entries == map[]
    {
      entries := map[];
    }
  }
}
