// Store commands (internal/store/state.go) and the snapshot file
// (internal/store/snapshot.go). JSON itself is a parameter.
module Snapshots {
  import opened Bytes
  import opened Checksum
  import opened Framing

  type Key = seq<byte>
  type Value = seq<byte>

  datatype Op = OpSet | OpDelete | OpOther

  // The three JSON fields of a command.
  datatype Raw = Raw(op: Op, key: Key, value: Value)

  datatype Body = Body(applied: nat, values: map<Key, Value>)

  // What the store uses of encoding/json. Rendering replaces bytes of a key that
  // are not valid UTF-8, so parsing gives back the normal form of the key.
  datatype Json = Json(
    render: Raw -> seq<byte>,
    parse: seq<byte> -> Option<Raw>,
    normal: Key -> Key,
    renderBody: Body -> seq<byte>,
    parseBody: seq<byte> -> Option<Body>)

  ghost predicate Canonical(json: Json, values: map<Key, Value>) {
    forall k :: k in values ==> json.normal(k) == k
  }

  // The laws of encoding/json the store relies on.
  ghost predicate Lawful(json: Json) {
    && (forall raw: Raw ::
         raw.op != OpOther && raw.key != [] ==>
           && json.normal(raw.key) != []
           && json.parse(json.render(raw)) == Some(raw.(key := json.normal(raw.key))))
    && (forall p: seq<byte> :: json.parse(p).Some? ==> json.normal(json.parse(p).value.key) == json.parse(p).value.key)
    && (forall body: Body ::
         Canonical(json, body.values) ==> json.parseBody(json.renderBody(body)) == Some(body))
  }

  datatype Command = Set(key: Key, value: Value) | Delete(key: Key)

  // encodeCommand refuses the empty key.
  function EncodeCommand(json: Json, op: Op, key: Key, value: Value): Option<seq<byte>> {
    if key == [] then None else Some(json.render(Raw(op, key, value)))
  }

  function DecodeCommand(json: Json, payload: seq<byte>): Option<Command> {
    match json.parse(payload)
    case None => None
    case Some(raw) =>
      if raw.key == [] then None
      else match raw.op
           case OpSet => Some(Set(raw.key, raw.value))
           case OpDelete => Some(Delete(raw.key))
           case OpOther => None
  }

  lemma CommandRoundTrip(json: Json, op: Op, key: Key, value: Value)
    requires Lawful(json) && op != OpOther
    ensures var p := EncodeCommand(json, op, key, value);
            && (p.None? <==> key == [])
            && (p.Some? ==>
                 DecodeCommand(json, p.value)
                 == Some(if op == OpSet then Set(json.normal(key), value) else Delete(json.normal(key))))
  {
    var raw := Raw(op, key, value);
    if key != [] {
      assert json.parse(json.render(raw)) == Some(raw.(key := json.normal(key)));
    }
  }

  // What decodeCommand accepts: a Set or Delete of a key that is not empty, and
  // nothing else.
  lemma CommandsAccepted(json: Json, p: seq<byte>, key: Key, value: Value)
    ensures DecodeCommand(json, p) == Some(Set(key, value)) <==>
              json.parse(p) == Some(Raw(OpSet, key, value)) && key != []
    ensures DecodeCommand(json, p) == Some(Delete(key)) <==>
              && json.parse(p).Some? && json.parse(p).value.op == OpDelete
              && json.parse(p).value.key == key && key != []
    ensures DecodeCommand(json, p) == None <==>
              json.parse(p) == None || json.parse(p).value.key == [] || json.parse(p).value.op == OpOther
  {
  }

  // ----- The snapshot file -----

  function MagicBytes(): seq<byte> { [0x57, 0x53, 0x4E, 0x50] }

  function SnapshotFrame(payload: seq<byte>): (data: seq<byte>)
    ensures |data| == 12 + |payload|
  {
    MagicBytes() + BigEndian(|payload|, 4) + BigEndian(Crc32c(payload), 4) + payload
  }

  datatype SnapshotError = BadHeader | BadLength | BadSnapshotChecksum | BadBody

  datatype FrameResult = FrameOk(payload: seq<byte>) | FrameBad(error: SnapshotError)

  function ReadFrame(data: seq<byte>): FrameResult {
    if |data| < 12 || data[..4] != MagicBytes() then FrameBad(BadHeader)
    else if Word(data[4..8]) != |data| - 12 then FrameBad(BadLength)
    else if Word(data[8..12]) != Crc32c(data[12..]) then FrameBad(BadSnapshotChecksum)
    else FrameOk(data[12..])
  }

  datatype SnapshotResult = Loaded(body: Body) | Invalid(error: SnapshotError)

  function ReadSnapshot(json: Json, data: seq<byte>): SnapshotResult {
    match ReadFrame(data)
    case FrameBad(e) => Invalid(e)
    case FrameOk(payload) =>
      match json.parseBody(payload)
      case None => Invalid(BadBody)
      case Some(body) => Loaded(body)
  }

  lemma FrameRoundTrip(payload: seq<byte>)
    requires |payload| < 0x1_0000_0000
    ensures ReadFrame(SnapshotFrame(payload)) == FrameOk(payload)
  {
    hide BigEndian, Word, Crc32c;
    var data := SnapshotFrame(payload);
    Widths();
    HashBounded(0, payload);
    CrcIsHash(payload);
    WordOfBigEndian(|payload|, 4);
    WordOfBigEndian(Crc32c(payload), 4);
    assert data[..4] == MagicBytes();
    assert data[4..8] == BigEndian(|payload|, 4);
    assert data[8..12] == BigEndian(Crc32c(payload), 4);
    assert data[12..] == payload;
  }

  // Nothing else is accepted: exactly the frames that are written.
  lemma FrameIff(data: seq<byte>, payload: seq<byte>)
    ensures ReadFrame(data) == FrameOk(payload) <==> |payload| < 0x1_0000_0000 && data == SnapshotFrame(payload)
  {
    hide Crc32c, Word, BigEndian;
    if |payload| < 0x1_0000_0000 && data == SnapshotFrame(payload) {
      FrameRoundTrip(payload);
    }
    if ReadFrame(data) == FrameOk(payload) {
      Widths();
      WordBounded(data[4..8]);
      CanonicalWord(data[4..8]);
      CanonicalWord(data[8..12]);
      assert data == data[..4] + data[4..8] + data[8..12] + data[12..];
    }
  }

  lemma CrcIsHash(s: seq<byte>)
    ensures Crc32c(s) == Hash(0, s)
  {
  }

  lemma SnapshotRoundTrip(json: Json, body: Body)
    requires Lawful(json) && Canonical(json, body.values)
    requires |json.renderBody(body)| < 0x1_0000_0000
    ensures ReadSnapshot(json, SnapshotFrame(json.renderBody(body))) == Loaded(body)
  {
    FrameRoundTrip(json.renderBody(body));
  }

  // A snapshot that was only partly written is never taken for a snapshot.
  lemma TruncatedSnapshotRejected(data: seq<byte>, k: nat)
    requires ReadFrame(data).FrameOk? && k < |data|
    ensures ReadFrame(data[..k]).FrameBad?
  {
    hide Word, Crc32c;
    if k >= 12 {
      assert data[..k][4..8] == data[4..8];
    }
  }

  // Neither is one with any single byte changed, nor one whose body was damaged
  // in up to four consecutive bytes.
  lemma DamagedSnapshotRejected(data: seq<byte>, other: seq<byte>, p: nat, n: nat)
    requires ReadFrame(data).FrameOk?
    requires 1 <= n <= 4 && p + n <= |data| == |other|
    requires n == 1 || p >= 12
    requires data[..p] == other[..p] && data[p + n..] == other[p + n..] && data[p..p + n] != other[p..p + n]
    ensures ReadFrame(other)
         == FrameBad(if p < 4 then BadHeader else if p < 8 then BadLength else BadSnapshotChecksum)
  {
    hide Word, Crc32c;
    if p < 4 {
      assert data[p] != other[p] by {
        assert data[p..p + 1] == [data[p]] && other[p..p + 1] == [other[p]];
      }
      assert data[..4][p] != other[..4][p];
    } else {
      assert data[..4] == data[..p][..4] == other[..p][..4] == other[..4];
      if p < 8 {
        WordChanged(data, other, p, 4);
      } else {
        assert data[4..8] == data[..p][4..8] == other[..p][4..8] == other[4..8];
        if p < 12 {
          WordChanged(data, other, p, 8);
          assert data[12..] == data[p + 1..][11 - p..] == other[p + 1..][11 - p..] == other[12..];
        } else {
          assert data[8..12] == data[..p][8..12] == other[..p][8..12] == other[8..12];
          var pre, post := data[12..p], data[p + n..];
          assert pre == data[..p][12..] == other[..p][12..] == other[12..p];
          BurstDetected(pre, data[p..p + n], other[p..p + n], post);
          assert data[12..] == pre + data[p..p + n] + post;
          assert other[12..] == pre + other[p..p + n] + post;
        }
      }
    }
  }

  lemma WordChanged(data: seq<byte>, other: seq<byte>, p: nat, at: nat)
    requires at <= p < at + 4 <= |data| == |other|
    requires data[p..p + 1] != other[p..p + 1]
    ensures Word(data[at..at + 4]) != Word(other[at..at + 4])
  {
    assert data[p..p + 1] == [data[p]] && other[p..p + 1] == [other[p]];
    assert data[at..at + 4][p - at] == data[p] != other[p] == other[at..at + 4][p - at];
    if Word(data[at..at + 4]) == Word(other[at..at + 4]) {
      WordInjective(data[at..at + 4], other[at..at + 4]);
    }
  }
}
