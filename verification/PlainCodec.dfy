// A small concrete codec that has the properties the store relies on, so that
// nothing proved from Lawful is empty. A byte string is quoted byte by byte: 1
// and the byte for each, 0 at the end.
module PlainCodec {
  import opened Bytes
  import opened Snapshots

  function Quote(s: seq<byte>): (q: seq<byte>)
    ensures |q| == 2 * |s| + 1
  {
    if s == [] then [0] else [1, s[0]] + Quote(s[1..])
  }

  // The quoted string at the front, and what follows it.
  function Unquote(q: seq<byte>): (r: Option<(seq<byte>, seq<byte>)>)
    ensures r.Some? ==> |r.value.1| < |q|
    decreases q
  {
    if q == [] then None
    else if q[0] == 0 then Some(([], q[1..]))
    else if |q| < 2 then None
    else
      match Unquote(q[2..])
      case None => None
      case Some(r) => Some(([q[1]] + r.0, r.1))
  }

  lemma {:induction false} UnquoteQuote(s: seq<byte>, rest: seq<byte>)
    ensures Unquote(Quote(s) + rest) == Some((s, rest))
  {
    var q := Quote(s) + rest;
    if s == [] {
      assert q[1..] == rest;
    } else {
      assert q[2..] == Quote(s[1..]) + rest;
      UnquoteQuote(s[1..], rest);
      assert [s[0]] + s[1..] == s;
    }
  }

  // ----- Commands -----

  function OpByte(op: Op): byte {
    match op
    case OpSet => 0
    case OpDelete => 1
    case OpOther => 2
  }

  function Render(raw: Raw): seq<byte> {
    [OpByte(raw.op)] + Quote(raw.key) + Quote(raw.value)
  }

  function Parse(p: seq<byte>): Option<Raw> {
    if p == [] then None
    else
      match Unquote(p[1..])
      case None => None
      case Some(k) =>
        match Unquote(k.1)
        case None => None
        case Some(v) => Some(Raw(if p[0] == 0 then OpSet else if p[0] == 1 then OpDelete else OpOther, k.0, v.0))
  }

  lemma ParseRender(raw: Raw)
    ensures Parse(Render(raw)) == Some(raw)
  {
    hide Quote, Unquote;
    UnquoteQuote(raw.key, Quote(raw.value));
    UnquoteQuote(raw.value, []);
    assert Quote(raw.value) + [] == Quote(raw.value);
    assert Render(raw)[1..] == Quote(raw.key) + Quote(raw.value);
  }

  // ----- Snapshot bodies -----

  // The entries of a map one after the other, each preceded by 1. The order does
  // not matter to the reader.
  ghost function RenderMap(m: map<Key, Value>): seq<byte>
    decreases |m|
  {
    if m == map[] then [0]
    else
      var k: Key :| k in m;
      [1] + Quote(k) + Quote(m[k]) + RenderMap(m - {k})
  }

  function ParseMap(q: seq<byte>): Option<map<Key, Value>>
    decreases |q|
  {
    if q == [] then None
    else if q[0] == 0 then Some(map[])
    else
      match Unquote(q[1..])
      case None => None
      case Some(k) =>
        match Unquote(k.1)
        case None => None
        case Some(v) =>
          match ParseMap(v.1)
          case None => None
          case Some(m) => Some(m[k.0 := v.0])
  }

  lemma {:induction false} ParseRenderMap(m: map<Key, Value>)
    ensures ParseMap(RenderMap(m)) == Some(m)
    decreases |m|
  {
    hide Quote, Unquote;
    if m != map[] {
      var k: Key :| k in m && RenderMap(m) == [1] + Quote(k) + Quote(m[k]) + RenderMap(m - {k});
      var tail := RenderMap(m - {k});
      UnquoteQuote(k, Quote(m[k]) + tail);
      UnquoteQuote(m[k], tail);
      assert RenderMap(m)[1..] == Quote(k) + (Quote(m[k]) + tail);
      ParseRenderMap(m - {k});
      assert (m - {k})[k := m[k]] == m;
    }
  }

  // A number is quoted as that many zeros.
  function Zeros(n: nat): (z: seq<byte>)
    ensures |z| == n
  {
    seq(n, i => 0)
  }

  ghost function RenderBody(body: Body): seq<byte> {
    Quote(Zeros(body.applied)) + RenderMap(body.values)
  }

  function ParseBody(p: seq<byte>): Option<Body> {
    match Unquote(p)
    case None => None
    case Some(n) =>
      match ParseMap(n.1)
      case None => None
      case Some(m) => Some(Body(|n.0|, m))
  }

  lemma ParseRenderBody(body: Body)
    ensures ParseBody(RenderBody(body)) == Some(body)
  {
    UnquoteQuote(Zeros(body.applied), RenderMap(body.values));
    ParseRenderMap(body.values);
  }

  // ----- The codec -----

  ghost function Plain(): Json {
    Json(Render, Parse, (k: Key) => k, RenderBody, ParseBody)
  }

  lemma PlainIsLawful()
    ensures Lawful(Plain())
  {
    forall raw: Raw
      ensures Plain().parse(Plain().render(raw)) == Some(raw)
    {
      ParseRender(raw);
    }
    forall body: Body
      ensures Plain().parseBody(Plain().renderBody(body)) == Some(body)
    {
      ParseRenderBody(body);
    }
  }
}
