// CRC-32C as internal/wal/checksum.go uses it: the reflected Castagnoli
// polynomial of RFC 3720, section 12.1, register preset to all ones and
// complemented at the end. The register is kept as its 32 bits, least
// significant first, so every law below is about exclusive or on bit strings.
module Checksum {
  import opened Bytes

  type Register = r: seq<bool> | |r| == 32 witness seq(32, i => false)

  function Bits(n: nat, width: nat): (s: seq<bool>)
    ensures |s| == width
  {
    if width == 0 then [] else [n % 2 == 1] + Bits(n / 2, width - 1)
  }

  function Number(s: seq<bool>): nat {
    if s == [] then 0 else (if s[0] then 1 else 0) + 2 * Number(s[1..])
  }

  function Zeros(n: nat): (s: seq<bool>)
    ensures |s| == n
  {
    seq(n, i => false)
  }

  function Xor(a: seq<bool>, b: seq<bool>): (s: seq<bool>)
    requires |a| == |b|
    ensures |s| == |a|
  {
    seq(|a|, i requires 0 <= i < |a| => a[i] != b[i])
  }

  function Not(a: seq<bool>): (s: seq<bool>)
    ensures |s| == |a|
  {
    seq(|a|, i requires 0 <= i < |a| => !a[i])
  }

  function Castagnoli(): Register {
    Bits(0x82F6_3B78, 32)
  }

  // One step of the shift register.
  function Shift(r: Register): Register {
    var down := r[1..] + [false];
    if r[0] then Xor(down, Castagnoli()) else down
  }

  function Shifts(r: Register, n: nat): Register
    decreases n
  {
    if n == 0 then r else Shifts(Shift(r), n - 1)
  }

  // One message byte: it enters at the low end, then eight shifts.
  function Feed(r: Register, b: byte): Register {
    Shifts(Xor(r, Bits(b, 8) + Zeros(24)), 8)
  }

  function Update(r: Register, s: seq<byte>): Register
    decreases s
  {
    if s == [] then r else Update(Feed(r, s[0]), s[1..])
  }

  // crc32.Update: complement on the way in and on the way out.
  function Hash(crc: nat, s: seq<byte>): nat {
    Number(Not(Update(Not(Bits(crc, 32)), s)))
  }

  function Crc32c(s: seq<byte>): nat {
    Hash(0, s)
  }

  // ----- Bits and numbers -----

  lemma {:induction false} NumberOfBits(s: seq<bool>)
    ensures Bits(Number(s), |s|) == s
    ensures Number(s) < Pow2(|s|)
  {
    if s == [] {
    } else {
      NumberOfBits(s[1..]);
      assert Number(s) / 2 == Number(s[1..]);
    }
  }

  function Pow2(n: nat): nat {
    if n == 0 then 1 else 2 * Pow2(n - 1)
  }

  lemma {:induction false} BitsInjective(a: nat, b: nat, width: nat)
    requires a < Pow2(width) && b < Pow2(width)
    requires Bits(a, width) == Bits(b, width)
    ensures a == b
  {
    if width == 0 {
    } else {
      assert Bits(a, width)[1..] == Bits(a / 2, width - 1);
      assert Bits(b, width)[1..] == Bits(b / 2, width - 1);
      assert Bits(a, width)[0] == Bits(b, width)[0];
      BitsInjective(a / 2, b / 2, width - 1);
    }
  }

  lemma Pow2Of32()
    ensures Pow2(8) == 256
    ensures Pow2(31) == 0x8000_0000 && Pow2(32) == 0x1_0000_0000
  {
    Pow2Double(8, 8);
    Pow2Double(16, 15);
    assert Pow2(32) == 2 * Pow2(31);
  }

  lemma {:induction false} Pow2Double(m: nat, n: nat)
    ensures Pow2(m + n) == Pow2(m) * Pow2(n)
  {
    if n == 0 {
    } else {
      Pow2Double(m, n - 1);
    }
  }

  lemma HashBounded(crc: nat, s: seq<byte>)
    ensures Hash(crc, s) < 0x1_0000_0000
  {
    NumberOfBits(Not(Update(Not(Bits(crc, 32)), s)));
    Pow2Of32();
  }

  lemma HashAppend(crc: nat, s: seq<byte>, t: seq<byte>)
    ensures Hash(crc, s + t) == Hash(Hash(crc, s), t)
  {
    var r := Update(Not(Bits(crc, 32)), s);
    NumberOfBits(Not(r));
    assert Not(Not(r)) == r;
    UpdateAppend(Not(Bits(crc, 32)), s, t);
  }

  // ----- The register step loses nothing -----

  lemma XorCancel(a: seq<bool>, b: seq<bool>, v: seq<bool>)
    requires |a| == |b| == |v|
    requires Xor(a, v) == Xor(b, v)
    ensures a == b
  {
    forall i | 0 <= i < |a|
      ensures a[i] == b[i]
    {
      assert Xor(a, v)[i] == Xor(b, v)[i];
    }
  }

  lemma XorCommutes(a: seq<bool>, b: seq<bool>)
    requires |a| == |b|
    ensures Xor(a, b) == Xor(b, a)
  {
  }

  // The polynomial's top bit is set, so no step ever forgets the bit it drops.
  lemma TopBit()
    ensures Castagnoli()[31]
  {
    Pow2Of32();
    HighBit(0x82F6_3B78, 32);
  }

  lemma {:induction false} HighBit(n: nat, width: nat)
    requires width > 0 && n < Pow2(width)
    ensures Bits(n, width)[width - 1] == (n >= Pow2(width - 1))
  {
    if width == 1 {
    } else {
      HighBit(n / 2, width - 1);
      assert Bits(n, width)[width - 1] == Bits(n / 2, width - 1)[width - 2];
    }
  }

  lemma ShiftInjective(a: Register, b: Register)
    requires Shift(a) == Shift(b)
    ensures a == b
  {
    hide Castagnoli;
    TopBit();
    assert Shift(a)[31] == a[0] && Shift(b)[31] == b[0];
    var c, d := a[1..] + [false], b[1..] + [false];
    if a[0] {
      XorCancel(c, d, Castagnoli());
    }
    assert c[..31] == d[..31];
    assert a == [a[0]] + c[..31] && b == [b[0]] + d[..31];
  }

  lemma {:induction false} ShiftsInjective(a: Register, b: Register, n: nat)
    requires Shifts(a, n) == Shifts(b, n)
    ensures a == b
    decreases n
  {
    hide Shift, Castagnoli;
    if n == 0 {
    } else {
      ShiftsInjective(Shift(a), Shift(b), n - 1);
      ShiftInjective(a, b);
    }
  }

  lemma {:induction false} UpdateInjective(r1: Register, r2: Register, s: seq<byte>)
    requires Update(r1, s) == Update(r2, s)
    ensures r1 == r2
    decreases s
  {
    hide Shifts, Xor, Bits, Zeros;
    if s == [] {
    } else {
      UpdateInjective(Feed(r1, s[0]), Feed(r2, s[0]), s[1..]);
      var v := Bits(s[0], 8) + Zeros(24);
      ShiftsInjective(Xor(r1, v), Xor(r2, v), 8);
      XorCancel(r1, r2, v);
    }
  }

  lemma {:induction false} UpdateAppend(r: Register, s: seq<byte>, t: seq<byte>)
    ensures Update(r, s + t) == Update(Update(r, s), t)
    decreases s
  {
    hide Feed;
    if s == [] {
      assert s + t == t;
    } else {
      assert (s + t)[1..] == s[1..] + t;
      UpdateAppend(Feed(r, s[0]), s[1..], t);
    }
  }

  // ----- Up to four bytes at once -----

  lemma ShiftLinear(a: Register, b: Register)
    ensures Shift(Xor(a, b)) == Xor(Shift(a), Shift(b))
  {
    hide Castagnoli;
    var p := Castagnoli();
    forall i | 0 <= i < 32
      ensures Shift(Xor(a, b))[i] == Xor(Shift(a), Shift(b))[i]
    {
      assert Xor(a, b)[0] == (a[0] != b[0]);
      if i < 31 {
        assert Xor(a, b)[i + 1] == (a[i + 1] != b[i + 1]);
      }
    }
  }

  lemma {:induction false} ShiftsLinear(a: Register, b: Register, n: nat)
    ensures Shifts(Xor(a, b), n) == Xor(Shifts(a, n), Shifts(b, n))
    decreases n
  {
    hide Shift, Xor;
    if n == 0 {
    } else {
      ShiftLinear(a, b);
      ShiftsLinear(Shift(a), Shift(b), n - 1);
    }
  }

  lemma {:induction false} ShiftsAdd(r: Register, m: nat, n: nat)
    ensures Shifts(r, m + n) == Shifts(Shifts(r, m), n)
    decreases m
  {
    hide Shift;
    if m == 0 {
    } else {
      ShiftsAdd(Shift(r), m - 1, n);
    }
  }

  // Clear low bits are simply shifted out.
  lemma {:induction false} ShiftsOfHigh(high: seq<bool>, n: nat)
    requires |high| + n <= 32
    ensures Shifts(Zeros(n) + high + Zeros(32 - n - |high|), n) == high + Zeros(32 - |high|)
  {
    hide Castagnoli;
    var r := Zeros(n) + high + Zeros(32 - n - |high|);
    if n == 0 {
      assert r == high + Zeros(32 - |high|);
    } else {
      assert Shift(r) == Zeros(n - 1) + high + Zeros(32 - (n - 1) - |high|);
      ShiftsOfHigh(high, n - 1);
    }
  }

  lemma NoShift(r: Register)
    ensures Shifts(r, 0) == r
  {
  }

  // The bits of a byte string in the order the register takes them in.
  function Stream(s: seq<byte>): (bits: seq<bool>)
    ensures |bits| == 8 * |s|
  {
    if s == [] then [] else Bits(s[0], 8) + Stream(s[1..])
  }

  lemma {:induction false} StreamInjective(s: seq<byte>, t: seq<byte>)
    requires |s| == |t|
    requires Stream(s) == Stream(t)
    ensures s == t
  {
    if s == [] {
    } else {
      assert Stream(s)[..8] == Bits(s[0], 8) && Stream(t)[..8] == Bits(t[0], 8);
      assert Stream(s)[8..] == Stream(s[1..]) && Stream(t)[8..] == Stream(t[1..]);
      Pow2Of32();
      BitsInjective(s[0], t[0], 8);
      StreamInjective(s[1..], t[1..]);
      assert s == [s[0]] + s[1..] && t == [t[0]] + t[1..];
    }
  }

  // Feeding at most four bytes one by one is mixing them in together.
  lemma {:induction false} UpdateTogether(r: Register, s: seq<byte>)
    requires |s| <= 4
    ensures Update(r, s) == Shifts(Xor(r, Stream(s) + Zeros(32 - 8 * |s|)), 8 * |s|)
    decreases s
  {
    hide Shift, Shifts, Bits;
    if s == [] {
      assert Xor(r, Stream(s) + Zeros(32)) == r;
      NoShift(r);
    } else {
      var rest := Stream(s[1..]);
      var low := Bits(s[0], 8) + Zeros(24);
      var high := Zeros(8) + rest + Zeros(32 - 8 - |rest|);
      UpdateTogether(Feed(r, s[0]), s[1..]);
      assert Xor(r, Stream(s) + Zeros(32 - 8 * |s|)) == Xor(Xor(r, low), high);
      ShiftsLinear(Xor(r, low), high, 8);
      ShiftsOfHigh(rest, 8);
      ShiftsAdd(Xor(Xor(r, low), high), 8, 8 * |s| - 8);
    }
  }

  // Two messages that differ only inside a window of at most four bytes never
  // share a checksum, however long they are.
  lemma BurstDetected(pre: seq<byte>, s: seq<byte>, t: seq<byte>, post: seq<byte>)
    requires |s| == |t| <= 4
    requires s != t
    ensures Crc32c(pre + s + post) != Crc32c(pre + t + post)
  {
    hide Feed, Update, Shifts, Number, Bits;
    var start := Not(Bits(0, 32));
    var r := Update(start, pre);
    UpdateAppend(start, pre + s, post);
    UpdateAppend(start, pre + t, post);
    UpdateAppend(start, pre, s);
    UpdateAppend(start, pre, t);
    var u, v := Update(Update(r, s), post), Update(Update(r, t), post);
    if Number(Not(u)) == Number(Not(v)) {
      NumberOfBits(Not(u));
      NumberOfBits(Not(v));
      assert u == Not(Not(u)) && v == Not(Not(v));
      UpdateInjective(Update(r, s), Update(r, t), post);
      UpdateTogether(r, s);
      UpdateTogether(r, t);
      var pad := Zeros(32 - 8 * |s|);
      ShiftsInjective(Xor(r, Stream(s) + pad), Xor(r, Stream(t) + pad), 8 * |s|);
      XorCommutes(r, Stream(s) + pad);
      XorCommutes(r, Stream(t) + pad);
      XorCancel(Stream(s) + pad, Stream(t) + pad, r);
      assert Stream(s) == (Stream(s) + pad)[..8 * |s|] && Stream(t) == (Stream(t) + pad)[..8 * |s|];
      StreamInjective(s, t);
    }
  }

  // ----- The code -----

  // The running hash of hash/crc32.
  method Write(crc: nat, p: seq<byte>) returns (next: nat)
    ensures next == Hash(crc, p)
  {
    var r: Register := Not(Bits(crc, 32));
    for i := 0 to |p|
      invariant Update(r, p[i..]) == Update(Not(Bits(crc, 32)), p)
    {
      assert p[i..][0] == p[i] && p[i..][1..] == p[i + 1..];
      r := Feed(r, p[i]);
    }
    next := Number(Not(r));
  }

  // The bytes a record checksum covers, in order.
  function Covered(flags: byte, length: nat, seqNo: nat, payload: seq<byte>): (s: seq<byte>)
    ensures |s| == 13 + |payload|
  {
    [flags] + BigEndian(length, 4) + BigEndian(seqNo, 8) + payload
  }

  function RecordCrc(flags: byte, length: nat, seqNo: nat, payload: seq<byte>): nat {
    Crc32c(Covered(flags, length, seqNo, payload))
  }

  method RecordChecksum(flags: byte, length: nat, seqNo: nat, payload: seq<byte>) returns (crc: nat)
    ensures crc == RecordCrc(flags, length, seqNo, payload)
  {
    var fixed := FixedFields(flags, length, seqNo);
    var prefix := fixed[..];
    var h := Write(0, prefix);
    crc := Write(h, payload);
    HashAppend(0, prefix, payload);
    assert Covered(flags, length, seqNo, payload) == prefix + payload;
  }

  method FixedFields(flags: byte, length: nat, seqNo: nat) returns (fixed: array<byte>)
    ensures fixed[..] == [flags] + BigEndian(length, 4) + BigEndian(seqNo, 8)
  {
    fixed := new byte[13];
    fixed[0] := flags;
    PutBigEndian(fixed, 1, length, 4);
    var first := fixed[..5];
    PutBigEndian(fixed, 5, seqNo, 8);
    assert first == [flags] + first[1..5] == [flags] + BigEndian(length, 4);
    assert fixed[..] == fixed[..5] + fixed[5..13];
  }

  method PutBigEndian(dst: array<byte>, at: nat, n: nat, width: nat)
    requires at + width <= dst.Length
    modifies dst
    ensures dst[at..at + width] == BigEndian(n, width)
    ensures dst[..at] == old(dst[..at]) && dst[at + width..] == old(dst[at + width..])
  {
    var word := BigEndian(n, width);
    for i := 0 to width
      invariant forall k :: 0 <= k < i ==> dst[at + k] == word[k]
      invariant forall k :: 0 <= k < dst.Length && !(at <= k < at + i) ==> dst[k] == old(dst[k])
    {
      dst[at + i] := word[i];
    }
  }
}
