// Bytes and big-endian words, the vocabulary of every on-disk format below.
module Bytes {
  type byte = b: int | 0 <= b < 256

  datatype Option<+T> = None | Some(value: T)

  // Number of distinct words of `width` bytes.
  function Pow256(width: nat): (p: nat)
    ensures p > 0
  {
    if width == 0 then 1 else 256 * Pow256(width - 1)
  }

  // The low `width` bytes of n, most significant first (binary.BigEndian.PutUint*).
  function BigEndian(n: nat, width: nat): (s: seq<byte>)
    ensures |s| == width
  {
    if width == 0 then [] else BigEndian(n / 256, width - 1) + [n % 256]
  }

  // The number a big-endian word stands for (binary.BigEndian.Uint*).
  function Word(s: seq<byte>): (n: nat) {
    if s == [] then 0 else Word(s[..|s| - 1]) * 256 + s[|s| - 1]
  }

  lemma {:induction false} WordOfBigEndian(n: nat, width: nat)
    requires n < Pow256(width)
    ensures Word(BigEndian(n, width)) == n
  {
    if width == 0 {
    } else {
      var high := BigEndian(n / 256, width - 1);
      WordOfBigEndian(n / 256, width - 1);
      assert (high + [n % 256])[..width - 1] == high;
    }
  }

  lemma {:induction false} WordBounded(s: seq<byte>)
    ensures Word(s) < Pow256(|s|)
  {
    if s == [] {
    } else {
      WordBounded(s[..|s| - 1]);
    }
  }

  lemma {:induction false} WordInjective(s: seq<byte>, t: seq<byte>)
    requires |s| == |t|
    requires Word(s) == Word(t)
    ensures s == t
  {
    if s == [] {
    } else {
      var m := |s| - 1;
      assert s[m] == t[m] && Word(s[..m]) == Word(t[..m]);
      WordInjective(s[..m], t[..m]);
      assert s == s[..m] + [s[m]] && t == t[..m] + [t[m]];
    }
  }

  lemma Widths()
    ensures Pow256(2) == 0x1_0000
    ensures Pow256(4) == 0x1_0000_0000
    ensures Pow256(8) == 0x1_0000_0000_0000_0000
  {
    assert Pow256(1) == 256;
    assert Pow256(3) == 256 * Pow256(2);
    assert Pow256(5) == 256 * Pow256(4);
    assert Pow256(6) == 256 * Pow256(5);
    assert Pow256(7) == 256 * Pow256(6);
  }

  lemma SubSlice<T>(s: seq<T>, p: nat, q: nat, a: nat, b: nat)
    requires p <= q <= |s| && a <= b <= q - p
    ensures s[p..q][a..b] == s[p + a..p + b]
  {
    var t, u := s[p..q][a..b], s[p + a..p + b];
    forall i | 0 <= i < b - a
      ensures t[i] == u[i]
    {
      assert s[p..q][a + i] == s[p + a + i];
    }
    assert |t| == |u|;
  }
}
