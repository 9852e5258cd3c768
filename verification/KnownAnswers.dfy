// The published check value of CRC-32C, and one record and one snapshot file down
// to the byte. The register on bit strings is shown equal to a register on numbers,
// and that one to a register of hexadecimal digits, which can be run.
module KnownAnswers {
  import opened Bytes
  import opened Checksum
  import opened Framing
  import opened History
  import opened Snapshots

  function XorNat(a: nat, b: nat): nat
    decreases a
  {
    if a == 0 then b
    else 2 * XorNat(a / 2, b / 2) + (if a % 2 == b % 2 then 0 else 1)
  }

  function StepNat(n: nat): nat {
    if n % 2 == 1 then XorNat(n / 2, 0x82F6_3B78) else n / 2
  }

  function StepsNat(n: nat, k: nat): nat
    decreases k
  {
    if k == 0 then n else StepsNat(StepNat(n), k - 1)
  }

  function UpdateNat(n: nat, s: seq<byte>): nat
    decreases s
  {
    if s == [] then n else UpdateNat(StepsNat(XorNat(n, s[0]), 8), s[1..])
  }

  lemma {:induction false} XorBits(a: nat, b: nat, width: nat)
    ensures Xor(Bits(a, width), Bits(b, width)) == Bits(XorNat(a, b), width)
    decreases width
  {
    hide XorNat, Xor;
    if width == 0 {
      assert Xor([], []) == [] by { XorNone(); }
    } else {
      XorBits(a / 2, b / 2, width - 1);
      XorHalves(a, b);
      XorHead([a % 2 == 1] + Bits(a / 2, width - 1), [b % 2 == 1] + Bits(b / 2, width - 1));
    }
  }

  lemma XorNone()
    ensures Xor([], []) == []
  {
  }

  lemma XorHead(x: seq<bool>, y: seq<bool>)
    requires |x| == |y| > 0
    ensures Xor(x, y) == [x[0] != y[0]] + Xor(x[1..], y[1..])
  {
  }

  lemma XorHalves(a: nat, b: nat)
    ensures XorNat(a, b) / 2 == XorNat(a / 2, b / 2)
    ensures (XorNat(a, b) % 2 == 1) == ((a % 2 == 1) != (b % 2 == 1))
  {
  }

  lemma {:induction false} XorBound(a: nat, b: nat, width: nat)
    requires a < Pow2(width) && b < Pow2(width)
    ensures XorNat(a, b) < Pow2(width)
    decreases width
  {
    if width > 0 {
      XorBound(a / 2, b / 2, width - 1);
      XorHalves(a, b);
    }
  }

  lemma {:induction false} BitsPad(n: nat, width: nat)
    requires n < Pow2(width)
    ensures Bits(n, width + 1) == Bits(n, width) + [false]
    decreases width
  {
    if width == 0 {
      assert Bits(0, 1) == [false];
    } else {
      BitsPad(n / 2, width - 1);
    }
  }

  lemma {:induction false} BitsPads(n: nat, width: nat, k: nat)
    requires n < Pow2(width)
    ensures n < Pow2(width + k)
    ensures Bits(n, width + k) == Bits(n, width) + Zeros(k)
    decreases k
  {
    if k == 0 {
    } else {
      BitsPads(n, width, k - 1);
      BitsPad(n, width + k - 1);
    }
  }

  lemma PolynomialNat()
    ensures Castagnoli() == Bits(0x82F6_3B78, 32)
  {
  }

  lemma ShiftNat(n: nat)
    requires n < Pow2(32)
    ensures Shift(Bits(n, 32)) == Bits(StepNat(n), 32) && StepNat(n) < Pow2(32)
  {
    hide Castagnoli, XorNat, Xor, Bits;
    Pow2Of32();
    assert Bits(n, 32)[0] == (n % 2 == 1) && Bits(n, 32)[1..] == Bits(n / 2, 31) by { BitsHead(n, 32); }
    BitsPad(n / 2, 31);
    assert Castagnoli() == Bits(0x82F6_3B78, 32) by { PolynomialNat(); }
    XorBits(n / 2, 0x82F6_3B78, 32);
    XorBound(n / 2, 0x82F6_3B78, 32);
  }

  lemma BitsHead(n: nat, width: nat)
    requires width > 0
    ensures Bits(n, width)[0] == (n % 2 == 1) && Bits(n, width)[1..] == Bits(n / 2, width - 1)
  {
  }

  lemma {:induction false} ShiftsNat(n: nat, k: nat)
    requires n < Pow2(32)
    ensures Shifts(Bits(n, 32), k) == Bits(StepsNat(n, k), 32) && StepsNat(n, k) < Pow2(32)
    decreases k
  {
    hide Shift, Bits, StepNat, Pow2;
    if k > 0 {
      ShiftNat(n);
      ShiftsNat(StepNat(n), k - 1);
    }
  }

  lemma {:induction false} UpdateIsNat(n: nat, s: seq<byte>)
    requires n < Pow2(32)
    ensures Update(Bits(n, 32), s) == Bits(UpdateNat(n, s), 32) && UpdateNat(n, s) < Pow2(32)
    decreases s
  {
    hide Shifts, Bits, StepsNat, Pow2, Xor, XorNat;
    if s != [] {
      Pow2Of32();
      BitsPads(s[0], 8, 24);
      XorBits(n, s[0], 32);
      XorBound(n, s[0], 32);
      ShiftsNat(XorNat(n, s[0]), 8);
      UpdateIsNat(StepsNat(XorNat(n, s[0]), 8), s[1..]);
    }
  }

  lemma {:induction false} NotBits(n: nat, width: nat)
    requires n < Pow2(width)
    ensures Not(Bits(n, width)) == Bits(Pow2(width) - 1 - n, width)
    decreases width
  {
    if width > 0 {
      NotBits(n / 2, width - 1);
      assert (Pow2(width) - 1 - n) / 2 == Pow2(width - 1) - 1 - n / 2;
      assert Not(Bits(n, width)) == [n % 2 != 1] + Not(Bits(n / 2, width - 1));
    }
  }

  // CRC-32C of a message is the complement of the register on numbers, run from
  // all ones.
  lemma CrcIsNat(s: seq<byte>)
    ensures Crc32c(s) == 0xFFFF_FFFF - UpdateNat(0xFFFF_FFFF, s)
  {
    hide Bits, UpdateNat, Update, Number, Pow2;
    Pow2Of32();
    NotBits(0, 32);
    UpdateIsNat(0xFFFF_FFFF, s);
    var n := UpdateNat(0xFFFF_FFFF, s);
    NotBits(n, 32);
    var u := Not(Bits(n, 32));
    NumberOfBits(u);
    BitsInjective(Number(u), 0xFFFF_FFFF - n, 32);
  }

  // ----- The register in hexadecimal digits, the low one first -----

  datatype Hex = Hex(d0: nat, d1: nat, d2: nat, d3: nat, d4: nat, d5: nat, d6: nat, d7: nat)

  predicate Valid(w: Hex) {
    && w.d0 < 16 && w.d1 < 16 && w.d2 < 16 && w.d3 < 16
    && w.d4 < 16 && w.d5 < 16 && w.d6 < 16 && w.d7 < 16
  }

  function Value(w: Hex): nat {
    w.d0 + 16 * (w.d1 + 16 * (w.d2 + 16 * (w.d3 + 16 * (w.d4 + 16 * (w.d5 + 16 * (w.d6 + 16 * w.d7))))))
  }

  // The four bits of a digit.
  function One(d: nat): nat {
    if d == 1 || d == 3 || d == 5 || d == 7 || d == 9 || d == 11 || d == 13 || d == 15 then 1 else 0
  }

  function Two(d: nat): nat {
    if 2 <= d < 4 || 6 <= d < 8 || 10 <= d < 12 || 14 <= d < 16 then 1 else 0
  }

  function Four(d: nat): nat {
    if 4 <= d < 8 || 12 <= d < 16 then 1 else 0
  }

  function Eight(d: nat): nat {
    if 8 <= d < 16 then 1 else 0
  }

  function Differ(i: nat, j: nat): nat {
    if i == j then 0 else 1
  }

  function XorDigit(i: nat, j: nat): nat {
    Differ(One(i), One(j)) + 2 * Differ(Two(i), Two(j)) + 4 * Differ(Four(i), Four(j)) + 8 * Differ(Eight(i), Eight(j))
  }

  // The same as tables, which is what makes it run.
  function Xor1(d: nat): nat {
    match d case 0 => 1 case 1 => 0 case 2 => 3 case 3 => 2 case 4 => 5 case 5 => 4 case 6 => 7 case 7 => 6
    case 8 => 9 case 9 => 8 case 10 => 11 case 11 => 10 case 12 => 13 case 13 => 12 case 14 => 15 case _ => 14
  }

  function Xor2(d: nat): nat {
    match d case 0 => 2 case 1 => 3 case 2 => 0 case 3 => 1 case 4 => 6 case 5 => 7 case 6 => 4 case 7 => 5
    case 8 => 10 case 9 => 11 case 10 => 8 case 11 => 9 case 12 => 14 case 13 => 15 case 14 => 12 case _ => 13
  }

  function Xor3(d: nat): nat {
    match d case 0 => 3 case 1 => 2 case 2 => 1 case 3 => 0 case 4 => 7 case 5 => 6 case 6 => 5 case 7 => 4
    case 8 => 11 case 9 => 10 case 10 => 9 case 11 => 8 case 12 => 15 case 13 => 14 case 14 => 13 case _ => 12
  }

  function Xor4(d: nat): nat {
    match d case 0 => 4 case 1 => 5 case 2 => 6 case 3 => 7 case 4 => 0 case 5 => 1 case 6 => 2 case 7 => 3
    case 8 => 12 case 9 => 13 case 10 => 14 case 11 => 15 case 12 => 8 case 13 => 9 case 14 => 10 case _ => 11
  }

  function Xor5(d: nat): nat {
    match d case 0 => 5 case 1 => 4 case 2 => 7 case 3 => 6 case 4 => 1 case 5 => 0 case 6 => 3 case 7 => 2
    case 8 => 13 case 9 => 12 case 10 => 15 case 11 => 14 case 12 => 9 case 13 => 8 case 14 => 11 case _ => 10
  }

  function Xor6(d: nat): nat {
    match d case 0 => 6 case 1 => 7 case 2 => 4 case 3 => 5 case 4 => 2 case 5 => 3 case 6 => 0 case 7 => 1
    case 8 => 14 case 9 => 15 case 10 => 12 case 11 => 13 case 12 => 10 case 13 => 11 case 14 => 8 case _ => 9
  }

  function Xor7(d: nat): nat {
    match d case 0 => 7 case 1 => 6 case 2 => 5 case 3 => 4 case 4 => 3 case 5 => 2 case 6 => 1 case 7 => 0
    case 8 => 15 case 9 => 14 case 10 => 13 case 11 => 12 case 12 => 11 case 13 => 10 case 14 => 9 case _ => 8
  }

  function Xor8(d: nat): nat {
    match d case 0 => 8 case 1 => 9 case 2 => 10 case 3 => 11 case 4 => 12 case 5 => 13 case 6 => 14 case 7 => 15
    case 8 => 0 case 9 => 1 case 10 => 2 case 11 => 3 case 12 => 4 case 13 => 5 case 14 => 6 case _ => 7
  }

  function Xor9(d: nat): nat {
    match d case 0 => 9 case 1 => 8 case 2 => 11 case 3 => 10 case 4 => 13 case 5 => 12 case 6 => 15 case 7 => 14
    case 8 => 1 case 9 => 0 case 10 => 3 case 11 => 2 case 12 => 5 case 13 => 4 case 14 => 7 case _ => 6
  }

  function Xor11(d: nat): nat {
    match d case 0 => 11 case 1 => 10 case 2 => 9 case 3 => 8 case 4 => 15 case 5 => 14 case 6 => 13 case 7 => 12
    case 8 => 3 case 9 => 2 case 10 => 1 case 11 => 0 case 12 => 7 case 13 => 6 case 14 => 5 case _ => 4
  }

  function Xor15(d: nat): nat {
    match d case 0 => 15 case 1 => 14 case 2 => 13 case 3 => 12 case 4 => 11 case 5 => 10 case 6 => 9 case 7 => 8
    case 8 => 7 case 9 => 6 case 10 => 5 case 11 => 4 case 12 => 3 case 13 => 2 case 14 => 1 case _ => 0
  }

  function Mixed(d: nat, p: nat): nat {
    if p == 1 then Xor1(d)
    else if p == 2 then Xor2(d)
    else if p == 3 then Xor3(d)
    else if p == 4 then Xor4(d)
    else if p == 5 then Xor5(d)
    else if p == 6 then Xor6(d)
    else if p == 7 then Xor7(d)
    else if p == 8 then Xor8(d)
    else if p == 9 then Xor9(d)
    else if p == 11 then Xor11(d)
    else if p == 15 then Xor15(d)
    else XorDigit(d, p)
  }

  predicate Odd(d: nat) {
    d == 1 || d == 3 || d == 5 || d == 7 || d == 9 || d == 11 || d == 13 || d == 15
  }

  function Half(d: nat, high: nat): nat {
    (if d <= 1 then 0 else if d <= 3 then 1 else if d <= 5 then 2 else if d <= 7 then 3
     else if d <= 9 then 4 else if d <= 11 then 5 else if d <= 13 then 6 else 7)
    + (if Odd(high) then 8 else 0)
  }

  function HalfHex(w: Hex): Hex {
    Hex(Half(w.d0, w.d1), Half(w.d1, w.d2), Half(w.d2, w.d3), Half(w.d3, w.d4),
        Half(w.d4, w.d5), Half(w.d5, w.d6), Half(w.d6, w.d7), Half(w.d7, 0))
  }

  // Exclusive or with the polynomial, 82F63B78.
  function Folded(w: Hex): Hex {
    Hex(Xor8(w.d0), Xor7(w.d1), Xor11(w.d2), Xor3(w.d3), Xor6(w.d4), Xor15(w.d5), Xor2(w.d6), Xor8(w.d7))
  }

  function StepHex(w: Hex): Hex {
    if Odd(w.d0) then Folded(HalfHex(w)) else HalfHex(w)
  }

  function Step4(w: Hex): Hex {
    StepHex(StepHex(StepHex(StepHex(w))))
  }

  // One message byte, its low digit first.
  function Mix(w: Hex, low: nat, high: nat): Hex {
    w.(d0 := Mixed(w.d0, low), d1 := Mixed(w.d1, high))
  }

  function FeedHex(w: Hex, low: nat, high: nat): Hex {
    Step4(Step4(Mix(w, low, high)))
  }

  lemma Tables1To3(d: nat)
    requires d < 16
    ensures Xor1(d) == XorDigit(d, 1)
    ensures Xor2(d) == XorDigit(d, 2)
    ensures Xor3(d) == XorDigit(d, 3)
  {
  }

  lemma Tables4To6(d: nat)
    requires d < 16
    ensures Xor4(d) == XorDigit(d, 4)
    ensures Xor5(d) == XorDigit(d, 5)
    ensures Xor6(d) == XorDigit(d, 6)
  {
  }

  lemma Tables7To9(d: nat)
    requires d < 16
    ensures Xor7(d) == XorDigit(d, 7)
    ensures Xor8(d) == XorDigit(d, 8)
    ensures Xor9(d) == XorDigit(d, 9)
  {
  }

  lemma Tables11And15(d: nat)
    requires d < 16
    ensures Xor11(d) == XorDigit(d, 11)
    ensures Xor15(d) == XorDigit(d, 15)
  {
  }

  lemma Tables(d: nat)
    requires d < 16
    ensures Xor1(d) == XorDigit(d, 1)
    ensures Xor2(d) == XorDigit(d, 2)
    ensures Xor3(d) == XorDigit(d, 3)
    ensures Xor4(d) == XorDigit(d, 4)
    ensures Xor5(d) == XorDigit(d, 5)
    ensures Xor6(d) == XorDigit(d, 6)
    ensures Xor7(d) == XorDigit(d, 7)
    ensures Xor8(d) == XorDigit(d, 8)
    ensures Xor9(d) == XorDigit(d, 9)
    ensures Xor11(d) == XorDigit(d, 11)
    ensures Xor15(d) == XorDigit(d, 15)
  {
    hide XorDigit, Xor1, Xor2, Xor3, Xor4, Xor5, Xor6, Xor7, Xor8, Xor9, Xor11, Xor15;
    Tables1To3(d);
    Tables4To6(d);
    Tables7To9(d);
    Tables11And15(d);
  }

  lemma MixedIs(d: nat, p: nat)
    requires d < 16
    ensures Mixed(d, p) == XorDigit(d, p)
  {
    hide Xor1, Xor2, Xor3, Xor4, Xor5, Xor6, Xor7, Xor8, Xor9, Xor11, Xor15, XorDigit;
    Tables(d);
  }

  lemma HalfIs(d: nat, high: nat)
    requires d < 16
    ensures d == One(d) + 2 * Half(d, 0)
    ensures Half(d, high) == Half(d, 0) + 8 * One(high)
    ensures Odd(d) <==> One(d) == 1
    ensures Half(d, 0) < 8
  {
  }

  lemma DigitBits(d: nat)
    requires d < 16
    ensures d == One(d) + 2 * (Two(d) + 2 * (Four(d) + 2 * Eight(d)))
  {
  }

  lemma XorBit(x: nat, y: nat, i: nat, j: nat)
    requires i < 2 && j < 2
    ensures XorNat(i + 2 * x, j + 2 * y) == Differ(i, j) + 2 * XorNat(x, y)
  {
    hide XorNat;
    var m, n := i + 2 * x, j + 2 * y;
    XorHalves(m, n);
    assert m / 2 == x && n / 2 == y && m % 2 == i && n % 2 == j;
  }

  lemma XorNibble(x: nat, y: nat, i: nat, j: nat)
    requires i < 16 && j < 16
    ensures XorNat(i + 16 * x, j + 16 * y) == XorDigit(i, j) + 16 * XorNat(x, y) && XorDigit(i, j) < 16
  {
    hide XorNat, One, Two, Four, Eight;
    DigitBits(i);
    DigitBits(j);
    Binary(i);
    Binary(j);
    XorBit(x, y, Eight(i), Eight(j));
    XorBit(Eight(i) + 2 * x, Eight(j) + 2 * y, Four(i), Four(j));
    XorBit(Four(i) + 2 * (Eight(i) + 2 * x), Four(j) + 2 * (Eight(j) + 2 * y), Two(i), Two(j));
    XorBit(Two(i) + 2 * (Four(i) + 2 * (Eight(i) + 2 * x)), Two(j) + 2 * (Four(j) + 2 * (Eight(j) + 2 * y)),
           One(i), One(j));
  }

  lemma Binary(d: nat)
    ensures One(d) < 2 && Two(d) < 2 && Four(d) < 2 && Eight(d) < 2
  {
  }

  // Exclusive or with the polynomial, digit by digit.
  lemma FoldedValue(w: Hex)
    requires Valid(w)
    ensures Valid(Folded(w)) && Value(Folded(w)) == XorNat(Value(w), 0x82F6_3B78)
  {
    hide XorNat, XorDigit, Xor1, Xor2, Xor3, Xor4, Xor5, Xor6, Xor7, Xor8, Xor9, Xor11, Xor15;
    Tables(w.d0); Tables(w.d1); Tables(w.d2); Tables(w.d3);
    Tables(w.d4); Tables(w.d5); Tables(w.d6); Tables(w.d7);
    XorZero(0);
    XorNibble(0, 0, w.d7, 8);
    var w6, p6 := w.d6 + 16 * w.d7, 0x82;
    XorNibble(w.d7, 8, w.d6, 2);
    var w5, p5 := w.d5 + 16 * w6, 0x82F;
    XorNibble(w6, p6, w.d5, 15);
    var w4, p4 := w.d4 + 16 * w5, 0x82F6;
    XorNibble(w5, p5, w.d4, 6);
    var w3, p3 := w.d3 + 16 * w4, 0x8_2F63;
    XorNibble(w4, p4, w.d3, 3);
    var w2, p2 := w.d2 + 16 * w3, 0x82_F63B;
    XorNibble(w3, p3, w.d2, 11);
    XorNibble(w2, p2, w.d1, 7);
    XorNibble(w.d1 + 16 * w2, 0x82F_63B7, w.d0, 8);
  }

  lemma HalfValue(w: Hex)
    requires Valid(w)
    ensures Valid(HalfHex(w)) && Value(w) == One(w.d0) + 2 * Value(HalfHex(w))
  {
    hide One, Half;
    HalfIs(w.d0, w.d1); HalfIs(w.d1, w.d2); HalfIs(w.d2, w.d3); HalfIs(w.d3, w.d4);
    HalfIs(w.d4, w.d5); HalfIs(w.d5, w.d6); HalfIs(w.d6, w.d7); HalfIs(w.d7, 0);
    Binary(w.d0); Binary(w.d1); Binary(w.d2); Binary(w.d3);
    Binary(w.d4); Binary(w.d5); Binary(w.d6); Binary(w.d7);
  }

  lemma StepValue(w: Hex)
    requires Valid(w)
    ensures Valid(StepHex(w)) && Value(StepHex(w)) == StepNat(Value(w))
  {
    hide Value, XorNat, Folded, HalfHex, One, Half, Odd;
    HalfValue(w);
    HalfIs(w.d0, 0);
    Binary(w.d0);
    FoldedValue(HalfHex(w));
  }

  lemma {:induction false} StepsAdd(n: nat, j: nat, k: nat)
    ensures StepsNat(n, j + k) == StepsNat(StepsNat(n, j), k)
    decreases j
  {
    hide StepNat;
    if j > 0 {
      StepsAdd(StepNat(n), j - 1, k);
    }
  }

  lemma Step4Value(w: Hex)
    requires Valid(w)
    ensures Valid(Step4(w)) && Value(Step4(w)) == StepsNat(Value(w), 4)
  {
    hide StepHex, StepNat, Value, Valid;
    StepValue(w);
    StepValue(StepHex(w));
    StepValue(StepHex(StepHex(w)));
    StepValue(StepHex(StepHex(StepHex(w))));
    assert StepsNat(Value(StepHex(StepHex(w))), 2) == Value(Step4(w));
    assert StepsNat(Value(w), 4) == StepsNat(Value(StepHex(StepHex(w))), 2);
  }

  lemma MixValue(w: Hex, low: nat, high: nat)
    requires Valid(w) && low < 16 && high < 16
    ensures Valid(Mix(w, low, high)) && Value(Mix(w, low, high)) == XorNat(Value(w), 16 * high + low)
  {
    hide XorNat, XorDigit, Mixed;
    var rest := w.d2 + 16 * (w.d3 + 16 * (w.d4 + 16 * (w.d5 + 16 * (w.d6 + 16 * w.d7))));
    MixedIs(w.d0, low);
    MixedIs(w.d1, high);
    XorNibble(w.d1 + 16 * rest, high, w.d0, low);
    XorNibble(rest, 0, w.d1, high);
    XorZero(rest);
  }

  lemma FeedValue(w: Hex, low: nat, high: nat, s: seq<byte>)
    requires Valid(w) && low < 16 && high < 16
    ensures Valid(FeedHex(w, low, high))
    ensures UpdateNat(Value(w), [16 * high + low] + s) == UpdateNat(Value(FeedHex(w, low, high)), s)
  {
    hide XorNat, Step4, StepsNat, Mix, Value, Valid;
    MixValue(w, low, high);
    Step4Value(Mix(w, low, high));
    Step4Value(Step4(Mix(w, low, high)));
    StepsAdd(Value(Mix(w, low, high)), 4, 4);
    assert ([16 * high + low] + s)[1..] == s;
  }

  lemma {:induction false} XorZero(x: nat)
    ensures XorNat(x, 0) == x
    decreases x
  {
    if x > 0 {
      XorZero(x / 2);
    }
  }

  // ----- "123456789" -----

  lemma Feed1()
    ensures FeedHex(Hex(15, 15, 15, 15, 15, 15, 15, 15), 1, 3) == Hex(12, 1, 6, 6, 10, 0, 15, 6)
  {
    assert Mix(Hex(15, 15, 15, 15, 15, 15, 15, 15), 1, 3) == Hex(14, 12, 15, 15, 15, 15, 15, 15);
    assert StepHex(StepHex(Hex(14, 12, 15, 15, 15, 15, 15, 15))) == Hex(11, 8, 4, 12, 9, 0, 13, 11);
    assert Step4(Hex(14, 12, 15, 15, 15, 15, 15, 15)) == Hex(6, 14, 7, 5, 15, 12, 12, 14);
    assert StepHex(StepHex(Hex(6, 14, 7, 5, 15, 12, 12, 14))) == Hex(1, 8, 14, 14, 5, 12, 9, 11);
  }

  lemma Feed2()
    ensures FeedHex(Hex(12, 1, 6, 6, 10, 0, 15, 6), 2, 3) == Hex(15, 9, 11, 3, 10, 10, 12, 8)
  {
    assert Mix(Hex(12, 1, 6, 6, 10, 0, 15, 6), 2, 3) == Hex(14, 2, 6, 6, 10, 0, 15, 6);
    assert StepHex(StepHex(Hex(14, 2, 6, 6, 10, 0, 15, 6))) == Hex(3, 15, 2, 10, 4, 3, 9, 9);
    assert Step4(Hex(14, 2, 6, 6, 10, 0, 15, 6)) == Hex(8, 7, 14, 0, 0, 12, 5, 14);
    assert StepHex(StepHex(Hex(8, 7, 14, 0, 0, 12, 5, 14))) == Hex(14, 9, 3, 0, 0, 7, 9, 3);
  }

  lemma Feed3()
    ensures FeedHex(Hex(15, 9, 11, 3, 10, 10, 12, 8), 3, 3) == Hex(13, 4, 0, 13, 4, 8, 15, 14)
  {
    assert Mix(Hex(15, 9, 11, 3, 10, 10, 12, 8), 3, 3) == Hex(12, 10, 11, 3, 10, 10, 12, 8);
    assert StepHex(StepHex(Hex(12, 10, 11, 3, 10, 10, 12, 8))) == Hex(11, 14, 14, 8, 10, 2, 3, 2);
    assert Step4(Hex(12, 10, 11, 3, 10, 10, 12, 8)) == Hex(14, 7, 5, 8, 7, 4, 11, 12);
    assert StepHex(StepHex(Hex(14, 7, 5, 8, 7, 4, 11, 12))) == Hex(7, 2, 10, 13, 7, 2, 0, 11);
  }

  lemma Feed4()
    ensures FeedHex(Hex(13, 4, 0, 13, 4, 8, 15, 14), 4, 3) == Hex(1, 1, 11, 0, 5, 12, 9, 0)
  {
    assert Mix(Hex(13, 4, 0, 13, 4, 8, 15, 14), 4, 3) == Hex(9, 7, 0, 13, 4, 8, 15, 14);
    assert StepHex(StepHex(Hex(9, 7, 0, 13, 4, 8, 15, 14))) == Hex(2, 10, 9, 2, 10, 9, 10, 7);
    assert Step4(Hex(9, 7, 0, 13, 4, 8, 15, 14)) == Hex(0, 1, 1, 11, 0, 5, 12, 9);
    assert StepHex(StepHex(Hex(0, 1, 1, 11, 0, 5, 12, 9))) == Hex(4, 4, 12, 2, 4, 1, 7, 2);
  }

  lemma Feed5()
    ensures FeedHex(Hex(1, 1, 11, 0, 5, 12, 9, 0), 5, 3) == Hex(10, 12, 12, 13, 14, 2, 7, 14)
  {
    assert Mix(Hex(1, 1, 11, 0, 5, 12, 9, 0), 5, 3) == Hex(4, 2, 11, 0, 5, 12, 9, 0);
    assert StepHex(StepHex(Hex(4, 2, 11, 0, 5, 12, 9, 0))) == Hex(9, 12, 2, 4, 1, 7, 2, 0);
    assert Step4(Hex(4, 2, 11, 0, 5, 12, 9, 0)) == Hex(14, 0, 13, 4, 7, 14, 1, 4);
    assert StepHex(StepHex(Hex(14, 0, 13, 4, 7, 14, 1, 4))) == Hex(11, 3, 8, 14, 15, 8, 2, 9);
  }

  lemma Feed6()
    ensures FeedHex(Hex(10, 12, 12, 13, 14, 2, 7, 14), 6, 3) == Hex(9, 7, 14, 8, 10, 12, 14, 11)
  {
    assert Mix(Hex(10, 12, 12, 13, 14, 2, 7, 14), 6, 3) == Hex(12, 15, 12, 13, 14, 2, 7, 14);
    assert StepHex(StepHex(Hex(12, 15, 12, 13, 14, 2, 7, 14))) == Hex(15, 3, 7, 11, 11, 12, 9, 3);
    assert Step4(Hex(12, 15, 12, 13, 14, 2, 7, 14)) == Hex(11, 0, 11, 12, 15, 15, 13, 12);
    assert StepHex(StepHex(Hex(11, 0, 11, 12, 15, 15, 13, 12))) == Hex(6, 0, 4, 13, 2, 15, 0, 15);
  }

  lemma Feed7()
    ensures FeedHex(Hex(9, 7, 14, 8, 10, 12, 14, 11), 7, 3) == Hex(5, 1, 8, 6, 13, 11, 13, 14)
  {
    assert Mix(Hex(9, 7, 14, 8, 10, 12, 14, 11), 7, 3) == Hex(14, 4, 14, 8, 10, 12, 14, 11);
    assert StepHex(StepHex(Hex(14, 4, 14, 8, 10, 12, 14, 11))) == Hex(11, 14, 8, 9, 4, 4, 13, 10);
    assert Step4(Hex(14, 4, 14, 8, 10, 12, 14, 11)) == Hex(14, 15, 0, 0, 12, 13, 8, 14);
    assert StepHex(StepHex(Hex(14, 15, 0, 0, 12, 13, 8, 14))) == Hex(7, 4, 11, 3, 1, 12, 8, 11);
  }

  lemma Feed8()
    ensures FeedHex(Hex(5, 1, 8, 6, 13, 11, 13, 14), 8, 3) == Hex(5, 6, 15, 7, 8, 7, 15, 9)
  {
    assert Mix(Hex(5, 1, 8, 6, 13, 11, 13, 14), 8, 3) == Hex(13, 2, 8, 6, 13, 11, 13, 14);
    assert StepHex(StepHex(Hex(13, 2, 8, 6, 13, 11, 13, 14))) == Hex(7, 11, 7, 4, 4, 1, 10, 7);
    assert Step4(Hex(13, 2, 8, 6, 13, 11, 13, 14)) == Hex(9, 2, 7, 3, 8, 0, 13, 13);
    assert StepHex(StepHex(Hex(9, 2, 7, 3, 8, 0, 13, 13))) == Hex(6, 7, 0, 1, 9, 3, 6, 7);
  }

  lemma Feed9()
    ensures FeedHex(Hex(5, 6, 15, 7, 8, 7, 15, 9), 9, 3) == Hex(12, 7, 13, 6, 9, 15, 12, 1)
  {
    assert Mix(Hex(5, 6, 15, 7, 8, 7, 15, 9), 9, 3) == Hex(12, 5, 15, 7, 8, 7, 15, 9);
    assert StepHex(StepHex(Hex(12, 5, 15, 7, 8, 7, 15, 9))) == Hex(7, 13, 15, 1, 14, 13, 7, 2);
    assert Step4(Hex(12, 5, 15, 7, 8, 7, 15, 9)) == Hex(1, 3, 1, 10, 10, 7, 10, 12);
    assert StepHex(StepHex(Hex(1, 3, 1, 10, 10, 7, 10, 12))) == Hex(0, 15, 5, 11, 5, 14, 3, 7);
  }

  // The check value of CRC-32C.
  lemma CheckValue()
    ensures Crc32c([0x31, 0x32, 0x33, 0x34, 0x35, 0x36, 0x37, 0x38, 0x39]) == 0xE306_9283
  {
    hide UpdateNat, FeedHex, Crc32c;
    var s: seq<byte> := [0x31, 0x32, 0x33, 0x34, 0x35, 0x36, 0x37, 0x38, 0x39];
    CrcIsNat(s);
    Feed1();
    NextByte(Hex(15, 15, 15, 15, 15, 15, 15, 15), 1, s, 0);
    Feed2();
    NextByte(Hex(12, 1, 6, 6, 10, 0, 15, 6), 2, s, 1);
    Feed3();
    NextByte(Hex(15, 9, 11, 3, 10, 10, 12, 8), 3, s, 2);
    Feed4();
    NextByte(Hex(13, 4, 0, 13, 4, 8, 15, 14), 4, s, 3);
    Feed5();
    NextByte(Hex(1, 1, 11, 0, 5, 12, 9, 0), 5, s, 4);
    Feed6();
    NextByte(Hex(10, 12, 12, 13, 14, 2, 7, 14), 6, s, 5);
    Feed7();
    NextByte(Hex(9, 7, 14, 8, 10, 12, 14, 11), 7, s, 6);
    Feed8();
    NextByte(Hex(5, 1, 8, 6, 13, 11, 13, 14), 8, s, 7);
    Feed9();
    NextByte(Hex(5, 6, 15, 7, 8, 7, 15, 9), 9, s, 8);
    assert s[0..] == s;
    NothingLeft(Value(Hex(12, 7, 13, 6, 9, 15, 12, 1)), s);
  }

  lemma NextByte(w: Hex, low: nat, s: seq<byte>, i: nat)
    requires Valid(w) && low < 16 && i < |s| && s[i] == 0x30 + low
    ensures Valid(FeedHex(w, low, 3))
    ensures UpdateNat(Value(w), s[i..]) == UpdateNat(Value(FeedHex(w, low, 3)), s[i + 1..])
  {
    hide UpdateNat, FeedHex, Valid, Value;
    FeedValue(w, low, 3, s[i + 1..]);
    assert s[i..] == [16 * 3 + low] + s[i + 1..];
  }

  lemma NothingLeft(n: nat, s: seq<byte>)
    ensures UpdateNat(n, s[|s|..]) == n
  {
  }

  // ----- A record and a snapshot file, byte by byte -----

  // Record 1 with payload [7]: magic, flags First and Last, checksum, length,
  // sequence, payload. The checksum is of everything from the flags on, itself
  // left out.
  lemma OneFrame(max: nat)
    requires max >= 1
    ensures RecordBytes(1, [7], max)
         == [0x57, 0x41, 3] + BigEndian(Crc32c([3, 0, 0, 0, 1, 0, 0, 0, 0, 0, 0, 0, 1, 7]), 4)
            + [0, 0, 0, 1, 0, 0, 0, 0, 0, 0, 0, 1, 7]
  {
    hide Crc32c, BigEndian;
    var r := FragmentAt(1, [7], max, 0);
    assert Fragments(1, [7], max) == [r];
    assert Frames([r]) == Frame(r) + Frames([r][1..]);
    OneWords();
    assert Covered(3, 1, 1, [7]) == [3, 0, 0, 0, 1, 0, 0, 0, 0, 0, 0, 0, 1, 7];
    var crc := BigEndian(Crc32c(Covered(3, 1, 1, [7])), 4);
    assert r.data == [7] && r.flags == 3;
    assert Frame(r) == [0x57, 0x41, 3] + crc + [0, 0, 0, 1, 0, 0, 0, 0, 0, 0, 0, 1, 7];
    assert Frames([r]) == Frame(r);
  }

  lemma OneWords()
    ensures BigEndian(1, 4) == [0, 0, 0, 1] && BigEndian(1, 8) == [0, 0, 0, 0, 0, 0, 0, 1]
    ensures BigEndian(MAGIC, 2) == [0x57, 0x41] && BigEndian(9, 4) == [0, 0, 0, 9]
    ensures BigEndian(0xE306_9283, 4) == [0xE3, 0x06, 0x92, 0x83]
  {
  }

  // A snapshot file: magic, length, checksum, body.
  lemma OneSnapshot()
    ensures var body := [0x31, 0x32, 0x33, 0x34, 0x35, 0x36, 0x37, 0x38, 0x39];
            SnapshotFrame(body) == [0x57, 0x53, 0x4E, 0x50, 0, 0, 0, 9, 0xE3, 0x06, 0x92, 0x83] + body
  {
    hide Crc32c, BigEndian;
    CheckValue();
    OneWords();
  }
}
