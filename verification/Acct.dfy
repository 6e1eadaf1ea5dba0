/** The compressed number formats of process accounting, kernel/acct.c. */
module Acct {

  function Pow(b: nat, n: nat): nat {
    if n == 0 then 1 else b * Pow(b, n - 1)
  }

  function Min(a: nat, b: nat): nat {
    if a <= b then a else b
  }

  // comp_t: a 13-bit fraction and a base-8 exponent in the upper 3 bits of 16.

  const MAXFRACT := 8191
  const COMP_MAX := 0xffff

  function DecodeComp(c: nat): nat {
    c % 8192 * Pow(8, c / 8192)
  }

  /** How often the value is divided by 8, and the fraction rounded half up on the last division (8192 if it overflows). */
  function Rounded(v: nat): (nat, nat) {
    if v <= MAXFRACT then (v, 0)
    else if v / 8 <= MAXFRACT then (v / 8 + (if v % 8 >= 4 then 1 else 0), 1)
    else
      var r := Rounded(v / 8);
      (r.0, r.1 + 1)
  }

  /** The code before it is cut off at the largest one. */
  function RawComp(v: nat): nat {
    var (m, e) := Rounded(v);
    if m > MAXFRACT then (e + 1) * 8192 + m / 8 else e * 8192 + m
  }

  lemma RoundedSmall(v: nat)
    requires v <= MAXFRACT
    ensures Rounded(v) == (v, 0)
  {
  }

  lemma RoundedStep(v: nat)
    requires v > MAXFRACT
    ensures v / 8 <= MAXFRACT ==> Rounded(v) == (v / 8 + (if v / 4 % 2 == 1 then 1 else 0), 1)
    ensures v / 8 > MAXFRACT ==> Rounded(v) == (Rounded(v / 8).0, Rounded(v / 8).1 + 1)
  {
    assert v % 8 >= 4 <==> v / 4 % 2 == 1;
  }

  /** The fraction uses all its bits once the value has been divided. */
  lemma {:induction false} RoundedRange(v: nat)
    ensures var (m, e) := Rounded(v); m <= 8192 && (e == 0 <==> v <= MAXFRACT) && (e == 0 ==> m == v) && (e > 0 ==> m >= 1024)
  {
    if v / 8 > MAXFRACT { RoundedRange(v / 8); }
  }

  /** encode_comp_t. */
  method EncodeComp(v: nat) returns (code: nat)
    ensures code == Min(RawComp(v), COMP_MAX)
  {
    hide Rounded;
    var value, exp, rnd := v, 0, false;
    if v <= MAXFRACT { RoundedSmall(v); }
    while value > MAXFRACT
      invariant value > MAXFRACT ==> Rounded(v) == (Rounded(value).0, Rounded(value).1 + exp)
      invariant value <= MAXFRACT ==> Rounded(v) == (value + (if rnd then 1 else 0), exp)
      invariant exp == 0 ==> !rnd
    {
      RoundedStep(value);
      rnd := value / 4 % 2 == 1;
      value := value / 8;
      exp := exp + 1;
    }
    RoundedRange(v);
    if rnd {
      value := value + 1;
      if value > MAXFRACT {
        value := value / 8;
        exp := exp + 1;
      }
    }
    if exp > COMP_MAX / 8192 {
      return COMP_MAX;
    }
    return exp * 8192 + value;
  }

  lemma RawStep(v: nat)
    requires v / 8 > MAXFRACT
    ensures RawComp(v) == RawComp(v / 8) + 8192
  {
  }

  lemma {:induction false} RawMonotone(v: nat, w: nat)
    requires v <= w
    ensures RawComp(v) <= RawComp(w)
    decreases w
  {
    RoundedRange(v);
    RoundedRange(w);
    if v / 8 > MAXFRACT {
      RawStep(v);
      RawStep(w);
      RawMonotone(v / 8, w / 8);
    } else if v > MAXFRACT && w / 8 > MAXFRACT {
      RoundedRange(w / 8);
    }
  }

  /** encode_comp_t is monotone, and no code is above the largest. */
  lemma CompMonotone(v: nat, w: nat)
    requires v <= w
    ensures Min(RawComp(v), COMP_MAX) <= Min(RawComp(w), COMP_MAX) <= COMP_MAX
  {
    RawMonotone(v, w);
  }

  /** By how much the rounded fraction misses the value: at most half a unit, and half only upwards. */
  lemma {:induction false} RoundedError(v: nat)
    requires v > MAXFRACT
    ensures var (m, e) := Rounded(v); 2 - Pow(8, e) <= 2 * (m * Pow(8, e) - v) <= Pow(8, e)
  {
    var q, d := v / 8, v % 8;
    if q <= MAXFRACT {
      assert Pow(8, 1) == 8 * Pow(8, 0);
    } else {
      RoundedError(q);
      var (m, e) := Rounded(q);
      var p := Pow(8, e);
      assert Pow(8, e + 1) == 8 * p;
      assert m * (8 * p) == 8 * (m * p);
      assert v == 8 * q + d;
    }
  }

  lemma RawDecodes(v: nat)
    ensures var (m, e) := Rounded(v); DecodeComp(RawComp(v)) == m * Pow(8, e)
  {
    RoundedRange(v);
    var (m, e) := Rounded(v);
    if m > MAXFRACT {
      var c := (e + 1) * 8192 + 1024;
      assert c / 8192 == e + 1 && c % 8192 == 1024;
      assert Pow(8, e + 1) == 8 * Pow(8, e);
    } else {
      var c := e * 8192 + m;
      assert c / 8192 == e && c % 8192 == m;
    }
  }

  /** A value that is not cut off decodes to within half a unit of the place where digits were dropped; a small one exactly. */
  lemma CompAccurate(v: nat)
    requires RawComp(v) <= COMP_MAX
    ensures var c := Min(RawComp(v), COMP_MAX); var unit := Pow(8, Rounded(v).1);
            && (v <= MAXFRACT ==> DecodeComp(c) == v)
            && 0 <= 2 * (DecodeComp(c) - v) + unit <= 2 * unit
  {
    RawDecodes(v);
    RoundedRange(v);
    if v > MAXFRACT { RoundedError(v); } else { assert Pow(8, 0) == 1; }
  }

  lemma PowPositive(b: nat, n: nat)
    requires b > 0
    ensures Pow(b, n) > 0
  {
  }

  lemma {:induction false} RoundedExact(m: nat, e: nat)
    requires m <= MAXFRACT && (e > 0 ==> m >= 1024)
    ensures Rounded(m * Pow(8, e)) == (m, e)
  {
    var p := Pow(8, e);
    if e == 0 {
      assert m * 1 == m;
    } else {
      var q := Pow(8, e - 1);
      assert m * p == 8 * (m * q) by { assert p == 8 * q; assert m * (8 * q) == 8 * (m * q); }
      var n := m * q;
      assert (8 * n) / 8 == n && (8 * n) % 8 == 0;
      RoundedExact(m, e - 1);
      if e == 1 {
        assert q == 1 && n == m;
      } else {
        assert n >= 8192 by { PowPositive(8, e - 2); assert q == 8 * Pow(8, e - 2); assert q >= 8; assert m * q >= 1024 * 8; }
      }
    }
  }

  /** Every normalised code is the encoding of what it decodes to. */
  lemma CompRoundTrip(c: nat)
    requires c < 8192 || c % 8192 >= 1024
    ensures RawComp(DecodeComp(c)) == c
  {
    RoundedExact(c % 8192, c / 8192);
  }

  /** Codes are cut off only for values above all that a code stands for. */
  lemma CompSaturates(v: nat)
    ensures RawComp(v) > COMP_MAX ==> v > DecodeComp(COMP_MAX)
  {
    CompRoundTrip(COMP_MAX);
    if v <= DecodeComp(COMP_MAX) { RawMonotone(v, DecodeComp(COMP_MAX)); }
  }

  // comp2_t: a 20-bit fraction whose leading bit is implied, and a base-2 exponent of 5 bits.

  const HALF2 := 0x80000        // 2^19
  const MAXFRACT2 := 0xfffff
  const COMP2_MAX := 0xffffff

  function DecodeComp2(c: nat): nat {
    if c < HALF2 then c else (c % HALF2 + HALF2) * Pow(2, c / HALF2 - 1)
  }

  function Rounded2(v: nat): (nat, nat) {
    if v <= MAXFRACT2 then (v, 0)
    else if v / 2 <= MAXFRACT2 then (v / 2 + v % 2, 1)
    else
      var r := Rounded2(v / 2);
      (r.0, r.1 + 1)
  }

  /** With the leading bit of the fraction counted into the exponent, the code is this sum. */
  function RawComp2(v: nat): nat {
    Rounded2(v).1 * HALF2 + Rounded2(v).0
  }

  lemma Rounded2Small(v: nat)
    requires v <= MAXFRACT2
    ensures Rounded2(v) == (v, 0)
  {
  }

  lemma Rounded2Step(v: nat)
    requires v > MAXFRACT2
    ensures v / 2 <= MAXFRACT2 ==> Rounded2(v) == (v / 2 + v % 2, 1)
    ensures v / 2 > MAXFRACT2 ==> Rounded2(v) == (Rounded2(v / 2).0, Rounded2(v / 2).1 + 1)
  {
  }

  /** encode_comp2_t. */
  method EncodeComp2(v: nat) returns (code: nat)
    ensures code == Min(RawComp2(v), COMP2_MAX)
  {
    hide Rounded2;
    var value, exp, rnd := v, if v > MAXFRACT2 / 2 then 1 else 0, 0;
    ghost var shifts := 0;
    if v <= MAXFRACT2 { Rounded2Small(v); }
    while value > MAXFRACT2
      invariant value > MAXFRACT2 ==> Rounded2(v) == (Rounded2(value).0, Rounded2(value).1 + shifts)
      invariant value <= MAXFRACT2 ==> Rounded2(v) == (value + rnd, shifts)
      invariant (shifts == 0 ==> rnd == 0 && value == v) && 0 <= rnd <= 1
      invariant exp == shifts + (if v > MAXFRACT2 / 2 then 1 else 0)
      invariant shifts > 0 ==> value >= HALF2 && v > MAXFRACT2
    {
      Rounded2Step(value);
      rnd := value % 2;
      value := value / 2;
      exp, shifts := exp + 1, shifts + 1;
    }
    ghost var m := value + rnd;
    assert RawComp2(v) == shifts * HALF2 + m;
    if rnd != 0 {
      value := value + 1;
      if value > MAXFRACT2 {
        value := value / 2;
        exp := exp + 1;
      }
    }
    if m == 2 * HALF2 {
      assert value == HALF2 && exp == shifts + 2 && RawComp2(v) == exp * HALF2;
    } else if m >= HALF2 {
      assert value == m && exp == shifts + 1 && RawComp2(v) == exp * HALF2 + (m - HALF2);
    }
    if exp > 31 {
      return COMP2_MAX;
    }
    return value % HALF2 + exp * HALF2;
  }

  lemma {:induction false} Rounded2Range(v: nat)
    ensures var (m, e) := Rounded2(v);
            m <= 2 * HALF2 && (e == 0 <==> v <= MAXFRACT2) && (e == 0 ==> m == v) && (e > 0 ==> m >= HALF2)
  {
    if v / 2 > MAXFRACT2 { Rounded2Range(v / 2); }
  }

  lemma {:induction false} Raw2Monotone(v: nat, w: nat)
    requires v <= w
    ensures RawComp2(v) <= RawComp2(w)
    decreases w
  {
    Rounded2Range(v);
    Rounded2Range(w);
    if v / 2 > MAXFRACT2 {
      Raw2Monotone(v / 2, w / 2);
    } else if v > MAXFRACT2 && w / 2 > MAXFRACT2 {
      Rounded2Range(w / 2);
    }
  }

  /** encode_comp2_t is monotone, and no code is above the largest. */
  lemma Comp2Monotone(v: nat, w: nat)
    requires v <= w
    ensures Min(RawComp2(v), COMP2_MAX) <= Min(RawComp2(w), COMP2_MAX) <= COMP2_MAX
  {
    Raw2Monotone(v, w);
  }

  lemma {:induction false} Rounded2Error(v: nat)
    requires v > MAXFRACT2
    ensures var (m, e) := Rounded2(v); 2 - Pow(2, e) <= 2 * (m * Pow(2, e) - v) <= Pow(2, e)
  {
    var q, d := v / 2, v % 2;
    if q <= MAXFRACT2 {
      assert Pow(2, 1) == 2 * Pow(2, 0);
    } else {
      Rounded2Error(q);
      var (m, e) := Rounded2(q);
      var p := Pow(2, e);
      assert Pow(2, e + 1) == 2 * p;
      assert m * (2 * p) == 2 * (m * p);
      assert v == 2 * q + d;
    }
  }

  lemma Raw2Decodes(v: nat)
    ensures var (m, e) := Rounded2(v); DecodeComp2(RawComp2(v)) == m * Pow(2, e)
  {
    Rounded2Range(v);
    var (m, e) := Rounded2(v);
    var c := e * HALF2 + m;
    if m == 2 * HALF2 {
      assert c == (e + 2) * HALF2 && c / HALF2 == e + 2 && c % HALF2 == 0;
      assert Pow(2, e + 1) == 2 * Pow(2, e);
    } else if m >= HALF2 {
      assert c == (e + 1) * HALF2 + (m - HALF2) && c / HALF2 == e + 1 && c % HALF2 == m - HALF2;
    } else {
      assert Pow(2, 0) == 1;
    }
  }

  /** The same accuracy for encode_comp2_t: half a unit of the last bit kept, and exact up to 20 bits. */
  lemma Comp2Accurate(v: nat)
    requires RawComp2(v) <= COMP2_MAX
    ensures var c := Min(RawComp2(v), COMP2_MAX); var unit := Pow(2, Rounded2(v).1);
            && (v <= MAXFRACT2 ==> DecodeComp2(c) == v)
            && 0 <= 2 * (DecodeComp2(c) - v) + unit <= 2 * unit
  {
    Raw2Decodes(v);
    Rounded2Range(v);
    if v > MAXFRACT2 { Rounded2Error(v); } else { assert Pow(2, 0) == 1; }
  }

  lemma {:induction false} Rounded2Exact(m: nat, e: nat)
    requires m <= MAXFRACT2 && (e > 0 ==> m >= HALF2)
    ensures Rounded2(m * Pow(2, e)) == (m, e)
  {
    var p := Pow(2, e);
    if e == 0 {
      assert m * 1 == m;
    } else {
      var q := Pow(2, e - 1);
      assert m * p == 2 * (m * q) by { assert p == 2 * q; assert m * (2 * q) == 2 * (m * q); }
      var n := m * q;
      assert (2 * n) / 2 == n && (2 * n) % 2 == 0;
      Rounded2Exact(m, e - 1);
      if e == 1 {
        assert q == 1 && n == m;
      } else {
        assert n > MAXFRACT2 by { PowPositive(2, e - 2); assert q == 2 * Pow(2, e - 2); assert q >= 2; assert m * q >= HALF2 * 2; }
      }
    }
  }

  /** Every code is the encoding of what it decodes to. */
  lemma Comp2RoundTrip(c: nat)
    ensures RawComp2(DecodeComp2(c)) == c
  {
    if c >= HALF2 {
      Rounded2Exact(c % HALF2 + HALF2, c / HALF2 - 1);
    }
  }

  /** Codes are cut off only for values above all that a code stands for. */
  lemma Comp2Saturates(v: nat)
    ensures RawComp2(v) > COMP2_MAX ==> v > DecodeComp2(COMP2_MAX)
  {
    Comp2RoundTrip(COMP2_MAX);
    if v <= DecodeComp2(COMP2_MAX) { Raw2Monotone(v, DecodeComp2(COMP2_MAX)); }
  }

  // A 32-bit IEEE float.

  const TOP := 0x8000_0000_0000_0000      // 2^63
  const IMPLIED := 0x80_0000              // 2^23

  /** The value of a float with sign bit 0 is n: section 3.4 of IEEE 754-2008, for zero and normal numbers. */
  predicate FloatIs(code: nat, n: nat) {
    if code == 0 then n == 0
    else
      var exp, fraction := code / IMPLIED, code % IMPLIED + IMPLIED;
      0 < exp < 255 && if exp >= 150 then n == fraction * Pow(2, exp - 150) else n * Pow(2, 150 - exp) == fraction
  }

  /** A value cut down to its 24 most significant bits. */
  function Truncate24(v: nat): nat {
    if v < 2 * IMPLIED then v else 2 * Truncate24(v / 2)
  }

  /** What the shifting and packing of encode_float come to, for a starting exponent. */
  function FloatCode(v: nat, exp: int): int
    requires 0 < v < 2 * TOP
    decreases 2 * TOP - v
  {
    if v >= TOP then exp * IMPLIED + v / 0x100_0000_0000 % IMPLIED else FloatCode(2 * v, exp - 1)
  }

  /** encode_float. */
  method EncodeFloat(v: nat) returns (code: int)
    requires v < 2 * TOP
    ensures code == if v == 0 then 0 else FloatCode(v, 190)
  {
    if v == 0 {
      return 0;
    }
    var value, exp := v, 190;
    while 0 < value < TOP
      invariant 0 < value < 2 * TOP && FloatCode(v, 190) == FloatCode(value, exp)
      decreases 2 * TOP - value
    {
      value := 2 * value;
      exp := exp - 1;
    }
    var u := value / 0x100_0000_0000 % IMPLIED;
    return u + exp * IMPLIED;
  }

  lemma DoubleProduct(p: nat, q: nat)
    requires p > 0
    ensures (2 * p) * q == 2 * (p * q) && p * q >= q
  {
  }

  /** Cutting off k bits one by one. */
  lemma {:induction false} TruncateShift(v: nat, k: nat, q: nat, r: nat)
    requires q >= IMPLIED && r < Pow(2, k) && v == Pow(2, k) * q + r
    ensures Truncate24(v) == Pow(2, k) * Truncate24(q)
    decreases k
  {
    if k > 0 {
      var p := Pow(2, k - 1);
      PowPositive(2, k - 1);
      DoubleProduct(p, q);
      var n := p * q;
      assert v == 2 * n + r && n >= q;
      assert v / 2 == n + r / 2;
      TruncateShift(v / 2, k - 1, q, r / 2);
      DoubleProduct(p, Truncate24(q));
    }
  }

  lemma {:induction false} PowAdd(b: nat, m: nat, n: nat)
    ensures Pow(b, m + n) == Pow(b, m) * Pow(b, n)
  {
    if m > 0 {
      PowAdd(b, m - 1, n);
      var x, y := Pow(b, m - 1), Pow(b, n);
      assert b * (x * y) == (b * x) * y;
    }
  }

  lemma Pow40()
    ensures Pow(2, 40) == 0x100_0000_0000
  {
    PowAdd(2, 20, 20);
    PowAdd(2, 10, 10);
    assert Pow(2, 10) == 1024;
  }

  /** A value that already fills 64 bits. */
  lemma FloatTop(v: nat)
    requires TOP <= v < 2 * TOP
    ensures FloatIs(FloatCode(v, 190), Truncate24(v))
  {
    Pow40();
    var q, r := v / 0x100_0000_0000, v % 0x100_0000_0000;
    assert IMPLIED <= q < 2 * IMPLIED;
    TruncateShift(v, 40, q, r);
    var code := 190 * IMPLIED + q % IMPLIED;
    assert q % IMPLIED == q - IMPLIED;
    assert code / IMPLIED == 190 && code % IMPLIED == q - IMPLIED;
  }

  /** How far a value has to be shifted to fill 64 bits. */
  function Lead(v: nat): nat
    requires 0 < v < 2 * TOP
    decreases 2 * TOP - v
  {
    if v >= TOP then 0 else 1 + Lead(2 * v)
  }

  lemma Pow63()
    ensures Pow(2, 63) == TOP
  {
    Pow40();
    PowAdd(2, 40, 23);
    PowAdd(2, 13, 10);
  }

  lemma {:induction false} LeadBound(v: nat, j: nat)
    requires 0 < v < 2 * TOP && j <= 63 && v >= Pow(2, j)
    ensures Lead(v) <= 63 - j
    decreases 63 - j
  {
    if v < TOP {
      if j == 63 {
        Pow63();
      } else {
        LeadBound(2 * v, j + 1);
      }
    }
  }

  /** Exponent and fraction of the code. */
  lemma {:induction false} FloatParts(v: nat, exp: int)
    requires 0 < v < 2 * TOP
    ensures var code := FloatCode(v, exp); code / IMPLIED == exp - Lead(v)
    ensures FloatCode(v, exp) + IMPLIED == FloatCode(v, exp + 1)
    decreases 2 * TOP - v
  {
    if v < TOP {
      FloatParts(2 * v, exp - 1);
    }
  }

  /** Halving the value of a float takes one from its exponent. */
  lemma FloatHalf(code: nat, n: nat, exp: nat)
    requires exp > 1 && code / IMPLIED == exp && FloatIs(code, 2 * n)
    ensures code >= IMPLIED && FloatIs(code - IMPLIED, n)
  {
    var c := code - IMPLIED;
    assert c / IMPLIED == exp - 1 && c % IMPLIED == code % IMPLIED;
    if exp > 150 {
      assert Pow(2, exp - 150) == 2 * Pow(2, exp - 151);
    } else {
      assert Pow(2, 151 - exp) == 2 * Pow(2, 150 - exp);
    }
  }

  /** encode_float yields the float whose value is the argument cut down to 24 significant bits. */
  lemma {:induction false} FloatAccurate(v: nat)
    requires 0 < v < 2 * TOP
    ensures FloatCode(v, 190) >= 0 && FloatIs(FloatCode(v, 190), Truncate24(v))
    decreases 2 * TOP - v
  {
    if v >= TOP {
      FloatTop(v);
    } else {
      FloatAccurate(2 * v);
      FloatParts(2 * v, 190);
      FloatParts(2 * v, 189);
      LeadBound(2 * v, 1);
      assert Truncate24(2 * v) == 2 * Truncate24(v);
      FloatHalf(FloatCode(2 * v, 190), Truncate24(v), 190 - Lead(2 * v));
    }
  }

  lemma {:induction false} TruncateFull(v: nat)
    ensures v >= IMPLIED ==> Truncate24(v) >= IMPLIED
  {
    if v >= 2 * IMPLIED { TruncateFull(v / 2); }
  }

  /** Cutting down keeps the order. */
  lemma {:induction false} TruncateMonotone(v: nat, w: nat)
    requires v <= w
    ensures Truncate24(v) <= Truncate24(w)
    decreases w
  {
    if v >= 2 * IMPLIED {
      TruncateMonotone(v / 2, w / 2);
    } else if w >= 2 * IMPLIED {
      TruncateFull(w / 2);
    }
  }
}
