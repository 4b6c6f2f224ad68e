/**
 * The E2E checksum (mpu/someip/protocol.py crc8, MCU/src/can_gateway.cpp e2e_crc8): CRC-8
 * with polynomial 0x1D, initial value and final XOR 0xFF, and what it detects.
 */
module Crc {

  const POLY: bv8 := 0x1D
  const ONES: bv8 := 0xFF

  /** One bit of the register: multiplication by x modulo x^8 + x^4 + x^3 + x^2 + 1. */
  function Shift(c: bv8): bv8 {
    if c & 0x80 != 0 then (c << 1) ^ POLY else c << 1
  }

  function Shifts(c: bv8, n: nat): bv8
    decreases n
  {
    if n == 0 then c else Shifts(Shift(c), n - 1)
  }

  /** Addition of polynomials over GF(2). A name of its own keeps bit-level reasoning out of the algebra. */
  function Sum(a: bv8, b: bv8): bv8 {
    a ^ b
  }

  /** One message byte. */
  function Absorb(c: bv8, b: bv8): bv8 {
    Shifts(Sum(c, b), 8)
  }

  function Register(c: bv8, data: seq<bv8>): bv8
    decreases |data|
  {
    if data == [] then c else Register(Absorb(c, data[0]), data[1..])
  }

  function Crc8(data: seq<bv8>): bv8 {
    Register(ONES, data) ^ ONES
  }

  lemma {:induction false} ShiftsAdd(c: bv8, m: nat, n: nat)
    ensures Shifts(c, m + n) == Shifts(Shifts(c, m), n)
    decreases m
  {
    if m > 0 {
      ShiftsAdd(Shift(c), m - 1, n);
    }
  }

  lemma {:induction false} RegisterConcat(c: bv8, a: seq<bv8>, b: seq<bv8>)
    ensures Register(c, a + b) == Register(Register(c, a), b)
    decreases |a|
  {
    if a == [] {
      assert a + b == b;
    } else {
      assert (a + b)[1..] == a[1..] + b;
      RegisterConcat(Absorb(c, a[0]), a[1..], b);
    }
  }

  lemma {:induction false} RegisterSmall(c: bv8, a: bv8, b: bv8)
    ensures Register(c, [a]) == Absorb(c, a) && Register(c, [a, b]) == Absorb(Absorb(c, a), b)
  {
    hide Absorb;
    RegisterConcat(c, [a], [b]);
    assert [a, b] == [a] + [b] && [b][1..] == [] && [a][1..] == [];
  }

  /** The code's nested loops compute the register function. */
  method ComputeCrc8(data: seq<bv8>) returns (crc: bv8)
    ensures crc == Crc8(data)
  {
    crc := ONES;
    for i := 0 to |data|
      invariant crc == Register(ONES, data[..i])
    {
      ghost var before := crc;
      crc := crc ^ data[i];
      for k := 0 to 8
        invariant Absorb(before, data[i]) == Shifts(crc, 8 - k)
      {
        if crc & 0x80 != 0 {
          crc := (crc << 1) ^ POLY;
        } else {
          crc := crc << 1;
        }
      }
      RegisterConcat(ONES, data[..i], [data[i]]);
      assert data[..i + 1] == data[..i] + [data[i]];
    }
    assert data[..|data|] == data;
    crc := crc ^ ONES;
  }

  // ---- algebra of the register ----

  lemma ShiftLinear(a: bv8, b: bv8)
    ensures Shift(Sum(a, b)) == Sum(Shift(a), Shift(b))
  {
    if a & 0x80 == 0 {
      ShiftLinearPlain(a, b);
    } else if b & 0x80 == 0 {
      ShiftLinearPlain(b, a);
      SumCommutes(a, b);
      SumCommutes(Shift(a), Shift(b));
    } else {
      ShiftLinearBoth(a, b);
    }
  }

  lemma SumCommutes(a: bv8, b: bv8)
    ensures Sum(a, b) == Sum(b, a)
  {
  }

  lemma ShiftLinearPlain(a: bv8, b: bv8)
    requires a & 0x80 == 0
    ensures Shift(Sum(a, b)) == Sum(Shift(a), Shift(b))
  {
  }

  lemma ShiftLinearBoth(a: bv8, b: bv8)
    requires a & 0x80 != 0 && b & 0x80 != 0
    ensures Shift(Sum(a, b)) == Sum(Shift(a), Shift(b))
  {
  }

  lemma ShiftInjective(a: bv8, b: bv8)
    requires Shift(a) == Shift(b)
    ensures a == b
  {
  }

  lemma {:induction false} ShiftsLinear(a: bv8, b: bv8, n: nat)
    ensures Shifts(Sum(a, b), n) == Sum(Shifts(a, n), Shifts(b, n))
    decreases n
  {
    hide Shift, Sum;
    if n > 0 {
      ShiftLinear(a, b);
      ShiftsLinear(Shift(a), Shift(b), n - 1);
    }
  }

  lemma {:induction false} ShiftsInjective(a: bv8, b: bv8, n: nat)
    requires Shifts(a, n) == Shifts(b, n)
    ensures a == b
    decreases n
  {
    if n > 0 {
      ShiftsInjective(Shift(a), Shift(b), n - 1);
      ShiftInjective(a, b);
    }
  }

  lemma {:induction false} ShiftsZero(n: nat)
    ensures Shifts(0, n) == 0
    decreases n
  {
    if n > 0 {
      ShiftsZero(n - 1);
    }
  }

  /** Each message byte permutes the register states: different states stay different. */
  lemma AbsorbBijective(a: bv8, b: bv8, x: bv8)
    ensures Absorb(a, x) == Absorb(b, x) <==> a == b
  {
    if Absorb(a, x) == Absorb(b, x) {
      ShiftsInjective(Sum(a, x), Sum(b, x), 8);
    }
  }

  function Xor(a: seq<bv8>, b: seq<bv8>): (d: seq<bv8>)
    requires |a| == |b|
    ensures |d| == |a| && forall i :: 0 <= i < |d| ==> d[i] == Sum(a[i], b[i])
  {
    seq(|a|, i requires 0 <= i < |a| => Sum(a[i], b[i]))
  }

  /** Zero bytes. */
  function Blank(n: nat): (s: seq<bv8>)
    ensures |s| == n && forall i :: 0 <= i < n ==> s[i] == 0
  {
    seq(n, _ => 0)
  }

  /** What an error pattern leaves in the register: zero exactly when the checksum misses it. */
  function Syndrome(d: seq<bv8>): bv8 {
    Register(0, d)
  }

  lemma SumAssoc(a: bv8, b: bv8, c: bv8)
    ensures Sum(Sum(a, b), c) == Sum(a, Sum(b, c))
  {
  }

  lemma SumMix(a: bv8, b: bv8, x: bv8, y: bv8)
    ensures Sum(Sum(a, b), Sum(x, y)) == Sum(Sum(a, x), Sum(b, y))
  {
    hide Sum;
    SumAssoc(a, b, Sum(x, y));
    SumAssoc(b, x, y);
    SumCommutes(b, x);
    SumAssoc(x, b, y);
    SumAssoc(a, x, Sum(b, y));
  }

  lemma AbsorbLinear(a: bv8, b: bv8, x: bv8, y: bv8)
    ensures Absorb(Sum(a, b), Sum(x, y)) == Sum(Absorb(a, x), Absorb(b, y))
  {
    hide Shifts, Sum;
    SumMix(a, b, x, y);
    ShiftsLinear(Sum(a, x), Sum(b, y), 8);
  }

  lemma {:induction false} RegisterLinear(a: bv8, b: bv8, x: seq<bv8>, y: seq<bv8>)
    requires |x| == |y|
    ensures Register(Sum(a, b), Xor(x, y)) == Sum(Register(a, x), Register(b, y))
    decreases |x|
  {
    hide Absorb, Sum;
    if x != [] {
      assert Xor(x, y)[1..] == Xor(x[1..], y[1..]);
      AbsorbLinear(a, b, x[0], y[0]);
      RegisterLinear(Absorb(a, x[0]), Absorb(b, y[0]), x[1..], y[1..]);
    }
  }

  /** Affine linearity at every message length. */
  lemma CrcAffine(x: seq<bv8>, y: seq<bv8>)
    requires |x| == |y|
    ensures Crc8(Xor(x, y)) == Crc8(x) ^ Crc8(y) ^ Crc8(Blank(|x|))
  {
    hide Register;
    RegisterLinear(ONES, 0, x, y);
    RegisterLinear(ONES, 0, Blank(|x|), y);
    forall b: bv8 ensures Sum(b, 0) == b && Sum(0, b) == b {
      SumZero(b);
    }
    assert Xor(Blank(|x|), y) == y;
    AffineStep(Register(ONES, x), Register(0, y), Register(ONES, Blank(|x|)));
  }

  lemma SumZero(b: bv8)
    ensures Sum(b, 0) == b && Sum(0, b) == b && Sum(b, b) == 0
  {
  }

  lemma AffineStep(r: bv8, d: bv8, z: bv8)
    ensures Sum(r, d) ^ ONES == (r ^ ONES) ^ (Sum(z, d) ^ ONES) ^ (z ^ ONES)
  {
  }

  /** Two equal-length messages collide exactly when their difference has syndrome zero. */
  lemma CollideIff(x: seq<bv8>, y: seq<bv8>)
    requires |x| == |y|
    ensures Crc8(x) == Crc8(y) <==> Syndrome(Xor(x, y)) == 0
  {
    hide Register;
    var d := Xor(x, y);
    RegisterLinear(ONES, 0, y, d);
    forall i | 0 <= i < |x| ensures Sum(y[i], d[i]) == x[i] {
      SumCancel(x[i], y[i]);
    }
    assert Xor(y, d) == x;
    SumZero(ONES);
    SumDecides(Register(ONES, y), Syndrome(d));
  }

  lemma SumCancel(a: bv8, b: bv8)
    ensures Sum(b, Sum(a, b)) == a
  {
  }

  lemma SumDecides(r: bv8, d: bv8)
    ensures Sum(r, d) ^ ONES == r ^ ONES <==> d == 0
  {
  }

  lemma {:induction false} RegisterBlank(c: bv8, n: nat)
    ensures Register(c, Blank(n)) == Shifts(c, 8 * n)
    decreases n
  {
    if n > 0 {
      assert Blank(n)[1..] == Blank(n - 1);
      SumZero(c);
      RegisterBlank(Shifts(c, 8), n - 1);
      ShiftsAdd(c, 8, 8 * (n - 1));
    }
  }

  /** Zeros around an error pattern do not matter: they only permute its non-zero syndromes. */
  lemma SyndromeOfMiddle(before: nat, d: seq<bv8>, after: nat)
    ensures Syndrome(Blank(before) + d + Blank(after)) == 0 <==> Syndrome(d) == 0
  {
    RegisterConcat(0, Blank(before) + d, Blank(after));
    RegisterConcat(0, Blank(before), d);
    RegisterBlank(0, before);
    ShiftsZero(8 * before);
    RegisterBlank(Syndrome(d), after);
    ShiftsZero(8 * after);
    if Shifts(Syndrome(d), 8 * after) == 0 {
      ShiftsInjective(Syndrome(d), 0, 8 * after);
    }
  }

  // ---- bursts ----

  /** A non-zero error pattern of two neighbouring bytes that fits in eight consecutive bits, `r` bits into the first. */
  predicate Burst(d1: bv8, d2: bv8, r: nat)
    requires r <= 7
  {
    && (d1 != 0 || d2 != 0)
    && (r == 0 ==> d2 == 0)
    && (r == 1 ==> d1 & 0x80 == 0 && d2 & 0x7F == 0)
    && (r == 2 ==> d1 & 0xC0 == 0 && d2 & 0x3F == 0)
    && (r == 3 ==> d1 & 0xE0 == 0 && d2 & 0x1F == 0)
    && (r == 4 ==> d1 & 0xF0 == 0 && d2 & 0x0F == 0)
    && (r == 5 ==> d1 & 0xF8 == 0 && d2 & 0x07 == 0)
    && (r == 6 ==> d1 & 0xFC == 0 && d2 & 0x03 == 0)
    && (r == 7 ==> d1 & 0xFE == 0 && d2 & 0x01 == 0)
  }

  lemma {:induction false} ShiftsEight(c: bv8)
    ensures Shifts(c, 8) == Shift(Shift(Shift(Shift(Shift(Shift(Shift(Shift(c))))))))
  {
    hide Shift;
    var c4 := Shift(Shift(Shift(Shift(c))));
    assert Shifts(c, 8) == Shifts(Shift(Shift(c)), 6) == Shifts(c4, 4);
    assert Shifts(c4, 4) == Shifts(Shift(Shift(c4)), 2);
  }

  /** The register after the first byte of a burst never equals the second one. */
  lemma BurstStep(d1: bv8, d2: bv8, r: nat)
    requires r <= 7 && Burst(d1, d2, r)
    ensures Shift(Shift(Shift(Shift(Shift(Shift(Shift(Shift(d1)))))))) != d2
  {
  }

  /** Any error confined to eight consecutive bits, across a byte boundary or not, has a non-zero syndrome. */
  lemma BurstSyndrome(before: nat, d1: bv8, d2: bv8, after: nat, r: nat)
    requires r <= 7 && Burst(d1, d2, r)
    ensures Syndrome(Blank(before) + [d1, d2] + Blank(after)) != 0
  {
    hide Shifts, Shift;
    SyndromeOfMiddle(before, [d1, d2], after);
    RegisterSmall(0, d1, d2);
    SumZero(d1);
    var mid := Shifts(d1, 8);
    assert Syndrome([d1, d2]) == Shifts(Sum(mid, d2), 8);
    ShiftsEight(d1);
    BurstStep(d1, d2, r);
    ShiftsZero(8);
    if Shifts(Sum(mid, d2), 8) == 0 {
      ShiftsInjective(Sum(mid, d2), 0, 8);
      SumZeroEqual(mid, d2);
    }
  }

  lemma SumZeroEqual(a: bv8, b: bv8)
    ensures Sum(a, b) == 0 <==> a == b
  {
  }

  /** Any change of a single byte is detected, at every message length. */
  lemma ByteDetected(x: seq<bv8>, y: seq<bv8>, i: nat)
    requires |x| == |y| && i < |x| && x[i] != y[i]
    requires forall k :: 0 <= k < |x| && k != i ==> x[k] == y[k]
    ensures Crc8(x) != Crc8(y)
  {
    var d, e := Xor(x, y), x[i] ^ y[i];
    forall k | 0 <= k < |x| && k != i ensures d[k] == 0 {
      SumZero(x[k]);
    }
    assert d == Blank(i) + [e] + Blank(|x| - i - 1);
    SyndromeOfMiddle(i, [e], |x| - i - 1);
    RegisterSmall(0, e, e);
    SumZero(e);
    SumZeroEqual(x[i], y[i]);
    ShiftsZero(8);
    if Shifts(e, 8) == 0 {
      ShiftsInjective(e, 0, 8);
    }
    CollideIff(x, y);
  }

  /**
   * Burst detection at every message length: two messages that differ only within eight
   * consecutive bits, at byte `i` from bit `r` on, have different checksums. A burst of the
   * last byte's eight bits has no second byte.
   */
  lemma BurstDetected(x: seq<bv8>, y: seq<bv8>, i: nat, r: nat)
    requires |x| == |y| && i < |x| && r <= 7
    requires forall k :: 0 <= k < |x| && k != i && k != i + 1 ==> x[k] == y[k]
    requires Burst(x[i] ^ y[i], if i + 1 < |x| then x[i + 1] ^ y[i + 1] else 0, r)
    ensures Crc8(x) != Crc8(y)
  {
    if i + 1 < |x| {
      var d := Xor(x, y);
      forall k | 0 <= k < |x| && k != i && k != i + 1 ensures d[k] == 0 {
        SumZero(x[k]);
      }
      assert d == Blank(i) + [x[i] ^ y[i], x[i + 1] ^ y[i + 1]] + Blank(|x| - i - 2);
      BurstSyndrome(i, x[i] ^ y[i], x[i + 1] ^ y[i + 1], |x| - i - 2, r);
      CollideIff(x, y);
    } else {
      SumZeroEqual(x[i], y[i]);
      ByteDetected(x, y, i);
    }
  }

  // ---- the order of x ----

  /** x^k as a register value. */
  function Power(k: nat): bv8 {
    Shifts(1, k)
  }

  /** Squaring, bit by bit: x^i goes to x^(2i). */
  function Square(c: bv8): bv8 {
    (if c & 0x01 != 0 then 0x01 else 0) ^ (if c & 0x02 != 0 then 0x04 else 0)
    ^ (if c & 0x04 != 0 then 0x10 else 0) ^ (if c & 0x08 != 0 then 0x40 else 0)
    ^ (if c & 0x10 != 0 then 0x1D else 0) ^ (if c & 0x20 != 0 then 0x74 else 0)
    ^ (if c & 0x40 != 0 then 0xCD else 0) ^ (if c & 0x80 != 0 then 0x13 else 0)
  }

  lemma SquareShift(c: bv8)
    ensures Square(Shift(c)) == Shift(Shift(Square(c)))
  {
  }

  lemma PowerNext(k: nat)
    ensures Power(k + 1) == Shift(Power(k))
  {
    hide Shift;
    ShiftsAdd(1, k, 1);
    assert Shifts(Power(k), 1) == Shifts(Shift(Power(k)), 0);
  }

  lemma {:induction false} PowerDouble(k: nat)
    ensures Power(2 * k) == Square(Power(k))
    ensures Power(2 * k + 1) == Shift(Square(Power(k)))
    decreases k
  {
    if k > 0 {
      hide Square, Shift, Power;
      PowerDouble(k - 1);
      PowerNext(k - 1);
      PowerNext(2 * k - 2);
      PowerNext(2 * k - 1);
      SquareShift(Power(k - 1));
    }
    PowerNext(2 * k);
  }

  /** Square-and-shift chains to the exponents that decide the order. */
  lemma KnownPowers()
    ensures Power(0) == 1 && Power(255) == 1
    ensures Power(15) != 1 && Power(51) != 1 && Power(85) != 1
  {
    hide Power;
    assert Power(0) == 1 by { PowerZero(); }
    PowerDouble(0);   // 1
    PowerDouble(1);   // 2, 3
    PowerDouble(2);   // 5
    PowerDouble(3);   // 6, 7
    PowerDouble(5);   // 10
    PowerDouble(6);   // 12
    PowerDouble(7);   // 15
    PowerDouble(10);  // 21
    PowerDouble(12);  // 25
    PowerDouble(15);  // 31
    PowerDouble(21);  // 42
    PowerDouble(25);  // 51
    PowerDouble(31);  // 63
    PowerDouble(42);  // 85
    PowerDouble(63);  // 127
    PowerDouble(127); // 255
  }

  lemma PowerZero()
    ensures Power(0) == 1
  {
  }

  lemma {:induction false} PowerAdd(m: nat, n: nat)
    ensures Power(m + n) == Shifts(Power(m), n)
  {
    ShiftsAdd(1, m, n);
  }

  lemma {:induction false} PowerMultiple(g: nat, i: nat)
    requires Power(g) == 1
    ensures Power(g * i) == 1
    decreases i
  {
    hide Power;
    if i == 0 {
      assert g * i == 0;
      PowerZero();
    } else {
      PowerMultiple(g, i - 1);
      PowerAdd(g * (i - 1), g);
      PowerAdd(0, g);
      PowerZero();
      assert g * i == g * (i - 1) + g;
    }
  }

  /** Two exponents with power 1 have a common divisor with power 1 (subtractive Euclid). */
  lemma {:induction false} CommonPeriod(a: nat, b: nat) returns (g: nat, i: nat, j: nat)
    requires a > 0 && b > 0 && Power(a) == 1 && Power(b) == 1
    ensures 0 < g <= a && g <= b && Power(g) == 1 && a == g * i && b == g * j
    decreases a + b
  {
    hide Power;
    if a == b {
      g, i, j := a, 1, 1;
    } else if a < b {
      PeriodDifference(a, b);
      g, i, j := CommonPeriod(a, b - a);
      assert g * (i + j) == g * i + g * j;
      j := i + j;
    } else {
      PeriodDifference(b, a);
      g, i, j := CommonPeriod(a - b, b);
      assert g * (i + j) == g * i + g * j;
      i := i + j;
    }
  }

  lemma PeriodDifference(a: nat, b: nat)
    requires a <= b && Power(a) == 1 && Power(b) == 1
    ensures Power(b - a) == 1
  {
    hide Power;
    PowerZero();
    PowerAdd(b - a, a);
    PowerAdd(0, a);
    ShiftsInjective(Power(b - a), Power(0), a);
  }

  lemma ProductGrows(g: nat, j: nat, k: nat)
    requires j >= k
    ensures g * j >= g * k
  {
  }

  /** A proper divisor of 255 divides 15, 51 or 85. */
  lemma DivisorOf255(g: nat, j: nat)
    requires 0 < g < 255 && g * j == 255
    ensures 15 % g == 0 || 51 % g == 0 || 85 % g == 0
  {
    if g > 16 {
      assert j < 16 by {
        if j >= 16 {
          ProductGrows(g, j, 16);
        }
      }
      assert j == 1 || j == 2 || j == 3 || j == 4 || j == 5 || j == 6 || j == 7 || j == 8
          || j == 9 || j == 10 || j == 11 || j == 12 || j == 13 || j == 14 || j == 15 || j == 0;
    }
  }

  lemma PeriodDivides(g: nat, n: nat)
    requires g > 0 && Power(g) == 1 && n % g == 0
    ensures Power(n) == 1
  {
    hide Power;
    PowerMultiple(g, n / g);
  }

  lemma NoShortPeriod(r: nat)
    requires 0 < r < 255
    ensures Power(r) != 1
  {
    hide Power;
    KnownPowers();
    if Power(r) == 1 {
      var g, _, j := CommonPeriod(r, 255);
      DivisorOf255(g, j);
      if 15 % g == 0 {
        PeriodDivides(g, 15);
      } else if 51 % g == 0 {
        PeriodDivides(g, 51);
      } else {
        PeriodDivides(g, 85);
      }
    }
  }

  /** x has order exactly 255: the polynomial is primitive. */
  lemma Order(k: nat)
    ensures Power(k) == 1 <==> k % 255 == 0
  {
    hide Power;
    KnownPowers();
    var q, r := k / 255, k % 255;
    PowerMultiple(255, q);
    PowerAdd(255 * q, r);
    PowerAdd(0, r);
    if r > 0 {
      NoShortPeriod(r);
    }
  }

  lemma PowersEqual(p: nat, q: nat)
    requires p >= q
    ensures Power(p) == Power(q) <==> (p - q) % 255 == 0
  {
    hide Power;
    Order(p - q);
    PowerAdd(p - q, q);
    PowerAdd(0, q);
    PowerZero();
    if Power(p) == Power(q) {
      ShiftsInjective(Power(p - q), 1, q);
    }
  }

  // ---- two-bit errors ----

  /** The bit `k` places from the low end of a byte. */
  function Bit(k: nat): bv8
    requires k < 8
  {
    [0x01, 0x02, 0x04, 0x08, 0x10, 0x20, 0x40, 0x80][k]
  }

  /** An `n`-byte pattern whose only set bit is `p` bits from the end of the message. */
  function BitError(n: nat, p: nat): (d: seq<bv8>)
    requires p < 8 * n
    ensures |d| == n
  {
    Blank(n - 1 - p / 8) + [Bit(p % 8)] + Blank(p / 8)
  }

  /** The message with the bit `p` places from its end inverted. */
  function Flip(x: seq<bv8>, p: nat): (y: seq<bv8>)
    requires p < 8 * |x|
    ensures |y| == |x|
  {
    Xor(x, BitError(|x|, p))
  }

  lemma BitPower(k: nat)
    requires k < 8
    ensures Bit(k) == Power(k)
  {
    PowerZero();
    PowerNext(0);
    PowerNext(1);
    PowerNext(2);
    PowerNext(3);
    PowerNext(4);
    PowerNext(5);
    PowerNext(6);
  }

  lemma BitSyndrome(n: nat, p: nat)
    requires p < 8 * n
    ensures Syndrome(BitError(n, p)) == Power(p + 8)
  {
    hide Power, Shifts, Bit;
    var b, after := Bit(p % 8), p / 8;
    RegisterConcat(0, Blank(n - 1 - after) + [b], Blank(after));
    RegisterConcat(0, Blank(n - 1 - after), [b]);
    RegisterBlank(0, n - 1 - after);
    ShiftsZero(8 * (n - 1 - after));
    RegisterSmall(0, b, b);
    SumZero(b);
    RegisterBlank(Shifts(b, 8), after);
    BitPower(p % 8);
    PowerAdd(p % 8, 8);
    PowerAdd(p % 8 + 8, 8 * after);
  }

  lemma FlipsDifference(x: seq<bv8>, p: nat, q: nat)
    requires p < 8 * |x| && q < 8 * |x|
    ensures Xor(Flip(Flip(x, p), q), x) == Xor(BitError(|x|, p), BitError(|x|, q))
    ensures Xor(Flip(x, p), x) == BitError(|x|, p)
  {
    var d, e := BitError(|x|, p), BitError(|x|, q);
    forall i | 0 <= i < |x|
      ensures Sum(Sum(Sum(x[i], d[i]), e[i]), x[i]) == Sum(d[i], e[i]) && Sum(Sum(x[i], d[i]), x[i]) == d[i]
    {
      SumTwice(x[i], d[i], e[i]);
    }
  }

  lemma SumTwice(x: bv8, d: bv8, e: bv8)
    ensures Sum(Sum(Sum(x, d), e), x) == Sum(d, e) && Sum(Sum(x, d), x) == d
  {
  }

  lemma TwoBitSyndrome(n: nat, p: nat, q: nat)
    requires p < 8 * n && q < 8 * n && p > q
    ensures Syndrome(Xor(BitError(n, p), BitError(n, q))) == 0 <==> (p - q) % 255 == 0
  {
    hide Power, BitError, Sum;
    BitSyndrome(n, p);
    BitSyndrome(n, q);
    SumZero(0);
    RegisterLinear(0, 0, BitError(n, p), BitError(n, q));
    SumZeroEqual(Power(p + 8), Power(q + 8));
    PowersEqual(p + 8, q + 8);
  }

  /**
   * Exactly which two-bit errors go undetected, at every message length: those whose
   * distance is a multiple of 255 bits.
   */
  lemma TwoBitIff(x: seq<bv8>, p: nat, q: nat)
    requires q < p < 8 * |x|
    ensures Crc8(Flip(Flip(x, p), q)) == Crc8(x) <==> (p - q) % 255 == 0
  {
    hide Crc8, Syndrome, BitError, Xor;
    CollideIff(Flip(Flip(x, p), q), x);
    FlipsDifference(x, p, q);
    TwoBitSyndrome(|x|, p, q);
  }

  /** Up to 31 bytes every one- and two-bit error is detected. */
  lemma ShortMessages(x: seq<bv8>, p: nat, q: nat)
    requires |x| <= 31 && q < p < 8 * |x|
    ensures Crc8(Flip(Flip(x, p), q)) != Crc8(x) && Crc8(Flip(x, p)) != Crc8(x)
  {
    TwoBitIff(x, p, q);
    SingleBit(x, p);
  }

  lemma SingleBit(x: seq<bv8>, p: nat)
    requires p < 8 * |x|
    ensures Syndrome(BitError(|x|, p)) != 0 && Crc8(Flip(x, p)) != Crc8(x)
  {
    hide Power;
    BitSyndrome(|x|, p);
    PowerAdd(0, p + 8);
    PowerZero();
    ShiftsZero(p + 8);
    if Shifts(1, p + 8) == 0 {
      ShiftsInjective(1, 0, p + 8);
    }
    CollideIff(Flip(x, p), x);
    FlipsDifference(x, p, p);
  }

  // ---- known answers ----

  lemma {:induction false} RegisterThree(c: bv8, x: bv8, y: bv8, z: bv8)
    ensures Register(c, [x, y, z]) == Absorb(Absorb(Absorb(c, x), y), z)
  {
    hide Absorb;
    assert [x, y, z][1..] == [y, z];
    RegisterSmall(Absorb(c, x), y, z);
  }

  /** Two known answers from the AUTOSAR CRC Library, section "8-bit SAE J1850 CRC Calculation". */
  lemma StandardVectors()
    ensures Crc8([0xF2, 0x01, 0x83]) == 0x37
    ensures Crc8([0x92, 0x6B, 0x55]) == 0x8C
  {
    hide Shifts, Register;
    RegisterThree(ONES, 0xF2, 0x01, 0x83);
    ShiftsEight(Sum(ONES, 0xF2));
    ShiftsEight(Sum(0x81, 0x01));
    ShiftsEight(Sum(0x26, 0x83));
    RegisterThree(ONES, 0x92, 0x6B, 0x55);
    ShiftsEight(Sum(ONES, 0x92));
    ShiftsEight(Sum(0x15, 0x6B));
    ShiftsEight(Sum(0xFF, 0x55));
  }
}
