/** Rounding onto IEEE 754 binary64, as Python's `/` on two ints, its
    int-to-float conversion and its float `*` perform it: the exact result
    is rounded to the nearest number with a 53-bit mantissa, ties to the
    even mantissa. Values are non-negative and the exponent is unbounded, so
    overflow to infinity and subnormal numbers are not modelled. */
module Binary64 {

  /** 2^52 and 2^53: a mantissa m satisfies Half <= m < Big. */
  const Half: real := 4503599627370496.0
  const Big: real := 9007199254740992.0

  /** 2^k. */
  function Pow2Nat(k: nat): (p: nat)
    ensures p >= 1
  {
    if k == 0 then 1 else 2 * Pow2Nat(k - 1)
  }

  /** x / 2^e, by halving (e > 0) or doubling (e < 0) |e| times. */
  function Scale(x: real, e: int): (r: real)
    ensures x >= 0.0 ==> r >= 0.0
    ensures x > 0.0 ==> r > 0.0
    decreases if e >= 0 then e else -e
  {
    if e == 0 then x
    else if e > 0 then Scale(x / 2.0, e - 1)
    else Scale(x * 2.0, e + 1)
  }

  /** The exponent e of the grid a positive x is rounded onto:
      Half <= x / 2^e < Big (proved in BinadeRange). */
  function Binade(x: real): int
    requires x > 0.0
    decreases if x >= Big then (x / Big).Floor else 0, if x < Half then (Half / x).Floor else 0
  {
    if x >= Big then
      assert (x / 2.0 / Big).Floor < (x / Big).Floor by { FloorHalves(x / Big); }
      Binade(x / 2.0) + 1
    else if x < Half then
      assert Half / (x * 2.0) == Half / x / 2.0;
      assert (Half / (x * 2.0)).Floor < (Half / x).Floor by { RatioAbove(x); FloorHalves(Half / x); }
      Binade(x * 2.0) - 1
    else 0
  }

  lemma RatioAbove(x: real)
    requires 0.0 < x < Half
    ensures Half / x >= 1.0
  {
    assert Half / x * x == Half;
  }

  lemma FloorHalves(y: real)
    requires y >= 1.0
    ensures (y / 2.0).Floor < y.Floor
  {
  }

  /** The nearest integer, ties to the even one. */
  function RoundTiesEven(y: real): int
  {
    var f := y.Floor;
    if y - f as real < 0.5 then f
    else if y - f as real > 0.5 then f + 1
    else if f % 2 == 0 then f
    else f + 1
  }

  /** x rounded to the nearest multiple of 2^e, ties to the even multiple. */
  function OnGrid(x: real, e: int): (r: real)
    requires x >= 0.0
    ensures r >= 0.0
  {
    RoundTiesEvenMono(0.0, Scale(x, e));
    RoundTiesEvenInt(0);
    Scale(RoundTiesEven(Scale(x, e)) as real, -e)
  }

  /** The binary64 number nearest to x, ties to the even mantissa. */
  function Round(x: real): (r: real)
    requires x >= 0.0
    ensures r >= 0.0
  {
    if x == 0.0 then 0.0 else OnGrid(x, Binade(x))
  }

  /** Python's `int()` of a non-negative float, which truncates. */
  function Trunc(v: real): nat
    requires v >= 0.0
  {
    v.Floor
  }

  // ---------------------------------------------------------------------
  // Scaling by powers of two

  lemma {:induction false} Pow2NatAdd(a: nat, b: nat)
    ensures Pow2Nat(a + b) == Pow2Nat(a) * Pow2Nat(b)
  {
    if b > 0 {
      Pow2NatAdd(a, b - 1);
    }
  }

  /** 2^(a+b) == c * 2^a when c is 2^b. */
  lemma Pow2NatTimes(a: nat, b: nat, c: nat)
    requires c == Pow2Nat(b)
    ensures Pow2Nat(a + b) == c * Pow2Nat(a)
  {
    Pow2NatAdd(a, b);
  }

  /** One more halving is a halving of the argument. */
  lemma ScaleHalf(x: real, e: int)
    ensures Scale(x, e + 1) == Scale(x / 2.0, e)
  {
  }

  lemma {:induction false} ScaleZero(e: int)
    ensures Scale(0.0, e) == 0.0
    decreases if e >= 0 then e else -e
  {
    if e > 0 {
      ScaleZero(e - 1);
    } else if e < 0 {
      ScaleZero(e + 1);
    }
  }

  lemma {:induction false} ScaleMono(x: real, z: real, e: int)
    requires x <= z
    ensures Scale(x, e) <= Scale(z, e)
    decreases if e >= 0 then e else -e
  {
    if e > 0 {
      ScaleMono(x / 2.0, z / 2.0, e - 1);
    } else if e < 0 {
      ScaleMono(x * 2.0, z * 2.0, e + 1);
    }
  }

  /** Scaling commutes with halving. */
  lemma {:induction false} ScaleHalfOut(x: real, e: int)
    ensures Scale(x / 2.0, e) == Scale(x, e) / 2.0
    decreases if e >= 0 then e else -e
  {
    if e > 0 {
      ScaleHalfOut(x / 2.0, e - 1);
    } else if e < 0 {
      ScaleHalfOut(x * 2.0, e + 1);
      assert x / 2.0 * 2.0 == x * 2.0 / 2.0;
    }
  }

  /** Scaling by 2^a and then by 2^b is scaling by 2^(a+b). */
  lemma {:induction false} ScaleAdd(x: real, a: int, b: int)
    ensures Scale(Scale(x, a), b) == Scale(x, a + b)
    decreases if b >= 0 then b else -b
  {
    if b > 0 {
      ScaleHalfOut(x, a);
      ScaleAdd(x / 2.0, a, b - 1);
      ScaleHalf(x, a + b - 1);
    } else if b < 0 {
      ScaleHalfOut(x * 2.0, a);
      assert x * 2.0 / 2.0 == x;
      ScaleAdd(x * 2.0, a, b + 1);
      ScaleHalf(x * 2.0, a + b);
    }
  }

  /** For x >= 0, dividing by a larger power of two gives less. */
  lemma {:induction false} ScaleDown(x: real, a: int, b: int)
    requires x >= 0.0 && a <= b
    ensures Scale(x, b) <= Scale(x, a)
    decreases b - a
  {
    if a < b {
      ScaleDown(x, a, b - 1);
      ScaleHalf(x, b - 1);
      ScaleHalfOut(x, b - 1);
    }
  }

  /** n * 2^k is an integer. */
  lemma {:induction false} ScaleInt(n: int, k: nat)
    ensures Scale(n as real, -(k as int)) == (n * Pow2Nat(k)) as real
    decreases k
  {
    if k > 0 {
      ScaleInt(2 * n, k - 1);
      assert (2 * n) * Pow2Nat(k - 1) == n * Pow2Nat(k);
    }
  }

  /** Dividing by 2^k for a natural k is division by the integer 2^k. */
  lemma {:induction false} ScaleDiv(x: real, k: nat)
    ensures Scale(x, k) == x / Pow2Nat(k) as real
    decreases k
  {
    if k > 0 {
      ScaleDiv(x / 2.0, k - 1);
    }
  }

  /** Multiplying by 2^k for a natural k is multiplication by the integer 2^k. */
  lemma {:induction false} ScaleMul(x: real, k: nat)
    ensures Scale(x, -(k as int)) == x * Pow2Nat(k) as real
    decreases k
  {
    if k > 0 {
      ScaleMul(x * 2.0, k - 1);
    }
  }

  // ---------------------------------------------------------------------
  // The binade

  /** x lies in the binade of its exponent. */
  lemma {:induction false} BinadeRange(x: real)
    requires x > 0.0
    ensures Half <= Scale(x, Binade(x)) < Big
    decreases if x >= Big then (x / Big).Floor else 0, if x < Half then (Half / x).Floor else 0
  {
    if x >= Big {
      assert (x / 2.0 / Big).Floor < (x / Big).Floor by { FloorHalves(x / Big); }
      BinadeRange(x / 2.0);
      ScaleHalf(x, Binade(x / 2.0));
    } else if x < Half {
      assert Half / (x * 2.0) == Half / x / 2.0;
      assert Half / x >= 1.0 by { RatioAbove(x); }
      assert (Half / (x * 2.0)).Floor < (Half / x).Floor by { FloorHalves(Half / x); }
      BinadeRange(x * 2.0);
      ScaleHalf(x * 2.0, Binade(x * 2.0) - 1);
    }
  }

  /** Above its exponent, x scales to below Half. */
  lemma AboveBinade(x: real, e: int)
    requires x > 0.0 && e > Binade(x)
    ensures Scale(x, e) < Half
  {
    var b := Binade(x);
    BinadeRange(x);
    ScaleDown(x, b + 1, e);
    ScaleHalf(x, b);
    ScaleHalfOut(x, b);
  }

  /** The exponent is the only one whose binade holds x. */
  lemma BinadeUnique(x: real, e: int)
    requires x > 0.0
    requires Half <= Scale(x, e) < Big
    ensures Binade(x) == e
  {
    var b := Binade(x);
    if b < e {
      AboveBinade(x, e);
    } else if b > e {
      BinadeRange(x);
      ScaleDown(x, e + 1, b);
      ScaleHalf(x, e);
      ScaleHalfOut(x, e);
    }
  }

  /** A larger number never has a smaller exponent. */
  lemma BinadeMono(x: real, z: real)
    requires 0.0 < x <= z
    ensures Binade(x) <= Binade(z)
  {
    var a, b := Binade(x), Binade(z);
    if a > b {
      BinadeRange(x);
      ScaleMono(x, z, a);
      AboveBinade(z, a);
    }
  }

  // ---------------------------------------------------------------------
  // Rounding

  lemma RoundTiesEvenMono(y: real, z: real)
    requires y <= z
    ensures RoundTiesEven(y) <= RoundTiesEven(z)
  {
  }

  lemma RoundTiesEvenInt(n: int)
    ensures RoundTiesEven(n as real) == n
  {
  }

  /** On one grid, rounding keeps order. */
  lemma GridMono(x: real, z: real, e: int)
    requires 0.0 <= x <= z
    ensures OnGrid(x, e) <= OnGrid(z, e)
  {
    ScaleMono(x, z, e);
    RoundTiesEvenMono(Scale(x, e), Scale(z, e));
    ScaleMono(RoundTiesEven(Scale(x, e)) as real, RoundTiesEven(Scale(z, e)) as real, -e);
  }

  /** A number below the top of a binade rounds to at most that top. */
  lemma GridTop(x: real, e: int)
    requires x >= 0.0 && Scale(x, e) < Big
    ensures OnGrid(x, e) <= Scale(Big, -e)
  {
    RoundTiesEvenMono(Scale(x, e), Big);
    RoundTiesEvenInt(0x20_0000_0000_0000);
    ScaleMono(RoundTiesEven(Scale(x, e)) as real, Big, -e);
  }

  /** A number at or above the bottom of a binade rounds to at least it. */
  lemma GridBottom(z: real, e: int)
    requires z >= 0.0 && Half <= Scale(z, e)
    ensures Scale(Half, -e) <= OnGrid(z, e)
  {
    RoundTiesEvenMono(Half, Scale(z, e));
    RoundTiesEvenInt(0x10_0000_0000_0000);
    ScaleMono(Half, RoundTiesEven(Scale(z, e)) as real, -e);
  }

  /** A multiple of the grid step rounds to itself. */
  lemma GridExact(x: real, e: int, n: int)
    requires x >= 0.0 && Scale(x, e) == n as real
    ensures OnGrid(x, e) == x
  {
    RoundTiesEvenInt(n);
    ScaleAdd(x, e, -e);
  }

  /** Rounding never reverses the order of two numbers. */
  lemma RoundMono(x: real, z: real)
    requires 0.0 <= x <= z
    ensures Round(x) <= Round(z)
  {
    if x > 0.0 {
      var a, b := Binade(x), Binade(z);
      BinadeMono(x, z);
      BinadeRange(x);
      BinadeRange(z);
      if a == b {
        GridMono(x, z, a);
      } else {
        // x rounds to at most the top of its binade, which is at most the
        // bottom of z's binade, and z rounds to at least that bottom
        GridTop(x, a);
        ScaleHalf(Big, -a - 1);
        ScaleDown(Half, -b, -a - 1);
        GridBottom(z, b);
      }
    }
  }

  /** A number n * 2^-j with n <= 2^53 is a binary64 number: rounding keeps it. */
  lemma RoundExact(n: nat, j: int)
    requires n <= 0x20_0000_0000_0000
    ensures Round(Scale(n as real, j)) == Scale(n as real, j)
  {
    var x := Scale(n as real, j);
    if n > 0 {
      var e := Binade(x);
      ScaleAdd(n as real, j, e);
      BinadeRange(x);
      if j + e > 0 {
        // x / 2^e is at most n / 2, so it is exactly Half
        ScaleDown(n as real, 1, j + e);
        GridExact(x, e, 0x10_0000_0000_0000);
      } else {
        var k: nat := -(j + e);
        ScaleInt(n, k);
        GridExact(x, e, n * Pow2Nat(k));
      }
    } else {
      ScaleZero(j);
    }
  }

  /** Natural numbers up to 2^53 are binary64 numbers. */
  lemma RoundNat(n: nat)
    requires n <= 0x20_0000_0000_0000
    ensures Round(n as real) == n as real
  {
    RoundExact(n, 0);
  }

  /** Python's `int(n / 2)` is `n // 2` for every n below 2^53. */
  lemma HalfTruncated(n: nat)
    requires n < 0x20_0000_0000_0000
    ensures Trunc(Round(n as real / 2.0)) == n / 2
  {
    RoundExact(n, 1);
  }

  /** The truncation of a binary64 number is a binary64 number, so
      `float(int(v))` gives back `int(v)` exactly. */
  lemma TruncExact(x: real)
    requires x >= 0.0
    ensures Round(Trunc(Round(x)) as real) == Trunc(Round(x)) as real
  {
    if x > 0.0 {
      var e := Binade(x);
      BinadeRange(x);
      var y := Scale(x, e);
      var n := RoundTiesEven(y);
      RoundTiesEvenMono(y, Big);
      RoundTiesEvenInt(0x20_0000_0000_0000);
      RoundTiesEvenMono(0.0, y);
      RoundTiesEvenInt(0);
      var v := Round(x);
      assert v == Scale(n as real, -e);
      if e >= 0 {
        ScaleInt(n, e);
        RoundExact(n, -e);
      } else {
        ScaleDown(n as real, 1, -e);
        RoundNat(Trunc(v));
      }
    }
  }

  /** Evaluating Round: x with x * 2^j in [Half, Big) rounds to the nearest
      multiple of 2^-j, ties to the even multiple; p is 2^j. */
  lemma RoundAt(x: real, j: nat, p: real, n: int)
    requires p == Pow2Nat(j) as real
    requires Half <= x * p < Big
    requires n as real <= x * p < n as real + 0.5
    ensures x > 0.0 && Round(x) == n as real / p
  {
    PositiveFactor(x, p);
    ScaleTimes(x, j, p);
    BinadeUnique(x, -(j as int));
    ScaleOver(n as real, j, p);
  }

  lemma PositiveFactor(x: real, p: real)
    requires p > 0.0 && x * p > 0.0
    ensures x > 0.0
  {
  }

  lemma ScaleTimes(x: real, j: nat, p: real)
    requires p == Pow2Nat(j) as real
    ensures Scale(x, -(j as int)) == x * p
  {
    ScaleMul(x, j);
  }

  lemma ScaleOver(x: real, j: nat, p: real)
    requires p == Pow2Nat(j) as real
    ensures Scale(x, j) == x / p
  {
    ScaleDiv(x, j);
  }

  // ---------------------------------------------------------------------
  // Float operations

  /** Python's `s / d` on two ints: the exact quotient, rounded. */
  function Quotient(s: nat, d: nat): (r: real)
    requires d > 0
    ensures r >= 0.0
  {
    Round(s as real / d as real)
  }

  /** Python's `a * b` on two non-negative floats: the exact product, rounded. */
  function Times(a: real, b: real): (r: real)
    requires a >= 0.0 && b >= 0.0
    ensures r >= 0.0
  {
    MulNonNegative(a, b);
    Round(a * b)
  }

  lemma QuotientZero(d: nat)
    requires d > 0
    ensures Quotient(0, d) == 0.0
  {
    assert 0 as real / d as real == 0.0;
  }

  /** A proper fraction rounds to at most 1.0. */
  lemma QuotientBelowOne(s: nat, d: nat)
    requires s < d
    ensures Quotient(s, d) <= 1.0
  {
    DivMono(s as real, d as real, d as real);
    RoundMono(s as real / d as real, 1.0);
    RoundNat(1);
  }

  lemma QuotientMono(s: nat, t: nat, d: nat)
    requires s <= t && d > 0
    ensures Quotient(s, d) <= Quotient(t, d)
  {
    DivMono(s as real, t as real, d as real);
    RoundMono(s as real / d as real, t as real / d as real);
  }

  lemma TimesMono(a: real, b: real, m: real)
    requires 0.0 <= a <= b && m >= 0.0
    ensures Times(a, m) <= Times(b, m)
  {
    MulMono(a, b, m);
    MulNonNegative(a, m);
    RoundMono(a * m, b * m);
  }

  lemma TimesZero(m: real)
    requires m >= 0.0
    ensures Times(0.0, m) == 0.0
  {
  }

  /** A float at most 1.0 times a float m gives at most m. */
  lemma TimesAtMost(a: real, m: real)
    requires 0.0 <= a <= 1.0 && m >= 0.0 && Round(m) == m
    ensures Times(a, m) <= m
  {
    MulMono(a, 1.0, m);
    MulNonNegative(a, m);
    RoundMono(a * m, m);
  }

  // ---------------------------------------------------------------------
  // Products and quotients of non-negative reals

  lemma MulMono(x: real, z: real, p: real)
    requires x <= z && p >= 0.0
    ensures x * p <= z * p
  {
  }

  lemma DivMono(x: real, z: real, p: real)
    requires x <= z && p > 0.0
    ensures x / p <= z / p
  {
  }

  lemma MulNonNegative(x: real, p: real)
    requires x >= 0.0 && p >= 0.0
    ensures x * p >= 0.0
  {
  }
}
