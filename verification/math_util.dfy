/** Scalar helpers of the math namespace: clamping, modulo, interpolation
    curves and power-of-two bit tricks. */
module MathUtil {

  /** Generic two-sided clamp `max(lo, min(hi, value))`, here on reals. */
  function Clamp(value: real, lo: real, hi: real): (r: real)
    ensures lo <= hi ==> lo <= r <= hi
    ensures lo <= value <= hi ==> r == value
    ensures value < lo ==> r == lo
    ensures lo <= hi && hi < value ==> r == hi
  {
    var m := if hi < value then hi else value;
    if lo < m then m else lo
  }

  /** Clamping twice with the same bounds changes nothing further. */
  lemma ClampIdempotent(value: real, lo: real, hi: real)
    requires lo <= hi
    ensures Clamp(Clamp(value, lo, hi), lo, hi) == Clamp(value, lo, hi)
  {
  }

  function Abs(m: int): (r: int)
    ensures r >= 0 && (r == m || r == -m)
  {
    if m < 0 then -m else m
  }

  /** `std::abs` on doubles. */
  function AbsReal(a: real): (r: real)
    ensures r >= 0.0 && (r == a || r == -a)
  {
    if a < 0.0 then -a else a
  }

  /** C++ `%` on integers: the remainder takes the sign of the dividend
      (division truncates toward zero), unlike Dafny's Euclidean `%`. */
  function TruncRem(n: int, m: int): (r: int)
    requires m != 0
    ensures n >= 0 ==> r == n % m
    ensures n < 0 ==> r == -((-n) % m)
  {
    if n >= 0 then n % m else -((-n) % m)
  }

  /** `((n % m) + m) % m` with C++ remainders. For a positive modulus it agrees
      with the mathematical (Euclidean) modulo; for a negative one it lies in (m, 0]. */
  function EuclideanModulo(n: int, m: int): (r: int)
    requires m != 0
    ensures m > 0 ==> 0 <= r < m && r == n % m
    ensures m < 0 ==> m < r <= 0
  {
    var a := TruncRem(n, m);
    var b := a + m;
    if m > 0 && n >= 0 then
      ModAddModulus(a, m);
      TruncRem(b, m)
    else if m > 0 then
      NegativeRemainder(n, m);
      TruncRem(b, m)
    else
      TruncRem(b, m)
  }

  /** Adding the modulus to a value in [0, m) does not change its remainder. */
  lemma ModAddModulus(a: int, m: int)
    requires 0 <= a < m
    ensures (a + m) % m == a
  {
    ModUnique(a + m, m, 1, a);
  }

  /** For negative n, `m - ((-n) % m)` (reduced once more) is the Euclidean remainder. */
  lemma NegativeRemainder(n: int, m: int)
    requires n < 0 < m
    ensures (m - (-n) % m) % m == n % m
  {
    var q := (-n) / m;
    var k := (-n) % m;
    assert -n == q * m + k;
    if k == 0 {
      ModUnique(m, m, 1, 0);
      ModUnique(n, m, -q, 0);
    } else {
      ModUnique(m - k, m, 0, m - k);
      assert n == (-q - 1) * m + (m - k);
      ModUnique(n, m, -q - 1, m - k);
    }
  }

  /** Quotient and remainder are unique. */
  lemma ModUnique(n: int, m: int, q: int, r: int)
    requires m > 0 && 0 <= r < m && n == q * m + r
    ensures n % m == r
  {
    var q' := n / m;
    var r' := n % m;
    assert (q - q') * m == r' - r;
    if q - q' >= 1 {
      MulMonotone(q - q', m);
    } else if q - q' <= -1 {
      MulMonotone(q' - q, m);
    }
  }

  lemma MulMonotone(k: int, m: int)
    requires k >= 1 && m > 0
    ensures k * m >= m
  {
  }

  /** Linear map of `x` from range [a1, a2] to range [b1, b2]: the point
      `(x, r)` lies on the line through `(a1, b1)` and `(a2, b2)`. */
  function MapLinear(x: real, a1: real, a2: real, b1: real, b2: real): (r: real)
    requires a1 != a2
    ensures (r - b1) * (a2 - a1) == (x - a1) * (b2 - b1)
  {
    var q := (x - a1) * (b2 - b1) / (a2 - a1);
    assert q * (a2 - a1) == (x - a1) * (b2 - b1);
    b1 + q
  }

  /** The range endpoints land on the target endpoints. */
  lemma MapLinearEndpoints(a1: real, a2: real, b1: real, b2: real)
    requires a1 != a2
    ensures MapLinear(a1, a1, a2, b1, b2) == b1
    ensures MapLinear(a2, a1, a2, b1, b2) == b2
  {
    assert (a2 - a1) * (b2 - b1) / (a2 - a1) == b2 - b1;
  }

  function Smoothstep(x: real, lo: real, hi: real): (r: real)
    ensures x <= lo ==> r == 0.0
    ensures lo < x && hi <= x ==> r == 1.0
    ensures 0.0 <= r <= 1.0
  {
    if x <= lo then 0.0
    else if x >= hi then 1.0
    else
      var t := (x - lo) / (hi - lo);
      UnitFraction(x - lo, hi - lo);
      SmoothstepBound(t);
      t * t * (3.0 - 2.0 * t)
  }

  function Smootherstep(x: real, lo: real, hi: real): (r: real)
    ensures x <= lo ==> r == 0.0
    ensures lo < x && hi <= x ==> r == 1.0
    ensures 0.0 <= r <= 1.0
  {
    if x <= lo then 0.0
    else if x >= hi then 1.0
    else
      var t := (x - lo) / (hi - lo);
      UnitFraction(x - lo, hi - lo);
      SmootherstepBound(t);
      t * t * t * (t * (t * 6.0 - 15.0) + 10.0)
  }

  /** The fraction of the way from `lo` to `hi` at which `p` sits: scaling the
      extent by it walks back to `p`, and for `lo < hi` it lies in `[0, 1]`
      exactly when `p` lies between the two. */
  lemma AxisFraction(p: real, lo: real, hi: real)
    requires lo != hi
    ensures lo + (p - lo) / (hi - lo) * (hi - lo) == p
    ensures lo < hi ==> (lo <= p <= hi <==> 0.0 <= (p - lo) / (hi - lo) <= 1.0)
  {
    var t := (p - lo) / (hi - lo);
    assert t * (hi - lo) == p - lo;
    if lo < hi {
      FractionBetween(p - lo, hi - lo, t);
    }
  }

  lemma FractionBetween(e: real, d: real, t: real)
    requires d > 0.0 && t * d == e
    ensures 0.0 <= e <= d <==> 0.0 <= t <= 1.0
  {
    if t < 0.0 {
      MulPos(-t, d);
      assert (-t) * d == -e;
    } else if t > 1.0 {
      MulAbove(t, d);
    } else {
      MulNonneg(t, d);
      MulNonneg(1.0 - t, d);
      assert (1.0 - t) * d == d - e;
    }
  }

  lemma UnitFraction(a: real, b: real)
    requires 0.0 < a < b
    ensures 0.0 < a / b < 1.0
  {
    var t := a / b;
    assert t * b == a;
    if t <= 0.0 {
      MulNonpositive(t, b);
    } else if t >= 1.0 {
      MulAtLeast(t, b);
    }
  }

  lemma MulNonpositive(t: real, b: real)
    requires t <= 0.0 < b
    ensures t * b <= 0.0
  {
  }

  lemma MulAtLeast(t: real, b: real)
    requires t >= 1.0 && b > 0.0
    ensures t * b >= b
  {
    assert t * b - b == (t - 1.0) * b;
  }

  lemma MulAbove(t: real, b: real)
    requires t > 1.0 && b > 0.0
    ensures t * b > b
  {
    MulPos(t - 1.0, b);
    assert t * b - b == (t - 1.0) * b;
  }

  lemma MulNonneg(a: real, b: real)
    requires a >= 0.0 && b >= 0.0
    ensures a * b >= 0.0
  {
  }

  lemma SquareNonneg(a: real)
    ensures a * a >= 0.0
  {
    if a < 0.0 {
      MulNonneg(-a, -a);
    } else {
      MulNonneg(a, a);
    }
  }

  lemma MulPos(a: real, b: real)
    requires a > 0.0 && b > 0.0
    ensures a * b > 0.0
  {
  }

  lemma SquarePositive(a: real)
    requires a != 0.0
    ensures a * a > 0.0
  {
    if a > 0.0 {
      MulPos(a, a);
    } else {
      MulPos(-a, -a);
    }
  }

  /** A sum of three squares is never negative, and positive unless all three are zero. */
  lemma SumOfSquaresPositive(a: real, b: real, c: real)
    ensures a * a + b * b + c * c >= 0.0
    ensures a != 0.0 || b != 0.0 || c != 0.0 ==> a * a + b * b + c * c > 0.0
  {
    SquareNonneg(a);
    SquareNonneg(b);
    SquareNonneg(c);
    if a != 0.0 {
      SquarePositive(a);
    } else if b != 0.0 {
      SquarePositive(b);
    } else if c != 0.0 {
      SquarePositive(c);
    }
  }

  lemma SquareOfDifference(a: real, b: real)
    ensures (a - b) * (a - b) == (b - a) * (b - a)
  {
  }

  lemma SmoothstepBound(t: real)
    requires 0.0 <= t <= 1.0
    ensures 0.0 <= t * t * (3.0 - 2.0 * t) <= 1.0
  {
    // 1 - t^2 (3 - 2t) = (1 - t)^2 (1 + 2t)
    assert 1.0 - t * t * (3.0 - 2.0 * t) == (1.0 - t) * (1.0 - t) * (1.0 + 2.0 * t);
    MulNonneg(1.0 - t, 1.0 - t);
    MulNonneg((1.0 - t) * (1.0 - t), 1.0 + 2.0 * t);
    MulNonneg(t, t);
    MulNonneg(t * t, 3.0 - 2.0 * t);
  }

  lemma SmootherstepBound(t: real)
    requires 0.0 <= t <= 1.0
    ensures 0.0 <= t * t * t * (t * (t * 6.0 - 15.0) + 10.0) <= 1.0
  {
    // 6t^2 - 15t + 10 has no real root, so it is positive
    var q := t * (t * 6.0 - 15.0) + 10.0;
    assert q == 6.0 * ((t - 1.25) * (t - 1.25)) + 0.625;
    SquareNonneg(t - 1.25);
    MulNonneg(t, t);
    MulNonneg(t * t, t);
    MulNonneg(t * t * t, q);
    // 1 - t^3 q = (1 - t)^3 (6t^2 + 3t + 1)
    var u := 1.0 - t;
    assert 1.0 - t * t * t * q == u * u * u * (6.0 * t * t + 3.0 * t + 1.0);
    MulNonneg(u, u);
    MulNonneg(u * u, u);
    MulNonneg(t * t, 6.0);
    MulNonneg(u * u * u, 6.0 * t * t + 3.0 * t + 1.0);
  }

  /** `1 << i` on a 32-bit integer. */
  function Bit(i: bv32): bv32
    requires i < 32
  {
    (1 as bv32) << i
  }

  /** `(value & (value - 1)) == 0 && value != 0` on a 32-bit integer. */
  predicate IsPowerOfTwo(value: bv32) {
    value & (value - 1) == 0 && value != 0
  }

  /** Exactly one bit set: the reference definition of a power of two. */
  ghost predicate SingleBit(value: bv32) {
    exists i: bv32 :: i < 32 && value == Bit(i)
  }

  /** The bit trick recognises exactly the single-bit values. */
  lemma IsPowerOfTwoIffSingleBit(value: bv32)
    ensures IsPowerOfTwo(value) <==> SingleBit(value)
  {
    if IsPowerOfTwo(value) {
      var i := Log2(value);
      assert value == Bit(i);
    }
    if SingleBit(value) {
      var i: bv32 :| i < 32 && value == Bit(i);
      assert value & (value - 1) == 0;
    }
  }

  /** Position of the only set bit of a power of two. */
  function Log2(value: bv32): (i: bv32)
    requires IsPowerOfTwo(value)
    ensures i < 32 && value == Bit(i)
    decreases value
  {
    if value == 1 then 0 else 1 + Log2(value >> 1)
  }

  /** ORs every right shift of `v0` into it: all bits below its highest set bit get set. */
  function Smear(v0: bv32): bv32 {
    var v1 := v0 | (v0 >> 1);
    var v2 := v1 | (v1 >> 2);
    var v3 := v2 | (v2 >> 4);
    var v4 := v3 | (v3 >> 8);
    v4 | (v4 >> 16)
  }

  /** The bit-smearing round-up: decrement, smear, increment.
      For values up to 2^30 it yields the least power of two not below the input. */
  function NextPowerOfTwo(value: bv32): (r: bv32)
    ensures 1 <= value <= 0x4000_0000 ==> IsPowerOfTwo(r) && value <= r < value << 1
  {
    if 1 <= value <= 0x4000_0000 then
      SmearIsPower(value);
      SmearAbove(value);
      SmearBelowDouble(value);
      Smear(value - 1) + 1
    else
      Smear(value - 1) + 1
  }

  lemma SmearIsPower(value: bv32)
    requires 1 <= value <= 0x4000_0000
    ensures IsPowerOfTwo(Smear(value - 1) + 1)
  {
  }

  lemma SmearAbove(value: bv32)
    requires 1 <= value <= 0x4000_0000
    ensures value <= Smear(value - 1) + 1
  {
  }

  lemma SmearBelowDouble(value: bv32)
    requires 1 <= value <= 0x4000_0000
    ensures Smear(value - 1) + 1 < value << 1
  {
  }

  /** Lagrange's identity in three dimensions: the Gram determinant of two vectors
      is the squared length of their cross product. */
  lemma Lagrange(x1: real, y1: real, z1: real, x2: real, y2: real, z2: real)
    ensures (x1 * x1 + y1 * y1 + z1 * z1) * (x2 * x2 + y2 * y2 + z2 * z2)
          - (x1 * x2 + y1 * y2 + z1 * z2) * (x1 * x2 + y1 * y2 + z1 * z2)
         == (y1 * z2 - z1 * y2) * (y1 * z2 - z1 * y2)
          + (z1 * x2 - x1 * z2) * (z1 * x2 - x1 * z2)
          + (x1 * y2 - y1 * x2) * (x1 * y2 - y1 * x2)
  {
  }

  /** Cauchy-Schwarz: `(a . b)^2 <= |a|^2 |b|^2`, a consequence of Lagrange's identity. */
  lemma CauchySchwarz(x1: real, y1: real, z1: real, x2: real, y2: real, z2: real)
    ensures (x1 * x2 + y1 * y2 + z1 * z2) * (x1 * x2 + y1 * y2 + z1 * z2)
         <= (x1 * x1 + y1 * y1 + z1 * z1) * (x2 * x2 + y2 * y2 + z2 * z2)
  {
    Lagrange(x1, y1, z1, x2, y2, z2);
    SquareNonneg(y1 * z2 - z1 * y2);
    SquareNonneg(z1 * x2 - x1 * z2);
    SquareNonneg(x1 * y2 - y1 * x2);
  }
}
