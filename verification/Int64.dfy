/**
 The wrapping 64-bit operators of hsh arithmetic (HshArithmetic.cpp). Each is written as the source
 writes it, on unsigned values turned back; the laws say which integer operation it is.
 */
module Int64 {
  const TWO63: int := 0x8000_0000_0000_0000
  const TWO64: int := 0x1_0000_0000_0000_0000

  type intmax = x: int | -0x8000_0000_0000_0000 <= x < 0x8000_0000_0000_0000
  type uintmax = x: int | 0 <= x < 0x1_0000_0000_0000_0000

  const INTMAX_MIN: intmax := -0x8000_0000_0000_0000
  const INTMAX_MAX: intmax := 0x7FFF_FFFF_FFFF_FFFF

  // ---- The source's operators --------------------------------------------------------------

  function U(v: intmax): uintmax
  {
    if v < 0 then v + TWO64 else v
  }

  function S(u: uintmax): intmax
  {
    if u < TWO63 then u else u - TWO64
  }

  function Add(a: intmax, b: intmax): intmax { S((U(a) + U(b)) % TWO64) }

  function Sub(a: intmax, b: intmax): intmax { S((U(a) - U(b)) % TWO64) }

  function Mul(a: intmax, b: intmax): intmax { S((U(a) * U(b)) % TWO64) }

  function Neg(a: intmax): intmax { S((0 - U(a)) % TWO64) }

  /** ~ on an unsigned value turns every one of its 64 bits over. */
  function BitNot(a: intmax): intmax { S(TWO64 - 1 - U(a)) }

  function And(a: intmax, b: intmax): intmax { S(Bitwise(AndBit, U(a), U(b), 64)) }

  function Xor(a: intmax, b: intmax): intmax { S(Bitwise(XorBit, U(a), U(b), 64)) }

  function Or(a: intmax, b: intmax): intmax { S(Bitwise(OrBit, U(a), U(b), 64)) }

  /** U(b) & 63. */
  function ShiftCount(b: intmax): nat
  {
    Bitwise(AndBit, U(b), 63, 64)
  }

  function ShiftLeft(a: intmax, b: intmax): intmax
  {
    S(UpBy(U(a), ShiftCount(b)) % TWO64)
  }

  function ShiftRight(a: intmax, b: intmax): intmax
  {
    var count := ShiftCount(b);
    if count == 0 then a
    else
      ShiftCountIs(b);
      DownBounds(U(a), count);
      var r := DownBy(U(a), count);
      if a < 0 then S(Bitwise(OrBit, r, UpBy(TWO64 - 1, 64 - count) % TWO64, 64)) else S(r)
  }

  /** C++'s division of two integers: it truncates. */
  function Truncated(a: int, b: int): int
    requires b != 0
  {
    if (a < 0) == (b < 0) then Abs(a) / Abs(b) else -(Abs(a) / Abs(b))
  }

  function Div(a: intmax, b: intmax): intmax
    requires b != 0
  {
    if a == INTMAX_MIN && b == -1 then INTMAX_MIN
    else
      TruncatedFits(a, b);
      Truncated(a, b)
  }

  function Mod(a: intmax, b: intmax): intmax
    requires b != 0
  {
    if a == INTMAX_MIN && b == -1 then 0
    else
      TruncatedFits(a, b);
      a - b * Truncated(a, b)
  }

  // ---- What they are made of ---------------------------------------------------------------

  function Abs(a: int): nat { if a < 0 then -a else a }

  function Pow2(n: nat): (p: nat)
    ensures p >= 1
  {
    if n == 0 then 1 else 2 * Pow2(n - 1)
  }

  /** x << n, before it is cut to the type's width. */
  function UpBy(x: int, n: nat): int { x * Pow2(n) }

  /** x >> n: the floor of x / 2^n. */
  function DownBy(x: int, n: nat): int { x / Pow2(n) }

  type bit = b: int | 0 <= b < 2 witness 0

  datatype BitOp = AndBit | XorBit | OrBit

  function OnBits(op: BitOp, x: bit, y: bit): bit
  {
    match op
    case AndBit => if x == 1 && y == 1 then 1 else 0
    case XorBit => if x != y then 1 else 0
    case OrBit => if x == 1 || y == 1 then 1 else 0
  }

  /** The operator on each of the `width` lowest bits. */
  function Bitwise(op: BitOp, x: nat, y: nat, width: nat): (r: nat)
    ensures r < Pow2(width)
    ensures width == 64 ==> r < TWO64
  {
    Pow2Of64();
    if width == 0 then 0 else OnBits(op, x % 2, y % 2) + 2 * Bitwise(op, x / 2, y / 2, width - 1)
  }

  /** Bit `i`, counted from the lowest. */
  function Bit(x: nat, i: nat): bit
  {
    if i == 0 then x % 2 else Bit(x / 2, i - 1)
  }

  lemma Pow2Of64()
    ensures Pow2(63) == TWO63 && Pow2(64) == TWO64
  {
    assert Pow2(7) == 128 && Pow2(8) == 256;
    hide Pow2;
    Pow2Adds(8, 8);
    Pow2Adds(16, 16);
    Pow2Adds(32, 32);
    Pow2Adds(8, 7);
    Pow2Adds(16, 15);
    Pow2Adds(32, 31);
  }

  lemma {:induction false} Pow2Adds(m: nat, n: nat)
    ensures Pow2(m + n) == Pow2(m) * Pow2(n)
  {
    if m > 0 {
      Pow2Adds(m - 1, n);
    }
  }

  lemma ProductNonNegative(x: int, y: int)
    requires 0 <= x && 0 <= y
    ensures 0 <= x * y
  {
  }

  lemma ProductMonotone(x: int, y: int, d: int)
    requires x <= y && 0 <= d
    ensures x * d <= y * d
  {
    ProductNonNegative(y - x, d);
    assert (y - x) * d == y * d - x * d;
  }

  /** No multiple of d but 0 lies strictly between -d and d. */
  lemma SmallMultiple(k: int, d: int)
    requires 0 < d && -d < k * d < d
    ensures k == 0
  {
    if k >= 1 {
      ProductMonotone(1, k, d);
    } else if k <= -1 {
      ProductMonotone(k, -1, d);
    }
  }

  lemma Euclid(x: int, d: int)
    requires 0 < d
    ensures x == (x / d) * d + x % d && 0 <= x % d < d
  {
  }

  /** Quotient and remainder are unique. */
  lemma DivUnique(x: int, d: int, q: int, r: int)
    requires 0 < d && x == q * d + r && 0 <= r < d
    ensures x / d == q && x % d == r
  {
    Euclid(x, d);
    var q', r' := x / d, x % d;
    assert (q - q') * d == r' - r;
    SmallMultiple(q - q', d);
  }

  lemma HalvedModulus(x: nat, p: nat)
    requires 0 < p
    ensures x % (2 * p) == x % 2 + 2 * ((x / 2) % p)
  {
    var q, r := (x / 2) / p, (x / 2) % p;
    assert x == 2 * (q * p + r) + x % 2;
    assert 2 * (q * p) == q * (2 * p);
    DivUnique(x, 2 * p, q, x % 2 + 2 * r);
  }

  // ---- Bitwise laws ------------------------------------------------------------------------

  /** Each bit of the result is the operator on the bits in its place. */
  lemma {:induction false} BitwiseAt(op: BitOp, x: nat, y: nat, width: nat, i: nat)
    requires i < width
    ensures Bit(Bitwise(op, x, y, width), i) == OnBits(op, Bit(x, i), Bit(y, i))
  {
    var r := Bitwise(op, x, y, width);
    assert r % 2 == OnBits(op, x % 2, y % 2) && r / 2 == Bitwise(op, x / 2, y / 2, width - 1);
    if i > 0 {
      BitwiseAt(op, x / 2, y / 2, width - 1, i - 1);
    }
  }

  lemma {:induction false} AndZero(x: nat, width: nat)
    ensures Bitwise(AndBit, x, 0, width) == 0
  {
    if width > 0 {
      AndZero(x / 2, width - 1);
    }
  }

  /** Masking with 2^k - 1 is the remainder by 2^k. */
  lemma {:induction false} MaskIsModulo(x: nat, k: nat, width: nat)
    requires k <= width
    ensures Bitwise(AndBit, x, Pow2(k) - 1, width) == x % Pow2(k)
  {
    if k == 0 {
      AndZero(x, width);
    } else {
      MaskIsModulo(x / 2, k - 1, width - 1);
      HalvedModulus(x, Pow2(k - 1));
      assert (Pow2(k) - 1) / 2 == Pow2(k - 1) - 1 && (Pow2(k) - 1) % 2 == 1;
    }
  }

  lemma {:induction false} OrZero(y: nat, width: nat)
    requires y < Pow2(width)
    ensures Bitwise(OrBit, 0, y, width) == y
  {
    if width > 0 {
      OrZero(y / 2, width - 1);
    }
  }

  /** Or-ing bits above the `k` lowest onto a number below 2^k adds them. */
  lemma {:induction false} OrDisjoint(x: nat, y: nat, k: nat, width: nat)
    requires x < Pow2(k) && x + y * Pow2(k) < Pow2(width)
    ensures Bitwise(OrBit, x, y * Pow2(k), width) == x + y * Pow2(k)
  {
    if k == 0 {
      OrZero(y, width);
    } else if width > 0 {
      assert y * Pow2(k) == 2 * (y * Pow2(k - 1));
      OrDisjoint(x / 2, y, k - 1, width - 1);
    }
  }

  lemma ShiftCountIs(b: intmax)
    ensures ShiftCount(b) == b % 64 < 64
  {
    hide Bitwise;
    MaskIsModulo(U(b), 6, 64);
    SixBits();
    UnsignedRemainder(b);
  }

  lemma SixBits()
    ensures Pow2(6) == 64 && Pow2(6) - 1 == 63
  {
  }

  lemma UnsignedRemainder(b: intmax)
    ensures b % 64 == U(b) % 64
  {
  }

  // ---- Wrapping ----------------------------------------------------------------------------

  /** The integer reduced to signed 64 bits. */
  function Wrap(x: int): (w: intmax)
  {
    S(x % TWO64)
  }

  /** Wrap(x) is the one signed 64-bit integer that differs from x by a multiple of 2^64. */
  lemma WrapIsReduction(x: int, w: intmax, k: int)
    ensures exists q :: Wrap(x) == x + q * TWO64
    ensures w == x + k * TWO64 ==> w == Wrap(x)
  {
    assert Wrap(x) == x + (if x % TWO64 < TWO63 then -(x / TWO64) else -(x / TWO64) - 1) * TWO64;
  }

  lemma Shifted(x: int, q: int)
    ensures Wrap(x + q * TWO64) == Wrap(x)
  {
    DivUnique(x + q * TWO64, TWO64, x / TWO64 + q, x % TWO64);
  }

  /** Adding or taking away 2^64 any number of times before wrapping changes nothing. */
  lemma SumWraps(x: int, i: int, y: int)
    requires y == x + i * TWO64
    ensures S(y % TWO64) == Wrap(x)
  {
    Shifted(x, i);
  }

  /** +, -, unary - and ~ are the integer operations reduced to 64 bits. */
  lemma AdditionWraps(a: intmax, b: intmax)
    ensures Add(a, b) == Wrap(a + b) && Sub(a, b) == Wrap(a - b)
    ensures Neg(a) == Wrap(-(a as int)) && BitNot(a) as int == -(a as int) - 1
  {
    var i, j := if a < 0 then 1 else 0, if b < 0 then 1 else 0;
    SumWraps(a + b, i + j, U(a) + U(b));
    SumWraps(a - b, i - j, U(a) - U(b));
    SumWraps(-(a as int), -i, 0 - U(a));
  }

  lemma MultiplicationWraps(a: intmax, b: intmax)
    ensures Mul(a, b) == Wrap(a * b)
  {
    var i, j := if a < 0 then 1 else 0, if b < 0 then 1 else 0;
    assert U(a) * U(b) == a * b + (i * b + j * a + i * j * TWO64) * TWO64;
    SumWraps(a * b, i * b + j * a + i * j * TWO64, U(a) * U(b));
  }

  /** << multiplies by 2^(b mod 64) and wraps. */
  lemma ShiftLeftWraps(a: intmax, b: intmax)
    ensures ShiftLeft(a, b) == Wrap(UpBy(a, b % 64))
  {
    hide UpBy, Pow2, ShiftCount;
    ShiftCountIs(b);
    if a < 0 {
      UpByWraps(a, b % 64);
      SumWraps(UpBy(a, b % 64), Pow2(b % 64), UpBy(U(a), b % 64));
    }
  }

  lemma UpByWraps(a: intmax, n: nat)
    requires a < 0
    ensures UpBy(U(a), n) == UpBy(a, n) + Pow2(n) * TWO64
  {
    hide Pow2;
    var p := Pow2(n);
    assert (a + TWO64) * p == a * p + p * TWO64;
  }

  /** A quotient by d of something below m * d is below m. */
  lemma QuotientBelow(x: nat, d: nat, m: nat)
    requires 0 < d && x < m * d
    ensures 0 <= x / d < m
  {
    Euclid(x, d);
    if x / d >= m {
      ProductMonotone(m, x / d, d);
    } else if x / d <= -1 {
      ProductMonotone(x / d, -1, d);
    }
  }

  lemma DownBounds(x: uintmax, count: nat)
    requires 0 < count < 64
    ensures 0 <= DownBy(x, count) < Pow2(64 - count) <= TWO63
  {
    assert Pow2(64 - count) * Pow2(count) == TWO64 && Pow2(64 - count) <= TWO63 by {
      Pow2Of64();
      Pow2Adds(64 - count, count);
      Pow2Adds(count - 1, 64 - count);
      ProductMonotone(1, Pow2(count - 1), Pow2(64 - count));
    }
    QuotientBelow(x, Pow2(count), Pow2(64 - count));
  }

  /** ~0 << (64 - c), reduced: the c highest bits. */
  lemma HighBits(p: nat, m: nat)
    requires 0 < p && 0 < m && p * m == TWO64
    ensures ((TWO64 - 1) * m) % TWO64 == (p - 1) * m == TWO64 - m
  {
    assert (p - 1) * m == p * m - m;
    assert (TWO64 - 1) * m == (m - 1) * TWO64 + (TWO64 - m);
    DivUnique((TWO64 - 1) * m, TWO64, m - 1, TWO64 - m);
  }

  /** Adding 2^64 = m * p before dividing by p adds m to the quotient. */
  lemma QuotientShifts(a: int, p: nat, m: nat)
    requires 0 < p
    ensures (a + m * p) / p == a / p + m
  {
    Euclid(a, p);
    assert a + m * p == (a / p + m) * p + a % p by {
      assert (a / p + m) * p == (a / p) * p + m * p;
    }
    DivUnique(a + m * p, p, a / p + m, a % p);
  }

  /** A negative dividend's floor by a power of two is negative and no smaller. */
  lemma NegativeFloor(a: int, n: nat)
    requires a < 0
    ensures a <= DownBy(a, n) < 0
  {
    var p := Pow2(n);
    Euclid(a, p);
    var q := a / p;
    assert (a - 1) * p <= a - p by {
      ProductMonotone(a, 0, p - 1);
      assert (a - 1) * p == a * (p - 1) + a - p;
    }
    if q >= 0 {
      ProductMonotone(0, q, p);
    } else if q < a {
      ProductMonotone(q, a - 1, p);
    }
  }

  /** The bits or-ed on above a negative number's shifted ones add 2^64 to its floor. */
  lemma NegativeShift(a: intmax, c: nat)
    requires a < 0 && 0 < c < 64
    ensures DownBy(U(a), c) >= 0
    ensures Bitwise(OrBit, DownBy(U(a), c), UpBy(TWO64 - 1, 64 - c) % TWO64, 64) == DownBy(a, c) + TWO64
  {
    var p, m := Pow2(c), Pow2(64 - c);
    assert p * m == TWO64 && m * p == TWO64 && Pow2(64) == TWO64 by { Pow2Of64(); Pow2Adds(c, 64 - c); }
    DownBounds(U(a), c);
    HighBits(p, m);
    QuotientShifts(a, p, m);
    assert DownBy(U(a), c) == DownBy(a, c) + m;
    assert UpBy(TWO64 - 1, 64 - c) % TWO64 == (p - 1) * m;
    hide DownBy, UpBy, Pow2, Bitwise;
    OrDisjoint(DownBy(U(a), c), p - 1, 64 - c, 64);
  }

  /** >> is the floor of the division by 2^(b mod 64). */
  lemma ShiftRightFloors(a: intmax, b: intmax)
    ensures ShiftRight(a, b) as int == DownBy(a, b % 64)
  {
    hide Bitwise, DownBy, UpBy, Pow2, ShiftCount;
    ShiftCountIs(b);
    var c := b % 64;
    if c == 0 {
      DownByNone(a);
    } else {
      DownBounds(U(a), c);
      if a < 0 {
        NegativeShift(a, c);
        NegativeFloor(a, c);
      }
    }
  }

  lemma DownByNone(a: int)
    ensures DownBy(a, 0) == a
  {
  }

  /** The quotient of two natural numbers is at most the dividend, at most half of it by 2 and more. */
  lemma QuotientSmall(n: nat, d: nat)
    requires 0 < d
    ensures 0 <= n / d <= n
    ensures 2 <= d ==> 2 * (n / d) <= n
  {
    Euclid(n, d);
    QuotientBelow(n, d, n + 1) by { ProductNonNegative(n, d - 1); assert (n + 1) * d == n * (d - 1) + n + d; }
    if 2 <= d {
      ProductNonNegative(n / d, d - 2);
      assert (n / d) * d == (n / d) * (d - 2) + 2 * (n / d);
    }
  }

  /** What is left over by truncating division has the dividend's sign. */
  lemma RemainderOf(a: int, b: int)
    requires b != 0
    ensures a - b * Truncated(a, b) == if a < 0 then -(Abs(a) % Abs(b)) else Abs(a) % Abs(b)
  {
    var n: int, d: int := Abs(a), Abs(b);
    var q := n / d;
    Euclid(n, d);
    assert b * q == if b < 0 then 0 - q * d else q * d;
    assert b * (0 - q) == if b < 0 then q * d else 0 - q * d;
  }

  /** Truncating division stays in range but for the one overflowing pair. */
  lemma TruncatedFits(a: intmax, b: intmax)
    requires b != 0 && !(a == INTMAX_MIN && b == -1)
    ensures INTMAX_MIN <= Truncated(a, b) <= INTMAX_MAX
    ensures INTMAX_MIN <= a - b * Truncated(a, b) <= INTMAX_MAX
    ensures Abs(a - b * Truncated(a, b)) < Abs(b)
  {
    QuotientSmall(Abs(a), Abs(b));
    RemainderOf(a, b);
    Euclid(Abs(a), Abs(b));
  }

  /** Wrapped, a product and a summand that add up to a value in range still do. */
  lemma Recombined(q: intmax, b: intmax, r: intmax, a: intmax, product: int)
    requires product == q * b && product + r == a
    ensures Add(Mul(q, b), r) == a
  {
    MultiplicationWraps(q, b);
    AdditionWraps(Mul(q, b), r);
    hide Mul, Add;
    WrapAdds(product, r);
    WrapInRange(a);
  }

  lemma OrdinaryDivision(a: intmax, b: intmax)
    requires b != 0 && !(a == INTMAX_MIN && b == -1)
    ensures Div(a, b) as int * b as int + Mod(a, b) as int == a as int && Abs(Mod(a, b)) < Abs(b)
  {
    TruncatedFits(a, b);
    var t := Truncated(a, b);
    assert t * b == b * t;
    hide Truncated;
  }

  /** Quotient times divisor plus remainder is the dividend, modulo 2^64, INTMAX_MIN / -1 included. */
  lemma DivisionIdentity(a: intmax, b: intmax)
    requires b != 0
    ensures Add(Mul(Div(a, b), b), Mod(a, b)) == a
    ensures !(a == INTMAX_MIN && b == -1) ==>
              Div(a, b) as int * b as int + Mod(a, b) as int == a as int && Abs(Mod(a, b)) < Abs(b)
  {
    if !(a == INTMAX_MIN && b == -1) {
      OrdinaryDivision(a, b);
      hide Div, Mod, Mul, Add;
      Recombined(Div(a, b), b, Mod(a, b), a, Div(a, b) as int * b as int);
    }
  }

  /** Wrapping before an addition that is wrapped changes nothing. */
  lemma WrapAdds(x: int, y: int)
    ensures Wrap(Wrap(x) + y) == Wrap(x + y)
  {
    WrapIsReduction(x, 0, 0);
    var q :| Wrap(x) == x + q * TWO64;
    Shifted(x + y, q);
  }

  /** An integer in range is its own reduction. */
  lemma WrapInRange(x: intmax)
    ensures Wrap(x) == x
  {
  }
}
