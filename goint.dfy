/** Go's fixed-width integers and time values, written out over Dafny's
    unbounded integers. */
module GoInt {

  const TWO_64: int := 0x1_0000_0000_0000_0000
  const TWO_63: int := 0x8000_0000_0000_0000

  /** Go's uint64. */
  type U64 = x: int | 0 <= x < TWO_64

  /** Go's int (and int64) on a 64-bit platform. */
  type I64 = x: int | -TWO_63 <= x < TWO_63

  const MAX_I64: I64 := TWO_63 - 1
  const MIN_I64: I64 := -TWO_63

  /** uint64 addition, which wraps modulo 2^64. */
  function AddU64(a: U64, b: U64): U64 {
    (a + b) % TWO_64
  }

  /** uint64 subtraction, which wraps modulo 2^64. */
  function SubU64(a: U64, b: U64): (r: U64)
    ensures AddU64(b, r) == a
    ensures b <= a ==> r == a - b
    ensures a < b ==> r == a - b + TWO_64
  {
    (a - b) % TWO_64
  }

  /** The conversion int(u) of a uint64 to int: the same 64 bits read as two's complement. */
  function ToI64(u: U64): (r: I64)
    ensures u < TWO_63 ==> r == u
    ensures ToU64(r) == u
  {
    if u < TWO_63 then u else u - TWO_64
  }

  /** The conversion uint64(i) of an int to uint64. */
  function ToU64(i: I64): U64 {
    if i >= 0 then i else i + TWO_64
  }

  lemma {:induction false} ToI64Injective(a: U64, b: U64)
    ensures ToI64(a) == ToI64(b) <==> a == b
  {
    if ToI64(a) == ToI64(b) {
      assert ToU64(ToI64(a)) == a;
    }
  }

  /** Go's integer division, which truncates toward zero (Dafny's / is Euclidean):
      what is left over is smaller than the divisor in magnitude and, unless it is
      zero, has the sign of the dividend. */
  function GoQuot(a: int, b: int): (q: int)
    requires b != 0
    ensures a >= 0 && b > 0 ==> q == a / b
    ensures Abs(a - b * q) < Abs(b)
    ensures a - b * q == 0 || (a - b * q < 0) == (a < 0)
  {
    TruncatedDivision(a, b);
    var mag := Abs(a) / Abs(b);
    if (a < 0) == (b < 0) then mag else -mag
  }

  /** The quotient of the magnitudes, signed by the operands, leaves the remainder of
      the magnitudes, signed like the dividend. */
  lemma {:induction false} TruncatedDivision(a: int, b: int)
    requires b != 0
    ensures var mag := Abs(a) / Abs(b);
      var q := if (a < 0) == (b < 0) then mag else -mag;
      a - b * q == (if a < 0 then -(Abs(a) % Abs(b)) else Abs(a) % Abs(b))
  {
    var mag, m := Abs(a) / Abs(b), Abs(a) % Abs(b);
    var q := if (a < 0) == (b < 0) then mag else -mag;
    assert Abs(a) == Abs(b) * mag + m;
    if b > 0 {
      assert b * q == (if a < 0 then -(Abs(b) * mag) else Abs(b) * mag);
    } else {
      assert b + Abs(b) == 0;
      assert b * q == (if a < 0 then -(Abs(b) * mag) else Abs(b) * mag);
    }
  }

  /** Go's remainder: it completes Go's quotient to the dividend, is smaller than the
      divisor in magnitude, and is zero or has the sign of the dividend. */
  function GoRem(a: int, b: int): (r: int)
    requires b != 0
    ensures a == b * GoQuot(a, b) + r
    ensures Abs(r) < Abs(b)
    ensures r == 0 || (r < 0) == (a < 0)
    ensures a >= 0 && b > 0 ==> r == a % b
  {
    a - b * GoQuot(a, b)
  }

  /** The pair is unique: any quotient and remainder with these three properties are
      Go's. */
  lemma {:induction false} GoDivisionUnique(a: int, b: int, q: int, r: int)
    requires b != 0
    requires a == b * q + r && Abs(r) < Abs(b) && (r == 0 || (r < 0) == (a < 0))
    ensures q == GoQuot(a, b) && r == GoRem(a, b)
  {
    var q0, r0 := GoQuot(a, b), GoRem(a, b);
    assert b * (q - q0) == r0 - r;
    if q != q0 {
      MagnitudeAtLeast(b, q - q0);
      assert false;
    }
  }

  lemma {:induction false} MagnitudeAtLeast(b: int, d: int)
    requires b != 0 && d != 0
    ensures Abs(b * d) >= Abs(b)
  {
    var m, n: nat := Abs(b), Abs(d) - 1;
    assert m * n >= 0;
    assert Abs(b * d) == m * (n + 1) by {
      if b < 0 && d < 0 { assert b * d == (-b) * (-d); }
      else if b < 0 { assert b * d == -((-b) * d); }
      else if d < 0 { assert b * d == -(b * (-d)); }
    }
    assert m * (n + 1) == m + m * n;
  }

  function Abs(x: int): nat {
    if x < 0 then -x else x
  }

  /** An instant, in nanoseconds since Go's zero time (January 1, year 1, UTC). */
  type Instant = int

  /** Go's time.Time IsZero. */
  predicate IsZeroTime(t: Instant) {
    t == 0
  }

  /** Go's t.Sub(u): the elapsed nanoseconds, saturated to the range of time.Duration (int64). */
  function TimeSub(t: Instant, u: Instant): (d: I64)
    ensures MIN_I64 <= t - u <= MAX_I64 ==> d == t - u
    ensures t - u > MAX_I64 ==> d == MAX_I64
    ensures t - u < MIN_I64 ==> d == MIN_I64
  {
    if t - u > MAX_I64 then MAX_I64
    else if t - u < MIN_I64 then MIN_I64
    else t - u
  }
}
