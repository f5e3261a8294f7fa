/** Modification times travel as integer microseconds, are stored through a float
    number of seconds, and are read back through `round(seconds * 1e6)`. Every float
    step is its exact result with a relative error of at most 2^-53, the bound of
    section 4.3.1 of IEEE 754-2019 for a correctly rounded binary64 operation. */
module Microseconds {
  import opened Common

  const UNIT: real := 1.0 / 9007199254740992.0
  const LIMIT := 2251799813685248

  ghost predicate RelativeError(e: real) { -UNIT <= e <= UNIT }

  function Abs(x: int): nat { if x < 0 then -x else x }

  // Python's round: to nearest, ties to even.
  function RoundHalfEven(x: real): int {
    var n := x.Floor;
    var d := x - n as real;
    if d < 0.5 then n
    else if d > 0.5 then n + 1
    else if n % 2 == 0 then n else n + 1
  }

  lemma RoundNearest(x: real, n: int)
    requires n as real - 0.5 < x < n as real + 0.5
    ensures RoundHalfEven(x) == n
  {
    assert x.Floor == n || x.Floor == n - 1;
  }

  lemma RoundBeyond(x: real, n: int)
    ensures x > n as real + 0.5 ==> RoundHalfEven(x) != n
    ensures x < n as real - 0.5 ==> RoundHalfEven(x) != n
  {
  }

  // us / 10^6, then * 10^6, each with its error.
  function Seconds(us: int, e: real): real { us as real / 1000000.0 * (1.0 + e) }

  function Scaled(seconds: real, e: real): real { seconds * 1000000.0 * (1.0 + e) }

  function ToMicroseconds(seconds: real, e: real): int {
    RoundHalfEven(Scaled(seconds, e))
  }

  lemma Distribute(x: real, e: real)
    ensures x * (1.0 + e) == x + x * e
  {
  }

  lemma Compound(x: real, a: real, b: real)
    ensures (x * a) * b == x * (a * b)
  {
  }

  lemma Scaling(q: real, a: real)
    ensures (q * a) * 1000000.0 == (q * 1000000.0) * a
  {
  }

  // The two float steps leave us off by one compound relative error.
  lemma Product(us: int, e1: real, e2: real)
    ensures Seconds(us, e1) * 1000000.0 == us as real * (1.0 + e1)
    ensures Scaled(Seconds(us, e1), e2) == us as real + us as real * (e1 + e2 + e1 * e2)
  {
    var x := us as real;
    Scaling(x / 1000000.0, 1.0 + e1);
    assert Seconds(us, e1) * 1000000.0 == x * (1.0 + e1);
    Compound(x, 1.0 + e1, 1.0 + e2);
    var e := e1 + e2 + e1 * e2;
    assert (1.0 + e1) * (1.0 + e2) == 1.0 + e by {
      Distribute(1.0 + e1, e2);
      Distribute(e2, e1);
    }
    Distribute(x, e);
  }

  lemma MulBounds(a: real, b: real, m: real, n: real)
    requires -m <= a <= m && -n <= b <= n && 0.0 <= m && 0.0 <= n
    ensures -(m * n) <= a * b <= m * n
  {
    var p := if a < 0.0 then -a else a;
    var q := if b < 0.0 then -b else b;
    assert p * q <= m * q <= m * n;
    assert a * b == p * q || a * b == -(p * q);
  }

  // The compound error of a division and a multiplication.
  const COMPOUND: real := 2.0 * UNIT + UNIT * UNIT

  lemma CompoundError(e1: real, e2: real)
    requires RelativeError(e1) && RelativeError(e2)
    ensures -COMPOUND <= e1 + e2 + e1 * e2 <= COMPOUND
  {
    MulBounds(e1, e2, UNIT, UNIT);
  }

  lemma LimitErrors()
    ensures (LIMIT - 1) as real * COMPOUND < 0.5 < LIMIT as real * COMPOUND
    ensures (LIMIT - 1) as real * UNIT < 0.25 && 1000000.0 * UNIT < 0.25
  {
  }

  lemma ErrorWithinLimit(us: int, e: real)
    requires Abs(us) < LIMIT && -COMPOUND <= e <= COMPOUND
    ensures -0.5 < us as real * e < 0.5
  {
    MulBounds(us as real, e, (LIMIT - 1) as real, COMPOUND);
    LimitErrors();
  }

  lemma Deviation(us: int, e1: real, e2: real) returns (d: real)
    requires Abs(us) < LIMIT && RelativeError(e1) && RelativeError(e2)
    ensures Scaled(Seconds(us, e1), e2) == us as real + d && -0.5 < d < 0.5
  {
    Product(us, e1, e2);
    CompoundError(e1, e2);
    var e := e1 + e2 + e1 * e2;
    ErrorWithinLimit(us, e);
    d := us as real * e;
  }

  lemma RoundTrip(us: int, e1: real, e2: real)
    requires Abs(us) < LIMIT && RelativeError(e1) && RelativeError(e2)
    ensures ToMicroseconds(Seconds(us, e1), e2) == us
  {
    var d := Deviation(us, e1, e2);
    RoundNearest(Scaled(Seconds(us, e1), e2), us);
  }

  lemma Scale(a: real, b: real, c: real)
    requires a <= b && 0.0 <= c
    ensures a * c <= b * c && -b * c <= -a * c
  {
  }

  lemma WorstCaseFails(us: int)
    requires Abs(us) >= LIMIT
    ensures ToMicroseconds(Seconds(us, UNIT), UNIT) != us
  {
    Product(us, UNIT, UNIT);
    LimitErrors();
    assert UNIT + UNIT + UNIT * UNIT == COMPOUND;
    if us > 0 {
      Scale(LIMIT as real, us as real, COMPOUND);
    } else {
      Scale(us as real, -(LIMIT as real), COMPOUND);
    }
    RoundBeyond(Scaled(Seconds(us, UNIT), UNIT), us);
  }

  // 2^51 is exact: the relative error alone guarantees the round trip of us
  // if and only if |us| < 2^51.
  lemma RoundTripExactly(us: int)
    ensures (forall e1, e2 :: RelativeError(e1) && RelativeError(e2) ==> ToMicroseconds(Seconds(us, e1), e2) == us)
            <==> Abs(us) < LIMIT
  {
    if Abs(us) < LIMIT {
      forall e1, e2 | RelativeError(e1) && RelativeError(e2) ensures ToMicroseconds(Seconds(us, e1), e2) == us {
        RoundTrip(us, e1, e2);
      }
    } else {
      WorstCaseFails(us);
      assert RelativeError(UNIT);
    }
  }

  // --- Storing through a timestamp -------------------------------------------

  // fromtimestamp: the fraction, split off exactly, is scaled and rounded by itself.
  function FromTimestamp(seconds: real, e: real): int {
    var whole := Truncate(seconds);
    whole * 1000000 + ToMicroseconds(seconds - whole as real, e)
  }

  // The scaled fraction, before its own rounding error.
  lemma Fraction(us: int, e: real, whole: int) returns (d: real)
    requires Abs(us) < LIMIT && RelativeError(e)
    ensures (Seconds(us, e) - whole as real) * 1000000.0 == (us - whole * 1000000) as real + d
    ensures -0.25 < d < 0.25
  {
    d := us as real * e;
    MulBounds(us as real, e, (LIMIT - 1) as real, UNIT);
    LimitErrors();
    Product(us, e, 0.0);
    Distribute(us as real, e);
  }

  lemma FractionError(y: real, e: real) returns (d: real)
    requires -1000000.0 < y < 1000000.0 && RelativeError(e)
    ensures y * (1.0 + e) == y + d && -0.25 < d < 0.25
  {
    d := y * e;
    MulBounds(y, e, 1000000.0, UNIT);
    LimitErrors();
    Distribute(y, e);
  }

  lemma StoredExactly(us: int, e1: real, e2: real)
    requires Abs(us) < LIMIT && RelativeError(e1) && RelativeError(e2)
    ensures FromTimestamp(Seconds(us, e1), e2) == us
  {
    var s := Seconds(us, e1);
    var whole := Truncate(s);
    var f := s - whole as real;
    assert -1.0 < f < 1.0;
    var d1 := Fraction(us, e1, whole);
    var d2 := FractionError(f * 1000000.0, e2);
    RoundNearest(Scaled(f, e2), us - whole * 1000000);
  }

  // The whole journey of a staged time: divided, stored as a timestamp, turned back
  // into seconds, and quantized again for the comparison and the digest.
  lemma StageStoreReadBack(us: int, e1: real, e2: real, e3: real, e4: real)
    requires Abs(us) < LIMIT
    requires RelativeError(e1) && RelativeError(e2) && RelativeError(e3) && RelativeError(e4)
    ensures ToMicroseconds(Seconds(FromTimestamp(Seconds(us, e1), e2), e3), e4) == us
  {
    StoredExactly(us, e1, e2);
    RoundTrip(us, e3, e4);
  }
}
