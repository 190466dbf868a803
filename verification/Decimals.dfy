/** Decimal text and 64-bit integers, as redigo prints and parses them. */
module Decimals {
  type Byte = b: int | 0 <= b < 256

  const TWO_63 := 0x8000_0000_0000_0000
  const TWO_64 := 0x1_0000_0000_0000_0000
  const MINUS: Byte := 45
  const ZERO: Byte := 48

  predicate Int64(n: int) { -TWO_63 <= n < TWO_63 }

  /** What a 64-bit register holds after a computation with result n. */
  function Wrap64(n: int): (r: int)
    ensures Int64(r)
  {
    (n + TWO_63) % TWO_64 - TWO_63
  }

  /** The decimal digits of n, most significant first. */
  function Decimal(n: nat): (r: seq<Byte>)
    ensures r != []
  {
    if n < 10 then [ZERO + n] else Decimal(n / 10) + [ZERO + n % 10]
  }

  /** strconv.AppendInt(nil, n, 10). */
  function DecimalInt(n: int): seq<Byte> {
    if n < 0 then [MINUS] + Decimal(-n) else Decimal(n)
  }

  predicate Digit(b: Byte) { ZERO <= b <= ZERO + 9 }

  predicate AllDigits(p: seq<Byte>) {
    forall k :: 0 <= k < |p| ==> Digit(p[k])
  }

  /** The number that decimal digits stand for, however long they are. */
  function Value(p: seq<Byte>): int {
    if p == [] then 0 else 10 * Value(p[..|p| - 1]) + p[|p| - 1] - ZERO
  }

  /** Digits stand for the number they were printed from. */
  lemma {:induction false} DecimalValue(n: nat)
    ensures AllDigits(Decimal(n)) && Value(Decimal(n)) == n
  {
    if n < 10 {
      assert [ZERO + n][..0] == [];
    } else {
      DecimalValue(n / 10);
      var r := Decimal(n);
      assert r[..|r| - 1] == Decimal(n / 10);
    }
  }

  /** A number below 10^k has at most k digits. */
  lemma {:induction false} DecimalLength(n: nat, k: nat)
    requires k > 0 && n < Pow10(k)
    ensures |Decimal(n)| <= k
  {
    if n >= 10 {
      DecimalLength(n / 10, k - 1);
    }
  }

  function Pow10(k: nat): nat {
    if k == 0 then 1 else 10 * Pow10(k - 1)
  }

  lemma Int64Digits(n: nat)
    requires n < TWO_63
    ensures |Decimal(n)| <= 19
  {
    assert Pow10(5) == 100_000;
    assert Pow10(10) == 10_000_000_000;
    assert Pow10(15) == 1_000_000_000_000_000;
    assert Pow10(19) == 10_000_000_000_000_000_000;
    DecimalLength(n, 19);
  }

  // ---- the parse loops: n *= 10, check the byte, n += digit, all modulo 2^64 ----

  /** One round of the loop keeps the register congruent to the unbounded value. */
  lemma WrapRound(v: int, d: int)
    ensures Wrap64(Wrap64(10 * Wrap64(v)) + d) == Wrap64(10 * v + d)
    ensures Wrap64(-Wrap64(v)) == Wrap64(-v)
  {
    var k := (v + TWO_63) / TWO_64;
    assert Wrap64(v) == v - k * TWO_64;
    WrapShift(10 * v, -10 * k);
    var j := (10 * v + TWO_63) / TWO_64;
    assert Wrap64(10 * v) == 10 * v - j * TWO_64;
    WrapShift(10 * v + d, -j);
    WrapShift(-v, k);
  }

  lemma WrapShift(v: int, k: int)
    ensures Wrap64(v + k * TWO_64) == Wrap64(v)
  {
    var q := (v + TWO_63) / TWO_64;
    var r := (v + TWO_63) % TWO_64;
    assert v + k * TWO_64 + TWO_63 == (q + k) * TWO_64 + r;
  }

  datatype Length = BadLength | Length(n: int)

  /** What parseLen returns: -1 for the null marker, otherwise the digits' value as a
      64-bit integer, whether or not it overflowed. */
  function ParseLength(p: seq<Byte>): Length {
    if p == [MINUS, ZERO + 1] then Length(-1)
    else if p != [] && AllDigits(p) then Length(Wrap64(Value(p)))
    else BadLength
  }

  /** parseLen. */
  method ParseLen(p: seq<Byte>) returns (r: Length)
    ensures r == ParseLength(p)
  {
    if |p| == 0 {
      return BadLength;
    }
    if p[0] == MINUS && |p| == 2 && p[1] == ZERO + 1 {
      return Length(-1);
    }
    var n := 0;
    for i := 0 to |p|
      invariant AllDigits(p[..i]) && n == Wrap64(Value(p[..i]))
    {
      n := Wrap64(10 * n);
      if !Digit(p[i]) {
        return BadLength;
      }
      n := Wrap64(n + p[i] - ZERO);
      assert p[..i + 1][..i] == p[..i];
      WrapRound(Value(p[..i]), p[i] - ZERO);
    }
    assert p[..|p|] == p;
    return Length(n);
  }

  datatype Integer = BadInteger | Integer(n: int)

  /** What parseInt returns. */
  function ParseInteger(p: seq<Byte>): Integer {
    var digits := if p != [] && p[0] == MINUS then p[1..] else p;
    if digits == [] || !AllDigits(digits) then BadInteger
    else if digits == p then Integer(Wrap64(Value(p)))
    else Integer(Wrap64(-Value(digits)))
  }

  /** parseInt. */
  method ParseInt(p: seq<Byte>) returns (r: Integer)
    ensures r == ParseInteger(p)
  {
    if |p| == 0 {
      return BadInteger;
    }
    var negate := false;
    var q := p;
    if q[0] == MINUS {
      negate := true;
      q := q[1..];
      if |q| == 0 {
        return BadInteger;
      }
    }
    var n := 0;
    for i := 0 to |q|
      invariant AllDigits(q[..i]) && n == Wrap64(Value(q[..i]))
    {
      n := Wrap64(10 * n);
      if !Digit(q[i]) {
        return BadInteger;
      }
      n := Wrap64(n + q[i] - ZERO);
      assert q[..i + 1][..i] == q[..i];
      WrapRound(Value(q[..i]), q[i] - ZERO);
    }
    assert q[..|q|] == q;
    if negate {
      WrapRound(Value(q), 0);
      n := Wrap64(-n);
    }
    return Integer(n);
  }

  /** parseLen inverts writeLen's digits exactly for the lengths that fit in an int. */
  lemma LengthRoundTrip(n: nat)
    ensures ParseLength(Decimal(n)) == Length(n) <==> n < TWO_63
  {
    DecimalValue(n);
    assert Decimal(n)[0] != MINUS;
  }

  /** parseLen's register, before and after the addition, never passes the final value. */
  lemma {:induction false} PartialValues(p: seq<Byte>, i: nat)
    requires AllDigits(p) && i <= |p|
    ensures 0 <= Value(p[..i]) <= Value(p)
    ensures i < |p| ==> 10 * Value(p[..i]) <= Value(p)
    decreases |p| - i
  {
    if i < |p| {
      PartialValues(p, i + 1);
      assert p[..i + 1][..i] == p[..i];
      NonNegative(p[..i]);
    } else {
      assert p[..i] == p;
      NonNegative(p);
    }
  }

  /** So on a length that writeLen printed no step of parseLen overflows. */
  lemma LengthParsesWithoutOverflow(n: nat, i: nat)
    requires n < TWO_63 && i < |Decimal(n)|
    ensures Int64(10 * Value(Decimal(n)[..i])) && Int64(Value(Decimal(n)[..i + 1]))
  {
    DecimalValue(n);
    PartialValues(Decimal(n), i);
    PartialValues(Decimal(n), i + 1);
  }

  lemma {:induction false} NonNegative(p: seq<Byte>)
    requires AllDigits(p)
    ensures Value(p) >= 0
  {
    if p != [] {
      NonNegative(p[..|p| - 1]);
    }
  }

  lemma WrapFits(n: int)
    ensures Wrap64(n) == n <==> Int64(n)
  {
  }

  /** parseInt inverts decimal printing exactly on the 64-bit integers, including -2^63,
      whose digits overflow the accumulator before the sign is applied. */
  lemma IntegerRoundTrip(n: int)
    ensures ParseInteger(DecimalInt(n)) == Integer(n) <==> Int64(n)
  {
    hide Value, Wrap64;
    DecimalValue(if n < 0 then -n else n);
    WrapFits(n);
    if n < 0 {
      assert DecimalInt(n)[1..] == Decimal(-n);
      assert DecimalInt(n) != Decimal(-n);
    } else {
      assert Decimal(n)[0] != MINUS;
    }
  }
}
