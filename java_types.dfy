/** Java's primitive types as the interpreter uses them: 32-bit `int` cells,
    16-bit `char` script and string units, the `(char)` narrowing cast and
    `String.valueOf(int)`. */
module JavaTypes {

  const INT_MIN: int := -0x8000_0000
  const INT_MAX: int := 0x7FFF_FFFF
  const INT_RANGE: int := 0x1_0000_0000
  const CHAR_RANGE: int := 0x1_0000

  /** A Java `int`. */
  type Int32 = x: int | -0x8000_0000 <= x <= 0x7FFF_FFFF

  /** A Java `char`: one UTF-16 code unit. Java strings and `char[]` arrays are
      sequences of these. */
  type JChar = x: int | 0 <= x < 0x1_0000

  /** The `int` that a 32-bit two's-complement machine holds for `v`. */
  function Wrap32(v: int): (r: Int32)
    ensures (r - v) % INT_RANGE == 0
  {
    (v - INT_MIN) % INT_RANGE + INT_MIN
  }

  /** `x++` on a Java `int`: wraps from the largest value to the smallest. */
  function Increment(x: Int32): (r: Int32)
    ensures r == Wrap32(x + 1)
  {
    if x == INT_MAX then INT_MIN else x + 1
  }

  /** `x--` on a Java `int`: wraps from the smallest value to the largest. */
  function Decrement(x: Int32): (r: Int32)
    ensures r == Wrap32(x - 1)
  {
    if x == INT_MIN then INT_MAX else x - 1
  }

  lemma IncrementDecrementInverse(x: Int32)
    ensures Decrement(Increment(x)) == x
    ensures Increment(Decrement(x)) == x
  {
  }

  /** The `(char) i` cast: keeps the low 16 bits of `i`. */
  function ToChar(i: int): (c: JChar)
    ensures (c - i) % CHAR_RANGE == 0
  {
    i % CHAR_RANGE
  }

  lemma ToCharKeepsChars(c: JChar)
    ensures ToChar(c) == c
  {
  }

  // ---------------------------------------------------------------------
  // String.valueOf(int): decimal text with a leading '-' for negatives.

  const MINUS: JChar := '-' as int
  const ZERO: JChar := '0' as int

  predicate IsDigit(c: JChar) {
    ZERO <= c <= ZERO + 9
  }

  /** The decimal digits of `n`, most significant first, with no leading zero. */
  function DigitsOf(n: nat): (r: seq<JChar>)
    ensures |r| >= 1
    ensures forall k :: 0 <= k < |r| ==> IsDigit(r[k])
    ensures r[0] == ZERO ==> n == 0
    decreases n
  {
    if n < 10 then [ZERO + n] else DigitsOf(n / 10) + [ZERO + n % 10]
  }

  /** `String.valueOf(n)` for an `int` `n`. */
  function Decimal(n: int): (r: seq<JChar>)
    ensures |r| >= 1
    ensures r[0] == MINUS <==> n < 0
    ensures forall k :: (if n < 0 then 1 else 0) <= k < |r| ==> IsDigit(r[k])
  {
    if n < 0 then [MINUS] + DigitsOf(-n) else DigitsOf(n)
  }

  /** The value of a string of decimal digits (the reading direction of `Decimal`). */
  function ValueOfDigits(s: seq<JChar>): int
  {
    if s == [] then 0 else ValueOfDigits(s[..|s| - 1]) * 10 + (s[|s| - 1] - ZERO)
  }

  function ParseDecimal(s: seq<JChar>): int
  {
    if |s| > 0 && s[0] == MINUS then -ValueOfDigits(s[1..]) else ValueOfDigits(s)
  }

  lemma {:induction false} DigitsRoundTrip(n: nat)
    ensures ValueOfDigits(DigitsOf(n)) == n
    decreases n
  {
    if n >= 10 {
      var s := DigitsOf(n);
      assert s[..|s| - 1] == DigitsOf(n / 10);
      DigitsRoundTrip(n / 10);
    }
  }

  /** Reading back the decimal text of `n` gives `n`: the text determines the value. */
  lemma DecimalRoundTrip(n: int)
    ensures ParseDecimal(Decimal(n)) == n
  {
    if n < 0 {
      assert Decimal(n)[1..] == DigitsOf(-n);
      DigitsRoundTrip(-n);
    } else {
      DigitsRoundTrip(n);
    }
  }

  lemma DecimalInjective(a: int, b: int)
    ensures Decimal(a) == Decimal(b) ==> a == b
  {
    DecimalRoundTrip(a);
    DecimalRoundTrip(b);
  }

  /** The cell value 65 is printed as the two characters "65", not as 'A'. */
  lemma DecimalOfSixtyFive()
    ensures Decimal(65) == ['6' as int, '5' as int]
  {
    assert DigitsOf(6) == [ZERO + 6];
  }
}
