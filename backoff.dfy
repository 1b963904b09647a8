/** The exponential PIN lockout policy of the user account: exact integer powers,
    the lockout level of an attempt counter and the lockout duration of a level. */
module Backoff {

  const MAX_PIN_TRIES: int := 3
  const BACKOFF_FACTOR: int := 2
  const BACKOFF_START: int := 1

  /** Reference definition: a raised to the n-th power. */
  function Power(a: int, n: nat): int
  {
    if n == 0 then 1 else a * Power(a, n - 1)
  }

  /** Java's `b / 2` on an int: the quotient truncated toward zero. */
  function JavaHalf(b: int): (h: int)
    ensures b >= 0 ==> h == b / 2
    ensures b < 0 ==> h == -((-b) / 2)
  {
    if b >= 0 then b / 2 else -((-b) / 2)
  }

  function Magnitude(b: int): nat
  {
    if b < 0 then -b else b
  }

  /** The account's `pow`: exponentiation by squaring, as written, for every int exponent.
      Java's `b % 2 == 0` holds exactly when b is even, for either sign, like Dafny's. */
  function Pow(a: int, b: int): (r: int)
    ensures a >= 1 ==> r >= 1
    decreases Magnitude(b)
  {
    if b == 0 then 1
    else if b == 1 then a
    else if b % 2 == 0 then Pow(a * a, JavaHalf(b))
    else a * Pow(a * a, JavaHalf(b))
  }

  lemma {:induction false} PowerOfSquare(a: int, n: nat)
    ensures Power(a * a, n) == Power(a, 2 * n)
  {
    if n > 0 {
      PowerOfSquare(a, n - 1);
      assert Power(a, 2 * n) == a * (a * Power(a, 2 * (n - 1)));
    }
  }

  /** `pow(a, b)` is a^b for every b >= 0; for a negative b the recursion still
      terminates (b / 2 truncates toward zero) and yields a^|b|, so pow(2, -1) == 2. */
  lemma {:induction false} PowIsPower(a: int, b: int)
    ensures b >= 0 ==> Pow(a, b) == Power(a, b)
    ensures b < 0 ==> Pow(a, b) == Power(a, -b)
    decreases Magnitude(b)
  {
    var m := Magnitude(b);
    if m > 1 {
      var h := JavaHalf(b);
      assert Magnitude(h) == m / 2;
      PowIsPower(a * a, h);
      PowerOfSquare(a, m / 2);
      if m % 2 == 1 {
        assert Power(a, m) == a * Power(a, 2 * (m / 2));
      }
    }
  }

  lemma {:induction false} PowerOfTwoPositive(n: nat)
    ensures Power(2, n) >= 1
  {
    if n > 0 { PowerOfTwoPositive(n - 1); }
  }

  /** `getPinblockLevel`: how far the attempt counter is past the last allowed try. */
  function Level(counter: int): (level: nat)
    ensures level == 0 <==> counter < MAX_PIN_TRIES
    ensures level > 0 ==> counter == level + MAX_PIN_TRIES - 1
  {
    if counter - MAX_PIN_TRIES + 1 > 0 then counter - MAX_PIN_TRIES + 1 else 0
  }

  /** The lockout duration in seconds that `incrementPinblock` adds to the current time. */
  function Duration(level: nat): (seconds: int)
    ensures level >= 1 ==> seconds == 60 * Power(2, level - 1) && seconds >= 60
    ensures level == 0 ==> seconds == 120
  {
    PowIsPower(BACKOFF_FACTOR, level - 1);
    PowerOfTwoPositive(if level >= 1 then level - 1 else 0);
    BACKOFF_START * 60 * Pow(BACKOFF_FACTOR, level - 1)
  }

  /** Every further lockout level doubles the duration; there is no cap. */
  lemma DurationDoubles(level: nat)
    requires level >= 1
    ensures Duration(level + 1) == 2 * Duration(level)
  {
    assert Power(2, level) == 2 * Power(2, level - 1);
  }

  /** Counters 3, 4 and 5 lock the account for 60, 120 and 240 seconds. */
  lemma FirstLockouts()
    ensures Level(3) == 1 && Duration(Level(3)) == 60
    ensures Level(4) == 2 && Duration(Level(4)) == 120
    ensures Level(5) == 3 && Duration(Level(5)) == 240
  {
    assert Power(2, 2) == 4;
  }
}
