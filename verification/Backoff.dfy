/** Exponential back-off of the outbox publisher, on 64-bit durations. */
module Backoff {

  const MAX_INT64 := 0x7fff_ffff_ffff_ffff

  /** Ten minutes in nanoseconds. */
  const MAX_OUTBOX_BACKOFF := 600_000_000_000

  /** Two's complement wrap-around of 64-bit arithmetic. */
  function Wrap64(x: int): int {
    (x + 0x8000_0000_0000_0000) % 0x1_0000_0000_0000_0000 - 0x8000_0000_0000_0000
  }

  function Pow2(n: nat): nat {
    if n == 0 then 1 else 2 * Pow2(n - 1)
  }

  function Min(a: int, b: int): int {
    if a <= b then a else b
  }

  function CalculateExponentialBackoff(baseDelay: int, attempts: int, maxDelay: int): int {
    if baseDelay <= 0 then 0
    else
      var cap := if maxDelay <= 0 then MAX_OUTBOX_BACKOFF else maxDelay;
      if attempts <= 1 then (if baseDelay > cap then cap else baseDelay)
      else
        var shift := attempts - 1;
        if shift >= 62 then cap
        else
          var multiplier := Wrap64(Pow2(shift));
          if multiplier > cap / baseDelay then cap
          else
            var delay := Wrap64(baseDelay * multiplier);
            if delay > cap || delay <= 0 then cap else delay
  }

  /** The delay the doubling rule asks for, without a width limit. */
  function Doubled(baseDelay: int, attempts: int): int {
    baseDelay * Pow2(if attempts <= 1 then 0 else attempts - 1)
  }

  lemma {:induction false} Pow2Monotone(a: nat, b: nat)
    requires a <= b
    ensures 0 < Pow2(a) <= Pow2(b)
    decreases b
  {
    if a < b {
      Pow2Monotone(a, b - 1);
    } else if a > 0 {
      Pow2Monotone(a - 1, a - 1);
    }
  }

  lemma {:induction false} Pow2Of(n: nat)
    ensures n == 62 ==> Pow2(n) == 0x4000_0000_0000_0000
    ensures n == 31 ==> Pow2(n) == 0x8000_0000
  {
    if n == 62 {
      Pow2Sum(31, 31);
      Pow2Of(31);
    } else if n == 31 {
      assert Pow2(8) == 256;
      Pow2Sum(8, 8);
      Pow2Sum(16, 8);
      assert Pow2(7) == 128;
      Pow2Sum(24, 7);
    }
  }

  lemma {:induction false} Pow2Sum(a: nat, b: nat)
    ensures Pow2(a + b) == Pow2(a) * Pow2(b)
  {
    if b > 0 {
      Pow2Sum(a, b - 1);
      assert Pow2(a + b) == 2 * Pow2(a + (b - 1));
    }
  }

  lemma DivisionBound(multiplier: int, cap: int, base: int)
    requires base > 0 && cap > 0 && multiplier > 0
    ensures multiplier > cap / base <==> base * multiplier > cap
  {
    var quotient := cap / base;
    assert base * quotient <= cap < base * quotient + base;
    if multiplier > quotient {
      assert base * multiplier >= base * (quotient + 1) == base * quotient + base;
    } else {
      assert base * multiplier <= base * quotient;
    }
  }

  /** On every 64-bit base and cap the code computes the capped doubling, except that from attempt 63 on it answers
      the cap outright; no intermediate value wraps. */
  lemma BackoffValue(baseDelay: int, attempts: int, maxDelay: int)
    requires 0 < baseDelay <= MAX_INT64 && 0 < maxDelay <= MAX_INT64
    ensures CalculateExponentialBackoff(baseDelay, attempts, maxDelay)
      == if attempts >= 63 then maxDelay else Min(Doubled(baseDelay, attempts), maxDelay)
  {
    if 2 <= attempts <= 62 {
      var shift := attempts - 1;
      Pow2Of(62);
      Pow2Monotone(shift, 62);
      assert Wrap64(Pow2(shift)) == Pow2(shift);
      DivisionBound(Pow2(shift), maxDelay, baseDelay);
      if Pow2(shift) <= maxDelay / baseDelay {
        Positive(baseDelay, Pow2(shift));
        assert Wrap64(baseDelay * Pow2(shift)) == baseDelay * Pow2(shift);
      }
    }
  }

  lemma Positive(a: int, b: int)
    requires a > 0 && b > 0
    ensures a * b >= a && a * b >= b && a * b > 0
  {
    assert a * b == a * (b - 1) + a;
    assert a * (b - 1) >= 0;
    assert a * b == (a - 1) * b + b;
    assert (a - 1) * b >= 0;
  }

  /** The code equals the mathematical capped doubling on all bases and attempts exactly for caps up to 2^62. */
  lemma ExactIff(maxDelay: int)
    requires 0 < maxDelay <= MAX_INT64
    ensures (forall baseDelay, attempts :: 0 < baseDelay <= MAX_INT64 ==>
              CalculateExponentialBackoff(baseDelay, attempts, maxDelay) == Min(Doubled(baseDelay, attempts), maxDelay))
      <==> maxDelay <= Pow2(62)
  {
    if maxDelay <= Pow2(62) {
      forall baseDelay, attempts | 0 < baseDelay <= MAX_INT64
        ensures CalculateExponentialBackoff(baseDelay, attempts, maxDelay) == Min(Doubled(baseDelay, attempts), maxDelay)
      {
        BackoffValue(baseDelay, attempts, maxDelay);
        if attempts >= 63 {
          Pow2Monotone(62, attempts - 1);
          Positive(baseDelay, Pow2(attempts - 1));
        }
      }
    } else {
      BackoffValue(1, 63, maxDelay);
      assert Doubled(1, 63) == Pow2(62);
    }
  }

  lemma ScaleMonotone(base: int, x: int, y: int)
    requires base > 0 && x <= y
    ensures base * x <= base * y
  {
  }

  /** A later attempt never waits less. */
  lemma BackoffMonotone(baseDelay: int, a: int, b: int, maxDelay: int)
    requires 0 < baseDelay <= MAX_INT64 && 0 < maxDelay <= MAX_INT64 && a <= b
    ensures CalculateExponentialBackoff(baseDelay, a, maxDelay) <= CalculateExponentialBackoff(baseDelay, b, maxDelay)
  {
    hide CalculateExponentialBackoff, Pow2;
    BackoffValue(baseDelay, a, maxDelay);
    BackoffValue(baseDelay, b, maxDelay);
    var m, n := if a <= 1 then 0 else a - 1, if b <= 1 then 0 else b - 1;
    Pow2Monotone(m, n);
    ScaleMonotone(baseDelay, Pow2(m), Pow2(n));
  }

  /** The wait is never below the smaller of base and cap. */
  lemma BackoffAtLeast(baseDelay: int, attempts: int, maxDelay: int)
    requires 0 < baseDelay <= MAX_INT64 && 0 < maxDelay <= MAX_INT64
    ensures Min(baseDelay, maxDelay) <= CalculateExponentialBackoff(baseDelay, attempts, maxDelay) <= maxDelay
  {
    BackoffValue(baseDelay, attempts, maxDelay);
    var m := if attempts <= 1 then 0 else attempts - 1;
    Pow2Monotone(0, m);
    Positive(baseDelay, Pow2(m));
  }
}
