/** The backoff arithmetic of plugins/llmrouter/retry.go over exact reals; the jitter draw is an input. */
module Retry {

  datatype RetryConfig = RetryConfig(
    maxAttempts: int, initialDelayMs: int, maxDelayMs: int, multiplier: real, jitterPercent: int)

  // ----- powers -----

  function Power(b: real, n: nat): real {
    if n == 0 then 1.0 else b * Power(b, n - 1)
  }

  function Pow2(n: nat): (r: nat)
    ensures r >= 1
  {
    if n == 0 then 1 else 2 * Pow2(n - 1)
  }

  lemma {:induction false} PowerOfSquare(b: real, n: nat)
    ensures Power(b * b, n) == Power(b, 2 * n)
  {
    if n > 0 {
      PowerOfSquare(b, n - 1);
      assert Power(b, 2 * n) == b * (b * Power(b, 2 * n - 2));
      MulAssociates(b, b, Power(b, 2 * n - 2));
    }
  }

  lemma MulAssociates(x: real, y: real, z: real)
    ensures x * (y * z) == (x * y) * z
  {
  }

  lemma {:induction false} PowerAtLeastOne(b: real, n: nat)
    requires b >= 1.0
    ensures Power(b, n) >= 1.0
  {
    if n > 0 { PowerAtLeastOne(b, n - 1); }
  }

  lemma {:induction false} PowerGrows(b: real, m: nat, n: nat)
    requires b >= 1.0 && m <= n
    ensures Power(b, m) <= Power(b, n)
    ensures b > 1.0 && m < n ==> Power(b, m) < Power(b, n)
  {
    if m < n {
      PowerGrows(b, m, n - 1);
      PowerAtLeastOne(b, n - 1);
    }
  }

  // ----- powF -----

  /** How many times the loop multiplies: each time the exponent drops by one and is halved. */
  function Rounds(exp: real): nat
    decreases if exp < 1.0 then 0 else exp.Floor
  {
    if exp < 1.0 then 0 else 1 + Rounds((exp - 1.0) / 2.0)
  }

  /** That is the binary logarithm of exp+1, rounded down. */
  lemma {:induction false} RoundsIsLogarithm(exp: real)
    requires exp >= 0.0
    ensures Pow2(Rounds(exp)) as real <= exp + 1.0 < (2 * Pow2(Rounds(exp))) as real
    decreases exp.Floor
  {
    if exp >= 1.0 { RoundsIsLogarithm((exp - 1.0) / 2.0); }
  }

  /** What `powF` returns: a power whose exponent is one less than the largest power of two up to exp+1. */
  function PowFValue(b: real, exp: real): real {
    Power(b, Pow2(Rounds(exp)) - 1)
  }

  lemma PowFRound(b: real, exp: real)
    requires exp >= 1.0
    ensures PowFValue(b, exp) == b * PowFValue(b * b, (exp - 1.0) / 2.0)
  {
    PowerOfSquare(b, Pow2(Rounds((exp - 1.0) / 2.0)) - 1);
  }

  /**
   The squaring loop. Once the exponent is below one the loop of the source only halves it and squares
   the base, with no effect on the result, until the halved exponent underflows; that tail is left out.
   */
  method PowF(base0: real, exp0: real) returns (result: real)
    ensures result == PowFValue(base0, exp0)
  {
    var base, exp := base0, exp0;
    result := 1.0;
    while exp >= 1.0
      invariant result * PowFValue(base, exp) == PowFValue(base0, exp0)
      decreases if exp < 1.0 then 0 else exp.Floor
    {
      PowFRound(base, exp);
      MulAssociates(result, base, PowFValue(base * base, (exp - 1.0) / 2.0));
      result := result * base;
      exp := exp - 1.0;
      exp := exp / 2.0;
      base := base * base;
    }
  }

  /** For a natural exponent and a base of at least one, `powF` never exceeds the power it is named after. */
  lemma PowFAtMostPower(b: real, n: nat)
    requires b >= 1.0
    ensures 1.0 <= PowFValue(b, n as real) <= Power(b, n)
  {
    RoundsIsLogarithm(n as real);
    PowerGrows(b, Pow2(Rounds(n as real)) - 1, n);
    PowerAtLeastOne(b, Pow2(Rounds(n as real)) - 1);
  }

  /** For a base other than 0, 1 and -1, different exponents give different powers. */
  lemma PowerIsInjective(b: real, m: nat, n: nat)
    requires b != 0.0 && b != 1.0 && b != -1.0 && m < n
    ensures Power(b, m) != Power(b, n)
  {
    hide Power;
    assert m + (n - m) == n;
    PowerAdds(b, m, n - m);
    PowerNotZero(b, m);
    PowerNotOne(b, n - m);
    OnlyOneIsNeutral(Power(b, m), Power(b, n - m), Power(b, n));
  }

  lemma OnlyOneIsNeutral(x: real, y: real, product: real)
    requires product == x * y && x != 0.0 && y != 1.0
    ensures product != x
  {
    assert x * y - x == x * (y - 1.0);
  }

  lemma {:induction false} PowerAdds(b: real, m: nat, n: nat)
    ensures Power(b, m + n) == Power(b, m) * Power(b, n)
  {
    if m > 0 {
      PowerAdds(b, m - 1, n);
      MulAssociates(b, Power(b, m - 1), Power(b, n));
    }
  }

  lemma {:induction false} PowerNotZero(b: real, n: nat)
    requires b != 0.0
    ensures Power(b, n) != 0.0
  {
    if n > 0 { PowerNotZero(b, n - 1); }
  }

  lemma PowerNotOne(b: real, n: nat)
    requires b != 0.0 && b != 1.0 && b != -1.0 && n > 0
    ensures Power(b, n) != 1.0
  {
    hide Power;
    var square := b * b;
    SquareOfPower(b, n);
    SquareNotOne(b, square);
    PositivePowerNotOne(square, n);
    OneIsItsSquare(Power(b, n), Power(square, n));
  }

  lemma SquareOfPower(b: real, n: nat)
    ensures Power(b * b, n) == Power(b, n) * Power(b, n)
  {
    hide Power;
    PowerOfSquare(b, n);
    PowerAdds(b, n, n);
    assert n + n == 2 * n;
  }

  lemma OneIsItsSquare(x: real, square: real)
    requires square == x * x && square != 1.0
    ensures x != 1.0
  {
  }

  lemma PositivePowerNotOne(b: real, n: nat)
    requires b > 0.0 && b != 1.0 && n > 0
    ensures Power(b, n) != 1.0
  {
    if b > 1.0 { PowerGrows(b, 0, n); } else { PowerShrinks(b, n); }
  }

  lemma SquareNotOne(b: real, square: real)
    requires square == b * b && b != 0.0 && b != 1.0 && b != -1.0
    ensures square > 0.0 && square != 1.0
  {
    ProductNotZero(b, b, square);
    SquareNonNegative(b, square);
    ProductNotZero(b - 1.0, b + 1.0, square - 1.0);
  }

  lemma SquareNonNegative(b: real, square: real)
    requires square == b * b
    ensures square >= 0.0
  {
  }

  lemma ProductNotZero(x: real, y: real, product: real)
    requires product == x * y && x != 0.0 && y != 0.0
    ensures product != 0.0
  {
  }

  lemma {:induction false} PowerShrinks(b: real, n: nat)
    requires 0.0 < b < 1.0 && n > 0
    ensures 0.0 < Power(b, n) < 1.0
  {
    if n > 1 { PowerShrinks(b, n - 1); } else { assert Power(b, 1) == b * 1.0; }
  }

  lemma {:induction false} PowersOfUnits(n: nat)
    ensures Power(1.0, n) == 1.0
    ensures n > 0 ==> Power(0.0, n) == 0.0
    ensures Power(-1.0, n) == if n % 2 == 0 then 1.0 else -1.0
  {
    if n > 0 { PowersOfUnits(n - 1); }
  }

  lemma Pow2IsEven(m: nat)
    requires m > 0
    ensures Pow2(m) % 2 == 0 && Pow2(m) >= 2
  {
  }

  /** For every base it is that power exactly when n+1 is a power of two, apart from bases 0 and 1 and odd powers of -1. */
  lemma PowFIsPowerExactlyWhen(b: real, n: nat)
    ensures PowFValue(b, n as real) == Power(b, n) <==>
              (exists k :: Pow2(k) == n + 1) || b == 0.0 || b == 1.0 || (b == -1.0 && n % 2 == 1)
  {
    hide Power, Pow2, Rounds;
    var m := Rounds(n as real);
    RoundsIsLogarithm(n as real);
    assert Pow2(m) <= n + 1 < 2 * Pow2(m);
    if k :| Pow2(k) == n + 1 {
      PowerOfTwoBetween(k, m, n);
    } else {
      assert Pow2(0) != n + 1 && Pow2(m) != n + 1;
      RoundsOfPositive(n);
      PowersDifferUnless(b, m, n);
    }
  }

  lemma PowersDifferUnless(b: real, m: nat, n: nat)
    requires m > 0 && Pow2(m) - 1 < n
    ensures Power(b, Pow2(m) - 1) == Power(b, n) <==> b == 0.0 || b == 1.0 || (b == -1.0 && n % 2 == 1)
  {
    Pow2IsEven(m);
    PowersOfUnits(n);
    PowersOfUnits(Pow2(m) - 1);
    hide Power, Pow2;
    if b != 0.0 && b != 1.0 && b != -1.0 { PowerIsInjective(b, Pow2(m) - 1, n); }
  }

  lemma RoundsOfPositive(n: nat)
    requires Pow2(0) != n + 1
    ensures n > 0 && Rounds(n as real) > 0
  {
  }

  lemma PowerOfTwoBetween(k: nat, m: nat, n: nat)
    requires Pow2(m) <= n + 1 < 2 * Pow2(m) && Pow2(k) == n + 1
    ensures Pow2(m) == n + 1
  {
    if k < m { Pow2Doubles(k, m); }
    if m < k { Pow2Doubles(m, k); }
  }

  lemma {:induction false} Pow2Doubles(m: nat, k: nat)
    requires m < k
    ensures Pow2(k) >= 2 * Pow2(m)
  {
    if m + 1 < k { Pow2Doubles(m, k - 1); }
  }

  lemma {:induction false} Pow2Grows(m: nat, k: nat)
    requires m <= k
    ensures Pow2(m) <= Pow2(k)
  {
    if m < k { Pow2Grows(m, k - 1); }
  }

  lemma {:induction false} RoundsGrow(x: real, y: real)
    requires x <= y
    ensures Rounds(x) <= Rounds(y)
    decreases if x < 1.0 then 0 else x.Floor
  {
    if x >= 1.0 { RoundsGrow((x - 1.0) / 2.0, (y - 1.0) / 2.0); }
  }

  lemma PowFGrows(b: real, x: real, y: real)
    requires b >= 1.0 && x <= y
    ensures 1.0 <= PowFValue(b, x) <= PowFValue(b, y)
  {
    RoundsGrow(x, y);
    Pow2Grows(Rounds(x), Rounds(y));
    PowerGrows(b, Pow2(Rounds(x)) - 1, Pow2(Rounds(y)) - 1);
    PowerAtLeastOne(b, Pow2(Rounds(x)) - 1);
  }

  // ----- the delay -----

  /** The delay before jitter and cap. */
  function Uncapped(config: RetryConfig, attempt: int): real {
    config.initialDelayMs as real * PowFValue(config.multiplier, attempt as real - 1.0)
  }

  function Jitter(config: RetryConfig, delay: real, draw: real): real {
    if config.jitterPercent > 0 then (draw * 2.0 - 1.0) * (delay * config.jitterPercent as real / 100.0) else 0.0
  }

  /** A number of milliseconds between 0 and the maximum; the conversion drops the fraction. */
  function Capped(config: RetryConfig, delay: real): int {
    var top := if delay > config.maxDelayMs as real then config.maxDelayMs as real else delay;
    if top < 0.0 then 0 else top.Floor
  }

  function DelayOf(config: RetryConfig, attempt: int, draw: real): int {
    if attempt <= 0 then 0
    else
      var delay := Uncapped(config, attempt);
      Capped(config, delay + Jitter(config, delay, draw))
  }

  method NextDelay(config: RetryConfig, attempt: int, draw: real) returns (delayMs: int)
    ensures 0 <= delayMs && (delayMs <= config.maxDelayMs || delayMs == 0)
    ensures delayMs == DelayOf(config, attempt, draw)
  {
    if attempt <= 0 {
      return 0;
    }
    hide PowFValue;
    var factor := PowF(config.multiplier, attempt as real - 1.0);
    var delay := config.initialDelayMs as real * factor;
    assert delay == Uncapped(config, attempt);
    ghost var uncapped := delay;
    if config.jitterPercent > 0 {
      var jitterRange := delay * config.jitterPercent as real / 100.0;
      var jitter := (draw * 2.0 - 1.0) * jitterRange;
      assert jitter == Jitter(config, delay, draw);
      delay := delay + jitter;
    }
    assert delay == uncapped + Jitter(config, uncapped, draw);
    if delay > config.maxDelayMs as real {
      delay := config.maxDelayMs as real;
    }
    if delay < 0.0 {
      delay := 0.0;
    }
    delayMs := delay.Floor;
  }

  /** Some draw gives this delay. */
  ghost predicate IsDelay(config: RetryConfig, attempt: int, delayMs: int) {
    exists draw :: delayMs == DelayOf(config, attempt, draw)
  }

  lemma DelayIsDelay(config: RetryConfig, attempt: int, draw: real)
    ensures IsDelay(config, attempt, DelayOf(config, attempt, draw))
  {
  }

  /** Without jitter the delay never shrinks from one attempt to a later one, whatever the initial delay and the cap. */
  lemma DelayGrows(config: RetryConfig, attempt: int, later: int, draw1: real, draw2: real)
    requires config.multiplier >= 1.0 && config.jitterPercent <= 0 && attempt <= later
    ensures DelayOf(config, attempt, draw1) <= DelayOf(config, later, draw2)
  {
    hide Capped, Uncapped;
    if attempt > 0 {
      UncappedGrows(config, attempt, later);
      CappedGrows(config, Uncapped(config, attempt), Uncapped(config, later));
    } else {
      CappedIsNonNegative(config, Uncapped(config, later));
    }
  }

  lemma UncappedGrows(config: RetryConfig, attempt: int, later: int)
    requires config.multiplier >= 1.0 && attempt <= later
    ensures Uncapped(config, attempt) <= Uncapped(config, later) || (Uncapped(config, attempt) <= 0.0 && Uncapped(config, later) <= 0.0)
  {
    hide PowFValue;
    var x, y := attempt as real - 1.0, later as real - 1.0;
    assert x <= y;
    PowFGrows(config.multiplier, x, y);
    ScaledGrows(config.initialDelayMs as real, PowFValue(config.multiplier, x), PowFValue(config.multiplier, y));
  }

  lemma CappedIsNonNegative(config: RetryConfig, delay: real)
    ensures Capped(config, delay) >= 0
  {
  }

  /** Without jitter the first delay is the initial one, rounded to what the cap allows. */
  lemma FirstDelayIsInitial(config: RetryConfig, draw: real)
    requires config.jitterPercent <= 0 && config.initialDelayMs >= 0 && config.maxDelayMs >= 0
    ensures DelayOf(config, 1, draw) == if config.initialDelayMs <= config.maxDelayMs then config.initialDelayMs else config.maxDelayMs
  {
    assert PowFValue(config.multiplier, 0.0) == Power(config.multiplier, Pow2(0) - 1) == 1.0;
  }

  /** A delay within the limits is rounded down to whole milliseconds; one beyond them is the limit. */
  predicate IsCapped(config: RetryConfig, delay: real, delayMs: int) {
    && (0.0 <= delay <= config.maxDelayMs as real ==> delayMs == delay.Floor)
    && (delay > config.maxDelayMs as real >= 0.0 ==> delayMs == config.maxDelayMs)
    && (delay < 0.0 || config.maxDelayMs < 0 ==> delayMs == 0)
  }

  lemma CappedIsCapped(config: RetryConfig, delay: real)
    ensures IsCapped(config, delay, Capped(config, delay))
  {
  }

  /** The delay before jitter and cap: from attempt 2^k up to 2^(k+1) the initial one times the multiplier to the power 2^k - 1. */
  lemma UncappedIsExponential(config: RetryConfig, attempt: int, k: nat)
    requires Pow2(k) <= attempt < Pow2(k + 1)
    ensures Uncapped(config, attempt) == config.initialDelayMs as real * Power(config.multiplier, Pow2(k) - 1)
  {
    hide Power, Rounds;
    var m := Rounds(attempt as real - 1.0);
    RoundsIsLogarithm(attempt as real - 1.0);
    assert Pow2(m) <= attempt < 2 * Pow2(m);
    if k < m { Pow2Grows(k + 1, m); }
    if m < k { Pow2Grows(m + 1, k); }
  }

  /** So without jitter that is the delay, up to rounding and the cap. */
  lemma DelayIsExponential(config: RetryConfig, attempt: int, k: nat, draw: real)
    requires config.jitterPercent <= 0 && Pow2(k) <= attempt < Pow2(k + 1)
    ensures IsCapped(config, config.initialDelayMs as real * Power(config.multiplier, Pow2(k) - 1), DelayOf(config, attempt, draw))
  {
    hide Power, Uncapped, Capped, IsCapped;
    UncappedIsExponential(config, attempt, k);
    CappedIsCapped(config, Uncapped(config, attempt));
  }

  /**
   Jitter spreads the delay evenly by the percentage: by all of it downwards and upwards for the extreme draws, by
   nothing for the middle one, and in between for the others; the cap comes after that.
   */
  lemma JitterSpreads(config: RetryConfig, attempt: int, draw: real, delay: real, spread: real)
    requires attempt > 0 && config.jitterPercent >= 0 && 0.0 <= draw <= 1.0
    requires delay == Uncapped(config, attempt) >= 0.0 && spread == delay * config.jitterPercent as real / 100.0
    ensures IsCapped(config, delay - spread, DelayOf(config, attempt, 0.0))
    ensures IsCapped(config, delay, DelayOf(config, attempt, 0.5))
    ensures IsCapped(config, delay + spread, DelayOf(config, attempt, 1.0))
    ensures DelayOf(config, attempt, 0.0) <= DelayOf(config, attempt, draw) <= DelayOf(config, attempt, 1.0)
    ensures Jitter(config, delay, 1.0 - draw) == -Jitter(config, delay, draw)
  {
    hide Jitter, Uncapped, Capped, IsCapped;
    JitterWithin(config, delay, draw, spread);
    JitterAtEnds(config, delay, spread);
    CappedIsCapped(config, delay - spread);
    CappedIsCapped(config, delay);
    CappedIsCapped(config, delay + spread);
    CappedGrows(config, delay - spread, delay + Jitter(config, delay, draw));
    CappedGrows(config, delay + Jitter(config, delay, draw), delay + spread);
  }

  lemma JitterWithin(config: RetryConfig, delay: real, draw: real, spread: real)
    requires delay >= 0.0 && config.jitterPercent >= 0 && 0.0 <= draw <= 1.0
    requires spread == delay * config.jitterPercent as real / 100.0
    ensures spread >= 0.0 && -spread <= Jitter(config, delay, draw) <= spread
    ensures Jitter(config, delay, 1.0 - draw) == -Jitter(config, delay, draw)
  {
    hide Jitter;
    SpreadIsNonNegative(delay, config.jitterPercent as real, spread);
    JitterIsProduct(config, delay, draw, spread);
    JitterIsProduct(config, delay, 1.0 - draw, spread);
    ScaledWithin(draw * 2.0 - 1.0, (1.0 - draw) * 2.0 - 1.0, spread);
  }

  lemma JitterAtEnds(config: RetryConfig, delay: real, spread: real)
    requires config.jitterPercent >= 0 && spread == delay * config.jitterPercent as real / 100.0
    ensures Jitter(config, delay, 0.0) == -spread && Jitter(config, delay, 0.5) == 0.0 && Jitter(config, delay, 1.0) == spread
  {
    hide Jitter;
    JitterIsProduct(config, delay, 0.0, spread);
    JitterIsProduct(config, delay, 0.5, spread);
    JitterIsProduct(config, delay, 1.0, spread);
    assert 0.0 * 2.0 - 1.0 == -1.0 && 0.5 * 2.0 - 1.0 == 0.0 && 1.0 * 2.0 - 1.0 == 1.0;
  }

  lemma JitterIsProduct(config: RetryConfig, delay: real, draw: real, spread: real)
    requires config.jitterPercent >= 0 && spread == delay * config.jitterPercent as real / 100.0
    ensures Jitter(config, delay, draw) == (draw * 2.0 - 1.0) * spread
  {
    if config.jitterPercent == 0 {
      assert delay * 0.0 == 0.0;
    }
  }

  lemma SpreadIsNonNegative(delay: real, percent: real, spread: real)
    requires delay >= 0.0 && percent >= 0.0 && spread == delay * percent / 100.0
    ensures spread >= 0.0
  {
    assert delay * percent >= 0.0;
  }

  lemma ScaledWithin(x: real, opposite: real, spread: real)
    requires -1.0 <= x <= 1.0 && spread >= 0.0 && opposite == -x
    ensures -spread <= x * spread <= spread && opposite * spread == -(x * spread)
  {
  }

  lemma CappedGrows(config: RetryConfig, x: real, y: real)
    requires x <= y || (x <= 0.0 && y <= 0.0)
    ensures Capped(config, x) <= Capped(config, y)
  {
  }

  lemma ScaledGrows(scale: real, x: real, y: real)
    requires 0.0 <= x <= y
    ensures scale >= 0.0 ==> scale * x <= scale * y
    ensures scale < 0.0 ==> scale * x <= 0.0 && scale * y <= 0.0
  {
  }

  // ----- which errors are retried -----

  datatype CallError = CallError(message: string, retryable: bool)

  predicate ShouldRetry(config: RetryConfig, attempt: int, err: CallError) {
    attempt < config.maxAttempts && err.retryable
  }
}
