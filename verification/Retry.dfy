/** Retries with exponential backoff. Durations are whole nanoseconds, factors are reals. */
module Retry {

  const SECOND: int := 1_000_000_000
  const MINUTE: int := 60 * SECOND
  const MAX_INT64: int := 0x7fff_ffff_ffff_ffff

  /** The settings of a backoff; its progress is a number of steps. */
  datatype Settings = Settings(duration: int, factor: real, jitter: real, steps: int, cap: int)

  const DEFAULT := Settings(SECOND, 3.0, 0.1, 20, MINUTE)

  function Pow(x: real, n: nat): real {
    if n == 0 then 1.0 else x * Pow(x, n - 1)
  }

  /** Conversion of a real number to a duration drops the fraction. */
  function Truncate(x: real): int {
    if x >= 0.0 then x.Floor else -((-x).Floor)
  }

  function Scaled(duration: int, factor: real): int {
    Truncate(duration as real * factor)
  }

  /** The duration of a step before the cap: steps are counted from one. */
  function Raw(b: Settings, step: nat): int
    requires step >= 1
  {
    if b.factor != 0.0 && step > 1 then Scaled(b.duration, Pow(b.factor, step - 1))
    else b.duration
  }

  function Unjittered(b: Settings, step: nat): int
    requires step >= 1
  {
    if b.cap > 0 && Raw(b, step) > b.cap then b.cap else Raw(b, step)
  }

  /** The random share of a factor of the duration. */
  function Extra(duration: int, factor: real, random: real): real {
    random * factor * duration as real
  }

  function Jitter(duration: int, maxFactor: real, random: real): int {
    duration + Truncate(Extra(duration, if maxFactor <= 0.0 then 1.0 else maxFactor, random))
  }

  function Wait(b: Settings, step: nat, random: real): int
    requires step >= 1
  {
    if b.jitter > 0.0 then Jitter(Unjittered(b, step), b.jitter, random) else Unjittered(b, step)
  }

  class Backoff {
    const settings: Settings
    var currentStep: nat

    constructor (settings: Settings)
      ensures this.settings == settings && currentStep == 0
    {
      this.settings := settings;
      currentStep := 0;
    }

    method Step(random: real) returns (attempt: int, wait: int)
      modifies this
      ensures old(currentStep) >= settings.steps ==>
                attempt == settings.steps && wait == 0 && currentStep == old(currentStep)
      ensures old(currentStep) < settings.steps ==>
                && attempt == currentStep == old(currentStep) + 1
                && wait == Wait(settings, currentStep, random)
    {
      if currentStep >= settings.steps {
        return settings.steps, 0;
      }
      currentStep := currentStep + 1;
      var duration := settings.duration;
      if settings.factor != 0.0 && currentStep > 1 {
        duration := Scaled(settings.duration, Pow(settings.factor, currentStep - 1));
      }
      assert duration == Raw(settings, currentStep);
      if settings.cap > 0 && duration > settings.cap {
        duration := settings.cap;
      }
      assert duration == Unjittered(settings, currentStep);
      if settings.jitter > 0.0 {
        duration := Jitter(duration, settings.jitter, random);
      }
      return currentStep, duration;
    }
  }

  /** What one attempt can come back with, in the order in which it is asked for. */
  datatype Outcome = Fine | Permanent | NoSpace | InternalError | NoDataSource | Transient

  datatype Verdict = Success | Gave(outcome: Outcome) | Cancelled | Exhausted

  /**
    What the loop meets: the outcome of every attempt, whether the context is cancelled
    during the wait after it, and the random number for that wait.
  */
  datatype World = World(attempt: nat -> Outcome, cancelled: nat -> bool, random: nat -> real)

  /**
    The loop: every attempt but the last is an error worth repeating and is followed by its
    wait. It ends with the first other outcome, the first cancelled wait, or the first wait
    of zero, and within as many waits as there are steps.
  */
  method ExponentialBackoff(w: World, b: Settings) returns (v: Verdict, calls: nat, waits: seq<int>)
    ensures 1 <= calls <= 1 + (if b.steps < 0 then 0 else b.steps)
    ensures waits != [] ==> |waits| <= b.steps
    ensures forall k :: 0 <= k < calls - 1 ==> w.attempt(k) == Transient && !w.cancelled(k)
    ensures forall k :: 0 <= k < |waits| ==> waits[k] == Wait(b, k + 1, w.random(k)) && waits[k] != 0
    ensures match v
            case Success => w.attempt(calls - 1) == Fine && |waits| == calls - 1
            case Gave(o) => w.attempt(calls - 1) == o && o != Fine && o != Transient && |waits| == calls - 1
            case Cancelled => w.attempt(calls - 1) == Transient && w.cancelled(calls - 1) && |waits| == calls
            case Exhausted =>
              && w.attempt(calls - 1) == Transient && |waits| == calls - 1
              && (calls > b.steps || Wait(b, calls, w.random(calls - 1)) == 0)
  {
    var backoff := new Backoff(b);
    calls, waits := 0, [];
    while true
      invariant backoff.settings == b && backoff.currentStep == calls == |waits| && fresh(backoff)
      invariant calls > 0 ==> calls <= b.steps
      invariant forall k :: 0 <= k < calls ==> w.attempt(k) == Transient && !w.cancelled(k)
      invariant forall k :: 0 <= k < |waits| ==> waits[k] == Wait(b, k + 1, w.random(k)) && waits[k] != 0
      decreases b.steps - calls
    {
      var outcome := w.attempt(calls);
      calls := calls + 1;
      match outcome {
        case Fine => return Success, calls, waits;
        case Transient =>
        case o => return Gave(o), calls, waits;
      }
      var attempt, wait := backoff.Step(w.random(calls - 1));
      if wait == 0 {
        return Exhausted, calls, waits;
      }
      waits := waits + [wait];
      if w.cancelled(calls - 1) {
        return Cancelled, calls, waits;
      }
    }
  }

  /** `Retry` with the default settings, for a function that is there. */
  method RetryDefault(w: World) returns (v: Verdict, calls: nat, waits: seq<int>)
    requires forall k :: 0.0 <= w.random(k) < 1.0
    ensures 1 <= calls <= 21
    ensures forall k :: 0 <= k < calls - 1 ==> w.attempt(k) == Transient
    ensures v == Exhausted ==> calls == 21
    ensures Total(waits) < 1100 * SECOND
    ensures v == Exhausted ==> Total(waits) >= 1000 * SECOND
  {
    v, calls, waits := ExponentialBackoff(w, DEFAULT);
    if v == Exhausted && calls <= 20 {
      DefaultWaits(calls, w.random(calls - 1));
    }
    DefaultRun(w.random, waits);
  }

  // ---------------------------------------------------------------- what the waits are

  lemma TruncateWithin(x: real)
    ensures x >= 0.0 ==> Truncate(x) as real <= x < Truncate(x) as real + 1.0
    ensures x <= 0.0 ==> Truncate(x) as real >= x > Truncate(x) as real - 1.0
  {
  }

  lemma ShareWithin(share: real, whole: real, part: real)
    requires share >= 0.0 && whole >= 0.0 && part == share * whole
    ensures 0.0 <= part
    ensures share < 1.0 && whole > 0.0 ==> part < whole
  {
    assert whole - part == (1.0 - share) * whole;
  }

  lemma ExtraIsShare(duration: int, factor: real, random: real, whole: real)
    requires whole == factor * duration as real
    ensures Extra(duration, factor, random) == random * whole
  {
  }

  /** A share below one of a factor of the duration. */
  lemma ExtraWithin(duration: int, factor: real, random: real, whole: real)
    requires duration >= 0 && factor >= 0.0 && random >= 0.0 && whole == factor * duration as real
    ensures 0.0 <= Extra(duration, factor, random)
    ensures random < 1.0 && whole > 0.0 ==> Extra(duration, factor, random) < whole
  {
    ShareWithin(factor, duration as real, whole);
    ExtraIsShare(duration, factor, random, whole);
    ShareWithin(random, whole, Extra(duration, factor, random));
  }

  /** Jitter adds the random share of the factor, or of one, times the duration, to a whole number. */
  lemma JitterAdds(duration: int, maxFactor: real, random: real)
    requires duration >= 0 && random >= 0.0
    ensures var extra := random * (if maxFactor > 0.0 then maxFactor else 1.0) * duration as real;
            0.0 <= extra - (Jitter(duration, maxFactor, random) - duration) as real < 1.0
  {
    var factor := if maxFactor <= 0.0 then 1.0 else maxFactor;
    ExtraWithin(duration, factor, random, factor * duration as real);
    TruncateWithin(Extra(duration, factor, random));
  }

  lemma {:induction false} PowOfWhole(k: nat, n: nat)
    ensures Pow(k as real, n) == PowInt(k, n) as real
  {
    if n > 0 {
      PowOfWhole(k, n - 1);
    }
  }

  function PowInt(k: nat, n: nat): nat {
    if n == 0 then 1 else k * PowInt(k, n - 1)
  }

  lemma WholeScaled(d: int, k: nat)
    ensures Scaled(d, k as real) == d * k
  {
    assert d as real * k as real == (d * k) as real;
  }

  /** A whole factor multiplies the duration from each step to the next, before the cap. */
  lemma FactorMultiplies(b: Settings, k: nat, step: nat)
    requires b.factor == k as real && k > 0 && step >= 1
    ensures Raw(b, 1) == b.duration
    ensures Raw(b, step + 1) == k * Raw(b, step)
  {
    PowOfWhole(k, step - 1);
    PowOfWhole(k, step);
    WholeScaled(b.duration, PowInt(k, step));
    WholeScaled(b.duration, PowInt(k, step - 1));
    assert PowInt(k, step) == k * PowInt(k, step - 1);
    assert b.duration * (k * PowInt(k, step - 1)) == k * (b.duration * PowInt(k, step - 1));
    if step == 1 {
      assert PowInt(k, 0) == 1;
    }
  }

  /** The cap is the limit, where there is one, and changes nothing below it. */
  lemma CapLimits(b: Settings, step: nat)
    requires step >= 1
    ensures b.cap > 0 ==> Unjittered(b, step) <= b.cap
    ensures b.cap <= 0 || Raw(b, step) <= b.cap ==> Unjittered(b, step) == Raw(b, step)
    ensures b.cap > 0 && Raw(b, step) >= b.cap ==> Unjittered(b, step) == b.cap
    ensures b.factor == 0.0 ==> Raw(b, step) == b.duration
  {
  }

  // ---------------------------------------------------------------- growth

  lemma {:induction false} PowGrows(x: real, m: nat, n: nat)
    requires x >= 1.0 && m <= n
    ensures 1.0 <= Pow(x, m) <= Pow(x, n)
    decreases n
  {
    if n > 0 {
      if m == n {
        PowGrows(x, m - 1, n - 1);
        TimesGrows(x, Pow(x, n - 1), Pow(x, n - 1));
      } else {
        PowGrows(x, m, n - 1);
        TimesGrows(x, Pow(x, n - 1), Pow(x, n - 1));
      }
    }
  }

  lemma TimesGrows(x: real, p: real, q: real)
    requires x >= 1.0 && 0.0 <= p <= q
    ensures p <= x * q
  {
    assert x * q - q == (x - 1.0) * q;
  }

  lemma TimesKeepsOrder(d: real, p: real, q: real)
    requires d >= 0.0 && p <= q
    ensures d * p <= d * q
  {
    assert d * q - d * p == d * (q - p);
  }

  lemma TruncateKeepsOrder(x: real, y: real)
    requires 0.0 <= x <= y
    ensures 0 <= Truncate(x) <= Truncate(y)
  {
  }

  lemma ScalingGrows(n: int, p: real, q: real)
    requires n >= 0 && 1.0 <= p <= q
    ensures n <= Scaled(n, p) <= Scaled(n, q)
  {
    var d := n as real;
    TimesKeepsOrder(d, 1.0, p);
    TimesKeepsOrder(d, p, q);
    TruncateKeepsOrder(d, d * p);
    TruncateKeepsOrder(d * p, d * q);
  }

  lemma RawGrows(b: Settings, i: nat, j: nat)
    requires b.duration >= 0 && b.factor >= 1.0 && 1 < i <= j
    ensures b.duration <= Raw(b, i) <= Raw(b, j)
  {
    PowGrows(b.factor, i - 1, j - 1);
    ScalingGrows(b.duration, Pow(b.factor, i - 1), Pow(b.factor, j - 1));
  }

  /** With a factor of at least one the waits before jitter never get shorter. */
  lemma WaitsGrow(b: Settings, i: nat, j: nat)
    requires b.duration >= 0 && b.factor >= 1.0 && 1 <= i <= j
    ensures 0 <= Unjittered(b, i) <= Unjittered(b, j)
  {
    if i > 1 {
      RawGrows(b, i, j);
    } else if j > 1 {
      RawGrows(b, j, j);
    }
  }

  // ---------------------------------------------------------------- the defaults

  function DefaultWait(step: nat): int {
    if step == 1 then SECOND else if step == 2 then 3 * SECOND else if step == 3 then 9 * SECOND
    else if step == 4 then 27 * SECOND else MINUTE
  }

  lemma PowersOfThree()
    ensures Pow(3.0, 1) == 3.0 && Pow(3.0, 2) == 9.0 && Pow(3.0, 3) == 27.0 && Pow(3.0, 4) == 81.0
    ensures Pow(3.0, 19) == 1162261467.0
  {
    assert Pow(3.0, 1) == 3.0 * Pow(3.0, 0);
    assert Pow(3.0, 2) == 3.0 * Pow(3.0, 1);
    assert Pow(3.0, 3) == 3.0 * Pow(3.0, 2);
    assert Pow(3.0, 4) == 3.0 * Pow(3.0, 3);
    assert Pow(3.0, 5) == 3.0 * Pow(3.0, 4);
    assert Pow(3.0, 6) == 3.0 * Pow(3.0, 5);
    assert Pow(3.0, 7) == 3.0 * Pow(3.0, 6);
    assert Pow(3.0, 8) == 3.0 * Pow(3.0, 7);
    assert Pow(3.0, 9) == 3.0 * Pow(3.0, 8);
    assert Pow(3.0, 10) == 3.0 * Pow(3.0, 9);
    assert Pow(3.0, 11) == 3.0 * Pow(3.0, 10);
    assert Pow(3.0, 12) == 3.0 * Pow(3.0, 11);
    assert Pow(3.0, 13) == 3.0 * Pow(3.0, 12);
    assert Pow(3.0, 14) == 3.0 * Pow(3.0, 13);
    assert Pow(3.0, 15) == 3.0 * Pow(3.0, 14);
    assert Pow(3.0, 16) == 3.0 * Pow(3.0, 15);
    assert Pow(3.0, 17) == 3.0 * Pow(3.0, 16);
    assert Pow(3.0, 18) == 3.0 * Pow(3.0, 17);
    assert Pow(3.0, 19) == 3.0 * Pow(3.0, 18);
  }

  /** The defaults stay within 64 bits before the cap and reach it at the fifth step. */
  lemma DefaultStep(step: nat)
    requires 1 <= step <= 20
    ensures SECOND <= Raw(DEFAULT, step) <= MAX_INT64
    ensures Unjittered(DEFAULT, step) == DefaultWait(step)
  {
    PowersOfThree();
    PowGrows(3.0, 0, step - 1);
    PowGrows(3.0, step - 1, 19);
    if step >= 5 {
      PowGrows(3.0, 4, step - 1);
    }
    var d := DEFAULT.duration as real;
    var p := Pow(3.0, step - 1);
    assert d == 1000000000.0;
    if step > 1 {
      assert Raw(DEFAULT, step) == Scaled(DEFAULT.duration, p);
    }
  }

  /** Jitter adds less than a tenth. */
  lemma DefaultWaits(step: nat, random: real)
    requires 1 <= step <= 20 && 0.0 <= random < 1.0
    ensures DefaultWait(step) <= Wait(DEFAULT, step, random)
    ensures 10 * Wait(DEFAULT, step, random) < 11 * DefaultWait(step)
    ensures 0.0 <= random * 0.1 * DefaultWait(step) as real - (Wait(DEFAULT, step, random) - DefaultWait(step)) as real < 1.0
  {
    DefaultStep(step);
    TenthAdded(DefaultWait(step), random);
  }

  lemma TenthAdded(u: int, random: real)
    requires u > 0 && 0.0 <= random < 1.0
    ensures u <= Jitter(u, 0.1, random) && 10 * Jitter(u, 0.1, random) < 11 * u
    ensures 0.0 <= random * 0.1 * u as real - (Jitter(u, 0.1, random) - u) as real < 1.0
  {
    ExtraWithin(u, 0.1, random, 0.1 * u as real);
    TruncateWithin(Extra(u, 0.1, random));
  }

  function Total(waits: seq<int>): int {
    if waits == [] then 0 else Total(waits[..|waits| - 1]) + waits[|waits| - 1]
  }

  /** What the first `n` default waits come to before jitter. */
  function DefaultTotal(n: nat): int {
    if n == 0 then 0 else DefaultTotal(n - 1) + DefaultWait(n)
  }

  lemma {:induction false} TotalBetween(waits: seq<int>)
    requires |waits| <= 20
    requires forall k :: 0 <= k < |waits| ==>
               DefaultWait(k + 1) <= waits[k] && 10 * waits[k] < 11 * DefaultWait(k + 1)
    ensures DefaultTotal(|waits|) <= Total(waits)
    ensures 10 * Total(waits) <= 11 * DefaultTotal(|waits|)
    ensures waits != [] ==> 10 * Total(waits) < 11 * DefaultTotal(|waits|)
  {
    if waits != [] {
      TotalBetween(waits[..|waits| - 1]);
    }
  }

  lemma {:induction false} DefaultTotals(n: nat)
    ensures n >= 4 ==> DefaultTotal(n) == 40_000_000_000 + (n - 4) * 60_000_000_000
    ensures n < 4 ==> 0 <= DefaultTotal(n) <= 40_000_000_000
  {
    if n > 0 {
      DefaultTotals(n - 1);
      assert DefaultTotal(0) == 0 && DefaultTotal(1) == SECOND && DefaultTotal(2) == 4 * SECOND;
      assert DefaultTotal(3) == 13 * SECOND && DefaultTotal(4) == 40 * SECOND;
    }
  }

  lemma DefaultBounds(n: nat, total: int)
    requires n <= 20 && DefaultTotal(n) <= total && 10 * total <= 11 * DefaultTotal(n)
    requires n > 0 ==> 10 * total < 11 * DefaultTotal(n)
    ensures total < 1100 * SECOND
    ensures n == 20 ==> total >= 1000 * SECOND
  {
    DefaultTotals(n);
  }

  lemma WaitsBetween(random: nat -> real, waits: seq<int>)
    requires |waits| <= 20
    requires forall k :: 0.0 <= random(k) < 1.0
    requires forall k :: 0 <= k < |waits| ==> waits[k] == Wait(DEFAULT, k + 1, random(k))
    ensures DefaultTotal(|waits|) <= Total(waits)
    ensures 10 * Total(waits) <= 11 * DefaultTotal(|waits|)
    ensures waits != [] ==> 10 * Total(waits) < 11 * DefaultTotal(|waits|)
  {
    forall k | 0 <= k < |waits|
      ensures DefaultWait(k + 1) <= waits[k] && 10 * waits[k] < 11 * DefaultWait(k + 1)
    {
      DefaultWaits(k + 1, random(k));
    }
    TotalBetween(waits);
  }

  /** Twenty default waits take at least 1000 seconds; no run takes 1100. */
  lemma DefaultRun(random: nat -> real, waits: seq<int>)
    requires |waits| <= 20
    requires forall k :: 0.0 <= random(k) < 1.0
    requires forall k :: 0 <= k < |waits| ==> waits[k] == Wait(DEFAULT, k + 1, random(k))
    ensures Total(waits) < 1100 * SECOND
    ensures |waits| == 20 ==> Total(waits) >= 1000 * SECOND
  {
    WaitsBetween(random, waits);
    DefaultBounds(|waits|, Total(waits));
  }
}
