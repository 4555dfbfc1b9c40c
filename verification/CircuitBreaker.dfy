/** The circuit breaker for external services: three states derived from counters and a
clock. Times are milliseconds and at least 1, because 0 in `openedAt` means "closed". */
module CircuitBreaker {
  import opened Words

  datatype Config = Config(
    failureThreshold: nat,
    successThreshold: nat,
    initialMs: nat,
    maxMs: nat,
    multiplier: real,
    probeLimit: nat)

  datatype State = Closed | Open | HalfOpen

  datatype Counters = Counters(
    failures: nat,
    successes: nat,
    trips: nat,
    openedAt: nat,
    cooldown: nat,
    inFlight: nat,
    manual: bool)

  function Power(m: real, e: nat): real {
    if e == 0 then 1.0 else m * Power(m, e - 1)
  }

  function Min(a: real, b: real): real {
    if a < b then a else b
  }

  /** Cap a backoff and truncate it to whole milliseconds; the float-to-integer cast
      saturates at zero. */
  function Truncate(cfg: Config, ms: real): nat {
    var capped := Min(ms, cfg.maxMs as real);
    if capped < 0.0 then 0 else capped.Floor
  }

  function Exponent(trips: nat): nat
    requires trips >= 1
  {
    if trips - 1 < 10 then trips - 1 else 10
  }

  /** The cooldown set by the `trips`-th trip since the last close. */
  function Cooldown(cfg: Config, trips: nat): nat
    requires trips >= 1
  {
    Truncate(cfg, Backoff(cfg, Exponent(trips)))
  }

  function Backoff(cfg: Config, e: nat): real {
    cfg.initialMs as real * Power(cfg.multiplier, e)
  }

  function Initial(cfg: Config): Counters {
    Counters(0, 0, 0, 0, cfg.initialMs, 0, false)
  }

  function Elapsed(c: Counters, now: nat): nat {
    if now < c.openedAt then 0 else now - c.openedAt
  }

  function StateAt(c: Counters, now: nat): State {
    if c.manual then Open
    else if c.openedAt == 0 then Closed
    else if Elapsed(c, now) >= c.cooldown then HalfOpen
    else Open
  }

  function RetryAfterSecs(c: Counters, now: nat): nat {
    if c.openedAt == 0 || Elapsed(c, now) >= c.cooldown then 0
    else (c.cooldown - Elapsed(c, now) + 999) / 1000
  }

  /** An unsigned 32-bit decrement, which wraps at zero. */
  function Decrement(n: nat): nat {
    (n + U32 - 1) % U32
  }

  function Trip(cfg: Config, c: Counters, now: nat): Counters {
    c.(trips := c.trips + 1, cooldown := Cooldown(cfg, c.trips + 1), openedAt := now, failures := 0, inFlight := 0)
  }

  function Close(cfg: Config, c: Counters): Counters {
    Initial(cfg).(manual := c.manual)
  }

  function OnSuccess(cfg: Config, c: Counters, now: nat): Counters {
    var c := c.(failures := 0);
    match StateAt(c, now)
    case Open => c
    case Closed => c.(successes := c.successes + 1)
    case HalfOpen =>
      var c := c.(inFlight := Decrement(c.inFlight), successes := c.successes + 1);
      if c.successes >= cfg.successThreshold then Close(cfg, c) else c
  }

  function OnFailure(cfg: Config, c: Counters, now: nat): Counters {
    var c := c.(successes := 0);
    match StateAt(c, now)
    case Open => c
    case Closed =>
      var c := c.(failures := c.failures + 1);
      if c.failures >= cfg.failureThreshold then Trip(cfg, c, now) else c
    case HalfOpen => Trip(cfg, c.(inFlight := Decrement(c.inFlight)), now)
  }

  predicate Admits(cfg: Config, c: Counters, now: nat) {
    match StateAt(c, now)
    case Closed => true
    case Open => false
    case HalfOpen => c.inFlight < cfg.probeLimit
  }

  function OnAllow(cfg: Config, c: Counters, now: nat): Counters {
    if StateAt(c, now).HalfOpen? && Admits(cfg, c, now) then c.(inFlight := c.inFlight + 1) else c
  }

  class Breaker {
    const cfg: Config
    var failures: nat
    var successes: nat
    var trips: nat
    var openedAt: nat
    var cooldown: nat
    var inFlight: nat
    var manual: bool

    ghost function View(): Counters
      reads this
    {
      Counters(failures, successes, trips, openedAt, cooldown, inFlight, manual)
    }

    constructor (cfg: Config)
      ensures this.cfg == cfg && View() == Initial(cfg)
    {
      this.cfg := cfg;
      failures, successes, trips, openedAt, inFlight, manual := 0, 0, 0, 0, 0, false;
      cooldown := cfg.initialMs;
    }

    method State(now: nat) returns (s: State)
      ensures s == StateAt(View(), now)
    {
      if manual {
        return Open;
      }
      if openedAt == 0 {
        return Closed;
      }
      var elapsed := if now < openedAt then 0 else now - openedAt;
      if elapsed >= cooldown {
        return HalfOpen;
      }
      return Open;
    }

    method RetryAfter(now: nat) returns (secs: nat)
      ensures secs == RetryAfterSecs(View(), now)
    {
      if openedAt == 0 {
        return 0;
      }
      var elapsed := if now < openedAt then 0 else now - openedAt;
      if elapsed >= cooldown {
        return 0;
      }
      var remaining := cooldown - elapsed;
      return (remaining + 999) / 1000;
    }

    method AllowRequest(now: nat) returns (allowed: bool)
      modifies this`inFlight
      ensures allowed == Admits(cfg, old(View()), now)
      ensures View() == OnAllow(cfg, old(View()), now)
    {
      var s := State(now);
      if s == Closed {
        return true;
      }
      if s == Open || inFlight >= cfg.probeLimit {
        return false;
      }
      inFlight := inFlight + 1;
      return true;
    }

    method RecordSuccess(now: nat)
      modifies this
      ensures View() == OnSuccess(cfg, old(View()), now)
    {
      failures := 0;
      var s := State(now);
      if s == HalfOpen {
        inFlight := Decrement(inFlight);
        successes := successes + 1;
        if successes >= cfg.successThreshold {
          CloseCircuit();
        }
      } else if s == Closed {
        successes := successes + 1;
      }
    }

    method RecordFailure(now: nat)
      modifies this
      ensures View() == OnFailure(cfg, old(View()), now)
    {
      successes := 0;
      var s := State(now);
      if s == HalfOpen {
        inFlight := Decrement(inFlight);
        TripCircuit(now);
      } else if s == Closed {
        failures := failures + 1;
        if failures >= cfg.failureThreshold {
          TripCircuit(now);
        }
      }
    }

    method TripCircuit(now: nat)
      modifies this
      ensures View() == Trip(cfg, old(View()), now)
    {
      trips := trips + 1;
      cooldown := Cooldown(cfg, trips);
      openedAt := now;
      failures := 0;
      inFlight := 0;
    }

    method CloseCircuit()
      modifies this
      ensures View() == Close(cfg, old(View()))
    {
      openedAt, failures, successes, trips, inFlight := 0, 0, 0, 0, 0;
      cooldown := cfg.initialMs;
    }

    method ManualTrip(now: nat)
      modifies this
      ensures View() == Trip(cfg, old(View()).(manual := true), now)
    {
      manual := true;
      TripCircuit(now);
    }

    method ManualReset()
      modifies this
      ensures View() == Initial(cfg)
    {
      manual := false;
      CloseCircuit();
    }

    /** A guarded call: a refusal runs nothing and reports the wait; otherwise the outcome
        of the call, a timeout counting as a failure, is recorded when it finishes. */
    method Call(startedAt: nat, finishedAt: nat, outcome: Outcome) returns (r: CallResult)
      requires startedAt <= finishedAt
      modifies this
      ensures r.CircuitOpen? <==> !Admits(cfg, old(View()), startedAt)
      ensures r.CircuitOpen? ==> View() == old(View()) && r.retryAfter == RetryAfterSecs(View(), startedAt)
      ensures !r.CircuitOpen? ==>
                && r == Finished(outcome)
                && var c := OnAllow(cfg, old(View()), startedAt);
                   View() == if outcome.Succeeded? then OnSuccess(cfg, c, finishedAt) else OnFailure(cfg, c, finishedAt)
    {
      var allowed := AllowRequest(startedAt);
      if !allowed {
        var wait := RetryAfter(startedAt);
        return CircuitOpen(wait);
      }
      if outcome.Succeeded? {
        RecordSuccess(finishedAt);
      } else {
        RecordFailure(finishedAt);
      }
      return Finished(outcome);
    }
  }

  datatype Outcome = Succeeded | Failed | TimedOut

  datatype CallResult = CircuitOpen(retryAfter: nat) | Finished(outcome: Outcome)

  // --- the cooldown ladder ---

  lemma PowerGrows(m: real, e: nat)
    requires m >= 1.0
    ensures 1.0 <= Power(m, e) <= Power(m, e + 1)
  {
    if e > 0 {
      PowerGrows(m, e - 1);
    }
    ScaleUp(m, Power(m, e));
  }

  lemma ScaleUp(m: real, p: real)
    requires m >= 1.0 && p >= 1.0
    ensures m * p >= p
  {
  }

  lemma ScaleMonotone(k: real, p: real, q: real)
    requires k >= 0.0 && p <= q
    ensures k * p <= k * q
  {
  }

  lemma TruncateMonotone(cfg: Config, x: real, y: real)
    requires x <= y
    ensures Truncate(cfg, x) <= Truncate(cfg, y) <= cfg.maxMs
  {
  }

  lemma BackoffGrows(cfg: Config, e: nat)
    requires cfg.multiplier >= 1.0
    ensures Backoff(cfg, e) <= Backoff(cfg, e + 1)
  {
    PowerGrows(cfg.multiplier, e);
    ScaleMonotone(cfg.initialMs as real, Power(cfg.multiplier, e), Power(cfg.multiplier, e + 1));
  }

  /** Each trip since the last close waits at least as long as the one before, never
      longer than the cap, and no longer from the eleventh trip on. */
  lemma CooldownLadder(cfg: Config, k: nat)
    requires k >= 1 && cfg.multiplier >= 1.0
    ensures Cooldown(cfg, k) <= Cooldown(cfg, k + 1) <= cfg.maxMs
    ensures k >= 11 ==> Cooldown(cfg, k + 1) == Cooldown(cfg, k)
  {
    if k < 11 {
      BackoffGrows(cfg, k - 1);
      TruncateMonotone(cfg, Backoff(cfg, k - 1), Backoff(cfg, k));
    } else {
      TruncateMonotone(cfg, Backoff(cfg, 10), Backoff(cfg, 10));
    }
  }

  // --- the documented cooldowns ---

  /** Whole-number powers, for whole multipliers. */
  function Factor(m: nat, e: nat): nat {
    if e == 0 then 1 else m * Factor(m, e - 1)
  }

  lemma {:induction false} PowerIsFactor(m: nat, e: nat)
    ensures Power(m as real, e) == Factor(m, e) as real
  {
    if e > 0 {
      PowerIsFactor(m, e - 1);
      RealProduct(m, Factor(m, e - 1));
    }
  }

  lemma RealProduct(x: nat, y: nat)
    ensures (x * y) as real == x as real * y as real
  {
  }

  function AtMost(ms: nat, cap: nat): nat {
    if ms < cap then ms else cap
  }

  /** For a whole multiplier the `k`-th trip waits the initial backoff times the multiplier to
      the power `k - 1`, at most to the tenth, up to the cap. */
  lemma CooldownIsDocumented(cfg: Config, m: nat, k: nat)
    requires k >= 1 && cfg.multiplier == m as real
    ensures Cooldown(cfg, k) == AtMost(cfg.initialMs * Factor(m, if k <= 11 then k - 1 else 10), cfg.maxMs)
  {
    BackoffIsWhole(cfg, m, Exponent(k));
    TruncateWhole(cfg, cfg.initialMs * Factor(m, Exponent(k)));
  }

  lemma BackoffIsWhole(cfg: Config, m: nat, e: nat)
    requires cfg.multiplier == m as real
    ensures Backoff(cfg, e) == (cfg.initialMs * Factor(m, e)) as real
  {
    PowerIsFactor(m, e);
    RealProduct(cfg.initialMs, Factor(m, e));
  }

  lemma TruncateWhole(cfg: Config, ms: nat)
    ensures Truncate(cfg, ms as real) == AtMost(ms, cfg.maxMs)
  {
  }

  /** Whatever the multiplier, the first trip waits the initial backoff, up to the cap; and a
      further trip waits the multiple of the wait before it, until the cap or the eleventh. */
  lemma CooldownFromTripToTrip(cfg: Config, k: nat)
    requires k >= 1 && cfg.multiplier >= 0.0
    ensures Cooldown(cfg, 1) == AtMost(cfg.initialMs, cfg.maxMs)
    ensures Backoff(cfg, 0) == cfg.initialMs as real && Backoff(cfg, k) == cfg.multiplier * Backoff(cfg, k - 1)
    ensures var wait := Backoff(cfg, Exponent(k));
            if wait <= cfg.maxMs as real then Cooldown(cfg, k) as real <= wait < Cooldown(cfg, k) as real + 1.0
            else Cooldown(cfg, k) == cfg.maxMs
  {
    TruncateWhole(cfg, cfg.initialMs);
    BackoffPositive(cfg, Exponent(k));
    Reassociate(cfg.initialMs as real, cfg.multiplier, Power(cfg.multiplier, k - 1));
  }

  lemma Reassociate(x: real, y: real, z: real)
    ensures x * (y * z) == y * (x * z)
  {
  }

  lemma {:induction false} BackoffPositive(cfg: Config, e: nat)
    requires cfg.multiplier >= 0.0
    ensures Backoff(cfg, e) >= 0.0
  {
    PowerPositive(cfg.multiplier, e);
    ScaleMonotone(cfg.initialMs as real, 0.0, Power(cfg.multiplier, e));
  }

  lemma {:induction false} PowerPositive(m: real, e: nat)
    requires m >= 0.0
    ensures Power(m, e) >= 0.0
  {
    if e > 0 {
      PowerPositive(m, e - 1);
      ScaleMonotone(m, 0.0, Power(m, e - 1));
    }
  }

  /** The default settings: five seconds, doubled from trip to trip, up to a minute. */
  const DEFAULT: Config := Config(5, 2, 5000, 60000, 2.0, 1)

  lemma DefaultCooldowns(k: nat)
    requires k >= 1
    ensures Cooldown(DEFAULT, k) ==
            match k case 1 => 5000 case 2 => 10000 case 3 => 20000 case 4 => 40000 case _ => 60000
  {
    CooldownIsDocumented(DEFAULT, 2, k);
    DoublingGrows(if k <= 11 then k - 1 else 10);
  }

  lemma {:induction false} DoublingGrows(e: nat)
    ensures Factor(2, 0) == 1 && Factor(2, 1) == 2 && Factor(2, 2) == 4 && Factor(2, 3) == 8
    ensures e >= 4 ==> Factor(2, e) >= 16
  {
    if e >= 5 {
      DoublingGrows(e - 1);
    }
  }

  /** A wait is advertised exactly while a cooldown runs. */
  lemma WaitsIffCoolingDown(c: Counters, now: nat)
    ensures RetryAfterSecs(c, now) > 0 <==> c.openedAt > 0 && Elapsed(c, now) < c.cooldown
    ensures StateAt(c, now).Closed? || StateAt(c, now).HalfOpen? ==> RetryAfterSecs(c, now) == 0
  {
  }

  /** Closing does not lift a manual override, and otherwise leaves a breaker like a new one. */
  lemma CloseRespectsOverride(cfg: Config, c: Counters, now: nat)
    ensures StateAt(Close(cfg, c), now) == if c.manual then Open else Closed
    ensures !c.manual ==> Close(cfg, c) == Initial(cfg)
  {
  }

  /** Without a manual override, waiting the advertised number of seconds reaches
      half-open and no smaller whole number of seconds does; under one, no wait does. */
  lemma RetryAfterIsLeast(c: Counters, now: nat, wait: nat)
    requires 0 < c.openedAt <= now
    ensures StateAt(c, now + 1000 * wait).HalfOpen? <==> !c.manual && RetryAfterSecs(c, now) <= wait
  {
  }
}
