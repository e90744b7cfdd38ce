/** The per-connection circuit breaker: its state machine, the object that runs it, and what
    holds over every run. Times and timeouts are integers in one unit. */
module Breakers {
  import opened Powers
  import opened Results

  datatype CircuitState = Closed | Open | HalfOpen

  datatype Config = Config(failureThreshold: int, recoveryTimeout: int, recoveryTimeoutMax: int, successThreshold: int)

  predicate Sane(c: Config) {
    c.failureThreshold >= 1 && c.successThreshold >= 1 && c.recoveryTimeout >= 0 && c.recoveryTimeoutMax >= 0
  }

  datatype Breaker = Breaker(state: CircuitState, failures: int, successes: int, lastFailure: int, openCycles: int)

  const FRESH := Breaker(Closed, 0, 0, 0, 0)

  const EXPONENT_CAP := 32

  /** The wait scheduled after the given number of trips. */
  function Wait(c: Config, openCycles: int): int {
    if openCycles <= 0 then c.recoveryTimeout
    else Min(c.recoveryTimeout * Pow2(Min(Max(0, openCycles - 1), EXPONENT_CAP)), c.recoveryTimeoutMax)
  }

  // ----- the transitions -----

  /** Looking at the state lets an expired OPEN become HALF_OPEN. */
  function Observed(c: Config, b: Breaker, now: int): Breaker {
    if b.state == Open && now - b.lastFailure >= Wait(c, b.openCycles)
    then b.(state := HalfOpen, successes := 0)
    else b
  }

  function Succeeded(c: Config, b: Breaker): Breaker {
    match b.state
    case HalfOpen =>
      if b.successes + 1 >= c.successThreshold then b.(state := Closed, failures := 0, successes := 0, openCycles := 0)
      else b.(successes := b.successes + 1)
    case Closed => if b.failures > 0 then b.(failures := Max(0, b.failures - 1)) else b
    case Open => b
  }

  function Failed(c: Config, b: Breaker, now: int): Breaker {
    var f := b.(failures := b.failures + 1, lastFailure := now);
    if b.state == HalfOpen || (b.state == Closed && f.failures >= c.failureThreshold)
    then f.(state := Open, openCycles := b.openCycles + 1)
    else f
  }

  class CircuitBreaker {
    const config: Config
    var state: CircuitState
    var failureCount: int
    var successCount: int
    var lastFailureTime: int
    var openCycles: int

    ghost function View(): Breaker
      reads this
    {
      Breaker(state, failureCount, successCount, lastFailureTime, openCycles)
    }

    constructor (config: Config)
      ensures this.config == config && View() == FRESH
    {
      this.config := config;
      state, failureCount, successCount, lastFailureTime, openCycles := Closed, 0, 0, 0, 0;
    }

    method ComputeRecoveryTimeout() returns (wait: int)
      ensures wait == Wait(config, openCycles)
    {
      if openCycles <= 0 { return config.recoveryTimeout; }
      var exponent := Max(0, openCycles - 1);
      exponent := Min(exponent, EXPONENT_CAP);
      wait := config.recoveryTimeout * Pow2(exponent);
      wait := Min(wait, config.recoveryTimeoutMax);
    }

    method EffectiveState(now: int) returns (s: CircuitState)
      modifies this
      ensures View() == Observed(config, old(View()), now) && s == state
    {
      if state == Open {
        var elapsed := now - lastFailureTime;
        var wait := ComputeRecoveryTimeout();
        if elapsed >= wait {
          state := HalfOpen;
          successCount := 0;
        }
      }
      s := state;
    }

    method RecordSuccess()
      modifies this
      ensures View() == Succeeded(config, old(View()))
    {
      if state == HalfOpen {
        successCount := successCount + 1;
        if successCount >= config.successThreshold {
          state := Closed;
          failureCount, successCount, openCycles := 0, 0, 0;
        }
      } else if state == Closed && failureCount > 0 {
        failureCount := Max(0, failureCount - 1);
      }
    }

    method RecordFailure(now: int)
      modifies this
      ensures View() == Failed(config, old(View()), now)
    {
      failureCount := failureCount + 1;
      lastFailureTime := now;
      if state == HalfOpen {
        state := Open;
        openCycles := openCycles + 1;
      } else if state == Closed && failureCount >= config.failureThreshold {
        state := Open;
        openCycles := openCycles + 1;
      }
    }

    /** Refuses exactly while the circuit is OPEN, and says how long that lasts unless another
        failure is recorded. */
    method CheckState(now: int) returns (retryAfter: Option<int>)
      modifies this
      ensures View() == Observed(config, old(View()), now)
      ensures retryAfter.Some? <==> state == Open
      ensures retryAfter.Some? ==> retryAfter.value > 0
      ensures retryAfter.Some? ==> forall t :: Observed(config, View(), t).state == Open <==> t < now + retryAfter.value
    {
      var s := EffectiveState(now);
      if s != Open { return None; }
      var wait := ComputeRecoveryTimeout();
      return Some(Max(0, wait - (now - lastFailureTime)));
    }

    method Reset()
      modifies this
      ensures View() == FRESH
    {
      state, failureCount, successCount, lastFailureTime, openCycles := Closed, 0, 0, 0, 0;
    }
  }

  // ----- the schedule of waits -----

  /** Further trips never shorten the wait, and no wait after a trip exceeds the cap. */
  lemma WaitGrowsUpToTheCap(c: Config, i: int, j: int)
    requires Sane(c) && 1 <= i <= j
    ensures 0 <= Wait(c, i) <= Wait(c, j) <= c.recoveryTimeoutMax
  {
    var m, n := Min(i - 1, EXPONENT_CAP), Min(j - 1, EXPONENT_CAP);
    Pow2Monotone(m, n);
    Product(c.recoveryTimeout, Pow2(m), Pow2(n));
  }

  lemma ScaledUp(base: int, x: int, y: int)
    requires base > 0 && x > 0 && 2 * x <= y
    ensures base * x < base * y
  {
    Product(base, 2 * x, y);
    assert base * (2 * x) == base * x + base * x;
  }

  /** The wait is base * 2^(n - 1), cut off at the maximum, exactly unless the exponent is cut
      off before that wait reaches the maximum. */
  lemma WaitIsTheFormulaIff(c: Config, n: nat)
    requires Sane(c) && n >= 1
    ensures Wait(c, n) == Min(c.recoveryTimeout * Pow2(n - 1), c.recoveryTimeoutMax) <==>
            || n <= EXPONENT_CAP + 1
            || c.recoveryTimeout == 0
            || c.recoveryTimeout * Pow2(EXPONENT_CAP) >= c.recoveryTimeoutMax
  {
    if n > EXPONENT_CAP + 1 {
      var base, x, y := c.recoveryTimeout, Pow2(EXPONENT_CAP), Pow2(n - 1);
      Pow2Monotone(EXPONENT_CAP, n - 1);
      Product(base, x, y);
      if base > 0 {
        ScaledUp(base, x, y);
      }
    }
  }

  /** A wait exceeds the maximum exactly if the breaker never tripped since it was closed, and
      its base does. */
  lemma WaitExceedsTheCapIff(c: Config, n: int)
    requires Sane(c)
    ensures Wait(c, n) > c.recoveryTimeoutMax <==> n <= 0 && c.recoveryTimeout > c.recoveryTimeoutMax
  {
    if n >= 1 {
      WaitGrowsUpToTheCap(c, n, n);
    }
  }

  function WaitSum(c: Config, n: nat): int {
    if n == 0 then 0 else WaitSum(c, n - 1) + Wait(c, n)
  }

  /** While no wait has been capped the waits double, so n of them sum to base * (2^n - 1). */
  lemma {:induction false} WaitsDouble(c: Config, n: nat)
    requires Sane(c) && n <= EXPONENT_CAP + 1
    requires n > 0 ==> c.recoveryTimeout * Pow2(n - 1) <= c.recoveryTimeoutMax
    ensures WaitSum(c, n) == c.recoveryTimeout * (Pow2(n) - 1)
  {
    if n > 0 {
      if n > 1 {
        Pow2Monotone(n - 2, n - 1);
        Product(c.recoveryTimeout, Pow2(n - 2), Pow2(n - 1));
      }
      WaitsDouble(c, n - 1);
      Doubling(c.recoveryTimeout, Pow2(n - 1));
    }
  }

  // ----- runs -----

  datatype Event =
    | Success(at: int)
    | Failure(at: int)
    | Observe(at: int)
    | Attempt(at: int)
    | Reset(at: int)

  /** An attempt checks the circuit, and calls the tool only if that does not raise. */
  function Apply(c: Config, b: Breaker, e: Event): Breaker {
    match e
    case Success(_) => Succeeded(c, b)
    case Failure(t) => Failed(c, b, t)
    case Observe(t) => Observed(c, b, t)
    case Attempt(t) => Observed(c, b, t)
    case Reset(_) => FRESH
  }

  predicate Ordered(events: seq<Event>) {
    forall i, j :: 0 <= i < j < |events| ==> events[i].at <= events[j].at
  }

  function Run(c: Config, events: seq<Event>): Breaker {
    if events == [] then FRESH
    else Apply(c, Run(c, events[..|events| - 1]), events[|events| - 1])
  }

  /** The times of the entries into OPEN since the circuit was last closed or reset. */
  function Trips(c: Config, events: seq<Event>): seq<int> {
    if events == [] then []
    else
      var front, last := events[..|events| - 1], events[|events| - 1];
      TripsAfter(Trips(c, front), Run(c, front), Run(c, events), last.at)
  }

  function TripsAfter(trips: seq<int>, before: Breaker, after: Breaker, at: int): seq<int> {
    if after.state == Closed then []
    else if before.state != Open && after.state == Open then trips + [at]
    else trips
  }

  /** The counters: zero cycles exactly when closed, counts below their thresholds. */
  predicate CountersOk(c: Config, b: Breaker) {
    && b.failures >= 0 && b.successes >= 0 && b.openCycles >= 0
    && (b.state == Closed <==> b.openCycles == 0)
    && (b.state == Closed ==> b.failures < c.failureThreshold)
    && (b.state == HalfOpen ==> b.successes < c.successThreshold)
  }

  /** Each trip is at least the wait of its predecessor later; an open circuit has its last
      failure at or after the last trip, and a half-open one has waited since. */
  predicate Scheduled(c: Config, b: Breaker, trips: seq<int>, now: int) {
    && (forall i :: 0 < i < |trips| ==> trips[i - 1] + Wait(c, i) <= trips[i])
    && (trips != [] ==> trips[|trips| - 1] <= now)
    && (b.state == Open ==> trips != [] && trips[|trips| - 1] <= b.lastFailure <= now)
    && (b.state == HalfOpen ==> trips != [] && trips[|trips| - 1] + Wait(c, |trips|) <= now)
  }

  lemma {:induction false} CountersAlwaysOk(c: Config, events: seq<Event>)
    requires Sane(c)
    ensures CountersOk(c, Run(c, events))
    ensures Run(c, events).openCycles == |Trips(c, events)|
  {
    if events != [] {
      CountersAlwaysOk(c, events[..|events| - 1]);
    }
  }

  lemma StepStaysScheduled(c: Config, b: Breaker, trips: seq<int>, now: int, e: Event)
    requires Sane(c) && CountersOk(c, b) && b.openCycles == |trips|
    requires Scheduled(c, b, trips, now) && now <= e.at
    ensures Scheduled(c, Apply(c, b, e), TripsAfter(trips, b, Apply(c, b, e), e.at), e.at)
  {
  }

  lemma {:induction false} AlwaysScheduled(c: Config, events: seq<Event>)
    requires Sane(c) && Ordered(events) && events != []
    ensures Scheduled(c, Run(c, events), Trips(c, events), events[|events| - 1].at)
  {
    var front, last := events[..|events| - 1], events[|events| - 1];
    CountersAlwaysOk(c, front);
    var now := last.at;
    if front != [] {
      AlwaysScheduled(c, front);
      now := front[|front| - 1].at;
      assert now == events[|events| - 2].at;
    }
    StepStaysScheduled(c, Run(c, front), Trips(c, front), now, last);
  }

  /** The k-th trip since the last close or reset comes no earlier than the first one plus the
      waits of the trips before it. */
  lemma {:induction false} TripsKeepTheirDistance(c: Config, events: seq<Event>, k: nat)
    requires Sane(c) && Ordered(events) && 1 <= k <= |Trips(c, events)|
    ensures Trips(c, events)[0] + WaitSum(c, k - 1) <= Trips(c, events)[k - 1]
  {
    if k > 1 {
      TripsKeepTheirDistance(c, events, k - 1);
      AlwaysScheduled(c, events);
    }
  }

  /** The closed form of that bound while no wait has reached the cap. */
  lemma BackoffIsExponential(c: Config, events: seq<Event>, k: nat)
    requires Sane(c) && Ordered(events) && 1 <= k <= |Trips(c, events)|
    requires k <= EXPONENT_CAP + 2 && (k > 1 ==> c.recoveryTimeout * Pow2(k - 2) <= c.recoveryTimeoutMax)
    ensures Trips(c, events)[0] + c.recoveryTimeout * (Pow2(k - 1) - 1) <= Trips(c, events)[k - 1]
  {
    TripsKeepTheirDistance(c, events, k);
    WaitsDouble(c, k - 1);
  }

  // ----- when a closed circuit trips -----

  function Weight(e: Event): int {
    if e.Failure? then 1 else if e.Success? then -1 else 0
  }

  /** How many more failures than successes there are. */
  function Balance(events: seq<Event>): int {
    if events == [] then 0 else Balance(events[..|events| - 1]) + Weight(events[|events| - 1])
  }

  lemma BalanceOfLonger(events: seq<Event>, j: nat)
    requires j < |events|
    ensures Balance(events[j..]) == Balance(events[..|events| - 1][j..]) + Weight(events[|events| - 1])
  {
    var n := |events| - 1;
    assert events[j..][..n - j] == events[..n][j..];
  }

  predicate NeverLeftClosed(c: Config, events: seq<Event>) {
    forall i :: 0 <= i <= |events| ==> Run(c, events[..i]).state == Closed
  }

  predicate WithoutReset(events: seq<Event>) {
    forall i :: 0 <= i < |events| ==> !events[i].Reset?
  }

  /** While closed, the failure count is the largest excess of failures over successes in any
      stretch of events up to now. */
  lemma {:induction false} FailureCountIsWorstStretch(c: Config, events: seq<Event>) returns (worst: nat)
    requires NeverLeftClosed(c, events) && WithoutReset(events)
    ensures worst <= |events| && Balance(events[worst..]) == Run(c, events).failures
    ensures forall j :: 0 <= j <= |events| ==> Balance(events[j..]) <= Run(c, events).failures
  {
    worst := 0;
    if events != [] {
      var n, front, last := |events| - 1, events[..|events| - 1], events[|events| - 1];
      assert forall i :: 0 <= i <= n ==> front[..i] == events[..i];
      assert front[..n] == front && events[..n + 1] == events;
      assert Run(c, front).state == Closed && Run(c, events).state == Closed;
      var w := FailureCountIsWorstStretch(c, front);
      forall j | 0 <= j <= n ensures Balance(events[j..]) == Balance(front[j..]) + Weight(last) {
        BalanceOfLonger(events, j);
      }
      assert front[n..] == [] && events[n + 1..] == [];
      assert Run(c, events).failures == Max(0, Run(c, front).failures + Weight(last));
      worst := if Run(c, front).failures + Weight(last) < 0 then n + 1 else w;
    }
  }

  /** A closed circuit trips at a failure exactly if failures now outnumber successes by the
      threshold in some stretch of events that ends with it. */
  lemma TripsAtAnExcessOfFailures(c: Config, events: seq<Event>, t: int)
    requires Sane(c) && NeverLeftClosed(c, events) && WithoutReset(events)
    ensures Run(c, events + [Failure(t)]).state == Open <==>
              exists j :: 0 <= j <= |events| && Balance(events[j..]) + 1 >= c.failureThreshold
  {
    var worst := FailureCountIsWorstStretch(c, events);
    assert (events + [Failure(t)])[..|events|] == events;
    assert events[..|events|] == events;
  }

  // ----- an open circuit admits nothing before its wait is over -----

  function RunFrom(c: Config, b: Breaker, events: seq<Event>): Breaker
    decreases |events|
  {
    if events == [] then b
    else Apply(c, RunFrom(c, b, events[..|events| - 1]), events[|events| - 1])
  }

  lemma RunFromSnoc(c: Config, b: Breaker, log: seq<Event>, e: Event)
    ensures RunFrom(c, b, log + [e]) == Apply(c, RunFrom(c, b, log), e)
  {
    assert (log + [e])[..|log|] == log;
  }

  lemma {:induction false} RunFromConcat(c: Config, b: Breaker, log: seq<Event>, chunk: seq<Event>)
    ensures RunFrom(c, b, log + chunk) == RunFrom(c, RunFrom(c, b, log), chunk)
  {
    if chunk == [] {
      assert log + chunk == log;
    } else {
      var n := |chunk| - 1;
      RunFromConcat(c, b, log, chunk[..n]);
      assert (log + chunk)[..|log| + n] == log + chunk[..n];
    }
  }

  predicate Admitted(c: Config, b: Breaker, events: seq<Event>, i: nat)
    requires i < |events|
  {
    events[i].Attempt? && Observed(c, RunFrom(c, b, events[..i]), events[i].at).state != Open
  }

  /** As long as the wait is not over, the circuit stays open with the same number of cycles. */
  lemma {:induction false} OpenStaysOpen(c: Config, b: Breaker, events: seq<Event>)
    requires b.state == Open && forall i :: 0 <= i < |events| ==> !events[i].Reset?
    requires forall i :: 0 <= i < |events| ==> b.lastFailure <= events[i].at < b.lastFailure + Wait(c, b.openCycles)
    ensures var b' := RunFrom(c, b, events);
            b'.state == Open && b'.openCycles == b.openCycles && b.lastFailure <= b'.lastFailure
  {
    if events != [] {
      OpenStaysOpen(c, b, events[..|events| - 1]);
    }
  }

  /** Once the circuit is OPEN, no interleaving of attempts, successes, failures and state
      reads calls the tool before the last failure plus the current wait. */
  lemma OpenCircuitHolds(c: Config, b: Breaker, events: seq<Event>, i: nat)
    requires b.state == Open && Ordered(events) && i < |events| && Admitted(c, b, events, i)
    requires forall j :: 0 <= j < |events| ==> !events[j].Reset? && b.lastFailure <= events[j].at
    ensures events[i].at >= b.lastFailure + Wait(c, b.openCycles)
  {
    if events[i].at < b.lastFailure + Wait(c, b.openCycles) {
      var front := events[..i];
      assert forall j :: 0 <= j < i ==> front[j] == events[j] && events[j].at <= events[i].at;
      OpenStaysOpen(c, b, front);
    }
  }

  // ----- how a circuit recovers, and how it does not -----

  predicate OnlySuccesses(events: seq<Event>) {
    forall i :: 0 <= i < |events| ==> events[i].Success?
  }

  /** A half-open circuit closes, with its counters cleared, at the success that makes up the
      threshold, and at none before. */
  lemma {:induction false} HalfOpenClosesIff(c: Config, b: Breaker, events: seq<Event>)
    requires Sane(c) && CountersOk(c, b) && b.state == HalfOpen && OnlySuccesses(events)
    ensures var after := RunFrom(c, b, events);
            if b.successes + |events| >= c.successThreshold
            then after.state == Closed && after.openCycles == 0 && after.failures == 0 && after.successes == 0
            else after == b.(successes := b.successes + |events|)
  {
    if events != [] {
      HalfOpenClosesIff(c, b, events[..|events| - 1]);
    }
  }

  /** After its wait an open circuit admits a call, and closes iff so many successes follow as
      the threshold asks for, whatever was counted before. */
  lemma OpenRecoversIff(c: Config, b: Breaker, t: int, events: seq<Event>)
    requires Sane(c) && CountersOk(c, b) && b.state == Open && OnlySuccesses(events)
    requires t >= b.lastFailure + Wait(c, b.openCycles)
    ensures Admitted(c, b, [Attempt(t)] + events, 0)
    ensures RunFrom(c, b, [Attempt(t)] + events).state == Closed <==> |events| >= c.successThreshold
  {
    RunFromConcat(c, b, [Attempt(t)], events);
    RunFromSnoc(c, b, [], Attempt(t));
    assert [] + [Attempt(t)] == [Attempt(t)];
    assert ([Attempt(t)] + events)[..0] == [];
    HalfOpenClosesIff(c, Observed(c, b, t), events);
  }

  /** A failure leaves a circuit open unless it was closed and stays below its threshold; an
      open circuit is in the same cycle then, any other in the next one; and it admits calls
      again exactly from that cycle's wait after the failure on. */
  lemma FailureSchedulesTheWait(c: Config, b: Breaker, t: int)
    requires Sane(c) && CountersOk(c, b)
    ensures var after, cycle := Failed(c, b, t), if b.state == Open then b.openCycles else b.openCycles + 1;
            && after.failures == b.failures + 1
            && (after.state == Closed <==> b.state == Closed && b.failures + 1 < c.failureThreshold)
            && (after.state != Closed ==> after.state == Open && after.openCycles == cycle)
            && (after.state != Closed ==> forall u :: Observed(c, after, u).state == Open <==> u < t + Wait(c, cycle))
  {
  }
}
