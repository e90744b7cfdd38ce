/** The retrying tool adapter: a bounded loop of attempts that consults and drives a circuit
    breaker, and lets nothing RED through. The breaker is shared: while an execution awaits a
    tool or sleeps, others may attempt calls, report successes and failures, and look at it. */
module RetryAdapter {
  import opened Powers
  import opened Results
  import opened Breakers
  import opened TlpFilter

  /** What one call of the tool does: how long it takes, what others do to the breaker in that
      time, and how it ends. */
  datatype ToolRun = ToolRun(duration: nat, meanwhile: seq<Event>, outcome: ToolOutcome)
  datatype ToolOutcome = Returned(result: Json) | Raised | RaisedCircuitOpen

  /** Around an execution: the n-th call of the tool, if it starts at a time, and what others do
      during the sleep after the n-th attempt, if that starts at a time. */
  datatype World = World(tool: (nat, int) -> ToolRun, asleep: (nat, int) -> seq<Event>)

  datatype ExecError = CircuitOpen | ToolFailed | TlpRefused | NoAttempts

  function BackoffDelay(base: nat, cap: nat, attempt: nat): nat
    requires attempt >= 1
  {
    Min(base * Pow2(attempt - 1), cap)
  }

  /** The sum of the first n delays. */
  function TotalDelay(base: nat, cap: nat, n: nat): int {
    if n == 0 then 0 else TotalDelay(base, cap, n - 1) + BackoffDelay(base, cap, n)
  }

  /** All delays together stay within base * (2^n - 1), and reach it if none is capped. */
  lemma {:induction false} TotalDelayIsBounded(base: nat, cap: nat, n: nat)
    ensures 0 <= TotalDelay(base, cap, n) <= base * (Pow2(n) - 1)
    ensures n == 0 || base * Pow2(n - 1) <= cap ==> TotalDelay(base, cap, n) == base * (Pow2(n) - 1)
  {
    if n > 0 {
      TotalDelayIsBounded(base, cap, n - 1);
      var x := Pow2(n - 1);
      Doubling(base, x);
      Product(base, 0, x);
      if n > 1 {
        Product(base, Pow2(n - 2), x);
      }
    }
  }

  lemma SleepsWithin(base: nat, cap: nat, k: nat, n: nat)
    requires k <= n
    ensures 0 <= TotalDelay(base, cap, k) <= base * (Pow2(n) - 1)
  {
    TotalDelayIsBounded(base, cap, k);
    Pow2Monotone(k, n);
    Product(base, Pow2(k) - 1, Pow2(n) - 1);
  }

  /** Events in order within a stretch of time in which nobody resets the breaker. */
  predicate Meanwhile(events: seq<Event>, from: int, to: int) {
    from <= to && Ordered(events) && forall i :: 0 <= i < |events| ==> !events[i].Reset? && from <= events[i].at <= to
  }

  ghost predicate Timely(w: World, base: nat, cap: nat) {
    && (forall n: nat, t: int :: Meanwhile(w.tool(n, t).meanwhile, t, t + w.tool(n, t).duration))
    && (forall n: nat, t: int :: n >= 1 ==> Meanwhile(w.asleep(n, t), t, t + BackoffDelay(base, cap, n)))
  }

  lemma MeanwhileConcat(a: seq<Event>, b: seq<Event>, from: int, mid: int, to: int)
    requires Meanwhile(a, from, mid) && Meanwhile(b, mid, to)
    ensures Meanwhile(a + b, from, to)
  {
  }

  function AdmittedCount(c: Config, b: Breaker, events: seq<Event>): nat {
    if events == [] then 0
    else
      var n := |events| - 1;
      AdmittedCount(c, b, events[..n]) + if Admitted(c, b, events, n) then 1 else 0
  }

  /** A log of events between two times which, for a breaker that starts as b, admits at least
      so many calls. */
  ghost predicate Logs(c: Config, b: Breaker, log: seq<Event>, from: int, to: int, calls: nat) {
    Meanwhile(log, from, to) && calls <= AdmittedCount(c, b, log)
  }

  lemma {:induction false} CountGrows(c: Config, b: Breaker, log: seq<Event>, more: seq<Event>)
    ensures AdmittedCount(c, b, log) <= AdmittedCount(c, b, log + more)
  {
    if more == [] {
      assert log + more == log;
    } else {
      var n := |more| - 1;
      CountGrows(c, b, log, more[..n]);
      assert (log + more)[..|log| + n] == log + more[..n];
    }
  }

  lemma LogsOn(c: Config, b: Breaker, log: seq<Event>, more: seq<Event>, from: int, to: int, end: int, calls: nat)
    requires Logs(c, b, log, from, to, calls) && Meanwhile(more, to, end)
    ensures Logs(c, b, log + more, from, end, calls)
  {
    MeanwhileConcat(log, more, from, to, end);
    CountGrows(c, b, log, more);
  }

  lemma LogsAttempt(c: Config, b: Breaker, log: seq<Event>, from: int, to: int, calls: nat)
    requires Logs(c, b, log, from, to, calls)
    ensures Logs(c, b, log + [Attempt(to)], from, to, calls + if Admits(c, RunFrom(c, b, log), to) then 1 else 0)
  {
    assert (log + [Attempt(to)])[..|log|] == log;
  }

  predicate Admits(c: Config, b: Breaker, t: int) {
    Observed(c, b, t).state != Open
  }

  /** What is reported to the breaker after a call of the tool that ended at u. */
  function Reports(outcome: ToolOutcome, contextIsRed: bool, u: int): (r: seq<Event>)
    ensures Meanwhile(r, u, u)
  {
    match outcome
    case RaisedCircuitOpen => []
    case Raised => [Failure(u)]
    case Returned(result) => if Passes(result, contextIsRed) then [Success(u)] else [Success(u)] + [Failure(u)]
  }

  /** What the breaker sees during one attempt that starts at t. */
  function Chunk(admitted: bool, run: ToolRun, contextIsRed: bool, t: int): seq<Event> {
    if !admitted then [Attempt(t)]
    else [Attempt(t)] + (run.meanwhile + Reports(run.outcome, contextIsRed, t + run.duration))
  }

  lemma LogsChunk(c: Config, b: Breaker, log: seq<Event>, from: int, to: int, u: int, calls: nat,
                  others: seq<Event>, reports: seq<Event>, chunk: seq<Event>, admitted: bool)
    requires Logs(c, b, log, from, to, calls) && Meanwhile(others, to, u) && Meanwhile(reports, u, u)
    requires admitted <==> Admits(c, RunFrom(c, b, log), to)
    requires chunk == if admitted then [Attempt(to)] + (others + reports) else [Attempt(to)]
    ensures Logs(c, b, log + chunk, from, if admitted then u else to, calls + if admitted then 1 else 0)
  {
    LogsAttempt(c, b, log, from, to, calls);
    if admitted {
      LogsRest(c, b, log, [Attempt(to)], others, reports, from, to, u, calls + 1);
    }
  }

  lemma LogsRest(c: Config, b: Breaker, log: seq<Event>, first: seq<Event>, others: seq<Event>, reports: seq<Event>,
                 from: int, to: int, u: int, calls: nat)
    requires Logs(c, b, log + first, from, to, calls) && Meanwhile(others, to, u) && Meanwhile(reports, u, u)
    ensures Logs(c, b, log + (first + (others + reports)), from, u, calls)
  {
    MeanwhileConcat(others, reports, to, u, u);
    LogsOn(c, b, log + first, others + reports, from, to, u, calls);
    assert log + first + (others + reports) == log + (first + (others + reports));
  }

  /** The log holds, one after another, what the breaker saw during attempts 1 to n, of which
      so many called the tool, and after each attempt what others did. */
  ghost predicate Records(c: Config, b: Breaker, w: World, contextIsRed: bool, log: seq<Event>, n: nat, calls: nat)
    decreases n
  {
    if n == 0 then log == [] && calls == 0
    else exists k: nat, l: nat, t :: k <= l <= |log| && RecordsLast(c, b, w, contextIsRed, log, n, calls, k, l, t)
  }

  /** Attempt n started at t, and its part of the log is that between k and l. */
  ghost predicate RecordsLast(c: Config, b: Breaker, w: World, contextIsRed: bool,
                              log: seq<Event>, n: nat, calls: nat, k: nat, l: nat, t: int)
    requires n > 0 && k <= l <= |log|
    decreases n, 0
  {
    var admitted := Admits(c, RunFrom(c, b, log[..k]), t);
    && (admitted ==> calls > 0)
    && Records(c, b, w, contextIsRed, log[..k], n - 1, if admitted then calls - 1 else calls)
    && log[k..l] == Chunk(admitted, w.tool(n, t), contextIsRed, t)
  }

  lemma RecordsOn(c: Config, b: Breaker, w: World, contextIsRed: bool,
                  log: seq<Event>, n: nat, calls: nat, t: int, admitted: bool, chunk: seq<Event>)
    requires n >= 1 && Records(c, b, w, contextIsRed, log, n - 1, calls)
    requires admitted <==> Admits(c, RunFrom(c, b, log), t)
    requires chunk == Chunk(admitted, w.tool(n, t), contextIsRed, t)
    ensures Records(c, b, w, contextIsRed, log + chunk, n, calls + if admitted then 1 else 0)
  {
    var longer := log + chunk;
    assert longer[..|log|] == log && longer[|log|..|longer|] == chunk;
    assert RecordsLast(c, b, w, contextIsRed, longer, n, calls + if admitted then 1 else 0, |log|, |longer|, t);
  }

  lemma RecordsLater(c: Config, b: Breaker, w: World, contextIsRed: bool,
                     log: seq<Event>, n: nat, calls: nat, others: seq<Event>)
    requires n >= 1 && Records(c, b, w, contextIsRed, log, n, calls)
    ensures Records(c, b, w, contextIsRed, log + others, n, calls)
  {
    var k: nat, l: nat, t :| k <= l <= |log| && RecordsLast(c, b, w, contextIsRed, log, n, calls, k, l, t);
    var longer := log + others;
    assert longer[..k] == log[..k] && longer[k..l] == log[k..l];
    assert RecordsLast(c, b, w, contextIsRed, longer, n, calls, k, l, t);
  }

  lemma {:induction false} AdmittedSome(c: Config, b: Breaker, log: seq<Event>) returns (i: nat)
    requires AdmittedCount(c, b, log) > 0
    ensures i < |log| && Admitted(c, b, log, i)
  {
    var n := |log| - 1;
    if Admitted(c, b, log, n) {
      i := n;
    } else {
      i := AdmittedSome(c, b, log[..n]);
      assert log[..n][..i] == log[..i];
    }
  }

  /** An execution that starts while the circuit is OPEN and ends before the current wait is
      over does not call the tool at all. */
  lemma NoCallWhileOpen(c: Config, b: Breaker, log: seq<Event>, from: int, to: int, calls: nat)
    requires Logs(c, b, log, from, to, calls)
    requires b.state == Open && b.lastFailure <= from && to < b.lastFailure + Wait(c, b.openCycles)
    ensures calls == 0
  {
    if calls > 0 {
      var i := AdmittedSome(c, b, log);
      OpenCircuitHolds(c, b, log, i);
    }
  }

  /** The positions in the log of the attempts that called the tool. */
  ghost predicate CallsAt(c: Config, b: Breaker, log: seq<Event>, at: seq<nat>) {
    && (forall i, j :: 0 <= i < j < |at| ==> at[i] < at[j])
    && (forall i :: 0 <= i < |at| ==> at[i] < |log| && Admitted(c, b, log, at[i]))
  }

  lemma CallsAtLonger(c: Config, b: Breaker, log: seq<Event>, k: nat, at: seq<nat>)
    requires k <= |log| && CallsAt(c, b, log[..k], at)
    ensures CallsAt(c, b, log, at) && forall i :: 0 <= i < |at| ==> at[i] < k
  {
    forall i | 0 <= i < |at| ensures at[i] < k && Admitted(c, b, log, at[i]) {
      assert Admitted(c, b, log[..k], at[i]);
      assert log[..k][..at[i]] == log[..at[i]] && log[..k][at[i]] == log[at[i]];
    }
  }

  lemma ChunkStartsWithCall(c: Config, b: Breaker, run: ToolRun, contextIsRed: bool,
                            log: seq<Event>, k: nat, l: nat, t: int)
    requires k <= l <= |log| && Admits(c, RunFrom(c, b, log[..k]), t)
    requires log[k..l] == Chunk(true, run, contextIsRed, t)
    ensures k < |log| && Admitted(c, b, log, k)
  {
    assert log[k..l][0] == Attempt(t);
  }

  /** Every call an execution made is an admitted attempt of its log. */
  lemma {:induction false} CallsAreAdmitted(c: Config, b: Breaker, w: World, contextIsRed: bool,
                                            log: seq<Event>, n: nat, calls: nat) returns (at: seq<nat>)
    requires Records(c, b, w, contextIsRed, log, n, calls)
    ensures |at| == calls && CallsAt(c, b, log, at)
  {
    at := [];
    if n > 0 {
      var k: nat, l: nat, t :| k <= l <= |log| && RecordsLast(c, b, w, contextIsRed, log, n, calls, k, l, t);
      var admitted := Admits(c, RunFrom(c, b, log[..k]), t);
      at := CallsAreAdmitted(c, b, w, contextIsRed, log[..k], n - 1, if admitted then calls - 1 else calls);
      CallsAtLonger(c, b, log, k, at);
      if admitted {
        ChunkStartsWithCall(c, b, w.tool(n, t), contextIsRed, log, k, l, t);
        at := at + [k];
      }
    }
  }

  /** Every call of an execution that starts while the circuit is OPEN, and every call others
      make meanwhile, starts no earlier than the last failure plus the current wait. */
  lemma CallsAwaitTheWait(c: Config, b: Breaker, w: World, contextIsRed: bool,
                          log: seq<Event>, from: int, to: int, n: nat, calls: nat) returns (at: seq<nat>)
    requires Logs(c, b, log, from, to, calls) && Records(c, b, w, contextIsRed, log, n, calls)
    requires b.state == Open && b.lastFailure <= from
    ensures |at| == calls && CallsAt(c, b, log, at)
    ensures forall i :: 0 <= i < |log| && Admitted(c, b, log, i) ==>
              log[i].at >= b.lastFailure + Wait(c, b.openCycles)
  {
    at := CallsAreAdmitted(c, b, w, contextIsRed, log, n, calls);
    forall i | 0 <= i < |log| && Admitted(c, b, log, i) ensures log[i].at >= b.lastFailure + Wait(c, b.openCycles) {
      OpenCircuitHolds(c, b, log, i);
    }
  }

  /** The log accounts for everything that took the breaker from b to `current` in n attempts,
      for its times and for the calls made. */
  ghost predicate Tracked(c: Config, b: Breaker, current: Breaker, w: World, contextIsRed: bool,
                          log: seq<Event>, from: int, to: int, calls: nat, n: nat) {
    && Logs(c, b, log, from, to, calls)
    && Records(c, b, w, contextIsRed, log, n, calls)
    && current == RunFrom(c, b, log)
  }

  lemma TrackedOn(c: Config, b: Breaker, current: Breaker, next: Breaker, w: World, contextIsRed: bool,
                  log: seq<Event>, from: int, to: int, end: int, calls: nat, n: nat, chunk: seq<Event>, admitted: bool)
    requires n >= 1 && Tracked(c, b, current, w, contextIsRed, log, from, to, calls, n - 1)
    requires Meanwhile(w.tool(n, to).meanwhile, to, to + w.tool(n, to).duration)
    requires admitted <==> Admits(c, current, to)
    requires chunk == Chunk(admitted, w.tool(n, to), contextIsRed, to)
    requires next == RunFrom(c, current, chunk) && end == if admitted then to + w.tool(n, to).duration else to
    ensures Tracked(c, b, next, w, contextIsRed, log + chunk, from, end, calls + if admitted then 1 else 0, n)
  {
    var run := w.tool(n, to);
    var u := to + run.duration;
    LogsChunk(c, b, log, from, to, u, calls, run.meanwhile, Reports(run.outcome, contextIsRed, u), chunk, admitted);
    RecordsOn(c, b, w, contextIsRed, log, n, calls, to, admitted, chunk);
    RunFromConcat(c, b, log, chunk);
  }

  lemma TrackedLater(c: Config, b: Breaker, current: Breaker, next: Breaker, w: World, contextIsRed: bool,
                     log: seq<Event>, from: int, to: int, end: int, calls: nat, n: nat, others: seq<Event>)
    requires n >= 1 && Tracked(c, b, current, w, contextIsRed, log, from, to, calls, n)
    requires Meanwhile(others, to, end) && next == RunFrom(c, current, others)
    ensures Tracked(c, b, next, w, contextIsRed, log + others, from, end, calls, n)
  {
    LogsOn(c, b, log, others, from, to, end, calls);
    RecordsLater(c, b, w, contextIsRed, log, n, calls, others);
    RunFromConcat(c, b, log, others);
  }

  /** How one attempt ends. */
  datatype Verdict = Blocked | Failing(error: ExecError) | Finished(result: Result<Json, ExecError>)

  function VerdictOf(outcome: ToolOutcome, contextIsRed: bool): Verdict {
    match outcome
    case RaisedCircuitOpen => Finished(Err(CircuitOpen))
    case Raised => Failing(ToolFailed)
    case Returned(result) =>
      if Passes(result, contextIsRed) then Finished(Ok(Filtered(result))) else Failing(TlpRefused)
  }

  class ResilientAdapter {
    const breaker: CircuitBreaker?
    const maxRetries: int
    const backoffBase: nat
    const backoffMax: nat
    const contextIsRed: bool

    constructor (breaker: CircuitBreaker?, maxRetries: int, backoffBase: nat, backoffMax: nat, contextIsRed: bool)
      ensures this.breaker == breaker && this.maxRetries == maxRetries && this.contextIsRed == contextIsRed
      ensures this.backoffBase == backoffBase && this.backoffMax == backoffMax
    {
      this.breaker, this.maxRetries, this.contextIsRed := breaker, maxRetries, contextIsRed;
      this.backoffBase, this.backoffMax := backoffBase, backoffMax;
    }

    method CheckCircuit(now: int) returns (blocked: bool)
      modifies breaker
      ensures breaker != null ==> breaker.View() == Observed(breaker.config, old(breaker.View()), now)
      ensures blocked <==> breaker != null && breaker.state == Open
    {
      blocked := false;
      if breaker != null {
        var retryAfter := breaker.CheckState(now);
        blocked := retryAfter.Some?;
      }
    }

    method NoteSuccess()
      modifies breaker
      ensures breaker != null ==> breaker.View() == Succeeded(breaker.config, old(breaker.View()))
    {
      if breaker != null { breaker.RecordSuccess(); }
    }

    method NoteFailure(now: int)
      modifies breaker
      ensures breaker != null ==> breaker.View() == Failed(breaker.config, old(breaker.View()), now)
    {
      if breaker != null { breaker.RecordFailure(now); }
    }

    /** What others do to the shared breaker. */
    method Others(events: seq<Event>)
      modifies breaker
      ensures breaker != null ==> breaker.View() == RunFrom(breaker.config, old(breaker.View()), events)
    {
      if breaker == null { return; }
      for i := 0 to |events|
        invariant breaker.View() == RunFrom(breaker.config, old(breaker.View()), events[..i])
      {
        assert events[..i + 1][..i] == events[..i];
        match events[i] {
          case Success(_) => breaker.RecordSuccess();
          case Failure(t) => breaker.RecordFailure(t);
          case Observe(t) => var _ := breaker.EffectiveState(t);
          case Attempt(t) => var _ := breaker.CheckState(t);
          case Reset(_) => breaker.Reset();
        }
      }
      assert events[..|events|] == events;
    }

    /** What is reported after a call. A refusal for TLP is reported as a success first and then
        as a failure. */
    method Report(outcome: ToolOutcome, now: int) returns (v: Verdict)
      modifies breaker
      ensures v == VerdictOf(outcome, contextIsRed)
      ensures breaker != null ==>
                breaker.View() == RunFrom(breaker.config, old(breaker.View()), Reports(outcome, contextIsRed, now))
    {
      ghost var c := if breaker != null then breaker.config else Config(1, 0, 0, 1);
      ghost var b := if breaker != null then breaker.View() else FRESH;
      match outcome {
        case RaisedCircuitOpen =>
          return Finished(Err(CircuitOpen));
        case Raised =>
          NoteFailure(now);
          RunFromSnoc(c, b, [], Failure(now));
          assert [] + [Failure(now)] == [Failure(now)];
          return Failing(ToolFailed);
        case Returned(result) =>
          NoteSuccess();
          RunFromSnoc(c, b, [], Success(now));
          assert [] + [Success(now)] == [Success(now)];
          var checked := EnforceOnReturn(result, contextIsRed);
          if checked.Ok? { return Finished(Ok(checked.value)); }
          NoteFailure(now);
          RunFromSnoc(c, b, [Success(now)], Failure(now));
          return Failing(TlpRefused);
      }
    }

    /** One pass through the loop: the check, the call, and what is reported to the breaker. */
    method AttemptOnce(run: ToolRun, now: int) returns (v: Verdict, end: int)
      modifies breaker
      ensures v == Blocked <==> breaker != null && !Admits(breaker.config, old(breaker.View()), now)
      ensures v != Blocked ==> v == VerdictOf(run.outcome, contextIsRed)
      ensures end == if v == Blocked then now else now + run.duration
      ensures breaker != null ==>
                breaker.View()
                == RunFrom(breaker.config, old(breaker.View()), Chunk(v != Blocked, run, contextIsRed, now))
      ensures v == Blocked ==> breaker.state == Open
    {
      ghost var c := if breaker != null then breaker.config else Config(1, 0, 0, 1);
      ghost var b := if breaker != null then breaker.View() else FRESH;
      var blocked := CheckCircuit(now);
      RunFromSnoc(c, b, [], Attempt(now));
      assert [] + [Attempt(now)] == [Attempt(now)];
      if blocked { return Blocked, now; }
      end := now + run.duration;
      ghost var checked := if breaker != null then breaker.View() else FRESH;
      Others(run.meanwhile);
      v := Report(run.outcome, end);
      RunFromConcat(c, checked, run.meanwhile, Reports(run.outcome, contextIsRed, end));
      RunFromConcat(c, b, [Attempt(now)], run.meanwhile + Reports(run.outcome, contextIsRed, end));
    }

    /** How the call ends that is attempt n and starts at t. */
    function VerdictAt(w: World, n: nat, t: int): Verdict {
      VerdictOf(w.tool(n, t).outcome, contextIsRed)
    }

    /** A result holds nothing RED, and a failure is no open circuit. */
    predicate Sound(v: Verdict) {
      && (v.Finished? && v.result.Ok? ==> !HasRed(v.result.value))
      && (v.Finished? && v.result.Err? ==> v.result.error == CircuitOpen)
      && (v.Failing? ==> v.error == TlpRefused || v.error == ToolFailed)
    }

    lemma VerdictIsSound(w: World, n: nat, t: int)
      ensures Sound(VerdictAt(w, n, t))
    {
      OkIsClean(w.tool(n, t).outcome, contextIsRed);
    }

    /** That pass as the n-th of an execution that began at `from` with breaker state b. */
    method AttemptNext(w: World, n: nat, now: int,
                       ghost b: Breaker, ghost log: seq<Event>, ghost from: int, ghost calls: nat)
      returns (v: Verdict, end: int, ghost longer: seq<Event>)
      requires n >= 1 && Timely(w, backoffBase, backoffMax)
      requires breaker != null ==>
                 Tracked(breaker.config, b, breaker.View(), w, contextIsRed, log, from, now, calls, n - 1)
      modifies breaker
      ensures breaker != null ==> Tracked(breaker.config, b, breaker.View(), w, contextIsRed, longer, from, end,
                                          calls + if v == Blocked then 0 else 1, n)
      ensures v == Blocked ==> breaker != null && breaker.state == Open
      ensures v != Blocked ==> v == VerdictAt(w, n, now)
      ensures Sound(v)
    {
      ghost var current := if breaker != null then breaker.View() else FRESH;
      var run := w.tool(n, now);
      v, end := AttemptOnce(run, now);
      VerdictIsSound(w, n, now);
      ghost var chunk := Chunk(v != Blocked, run, contextIsRed, now);
      longer := log + chunk;
      if breaker != null {
        TrackedOn(breaker.config, b, current, breaker.View(), w, contextIsRed,
                  log, from, now, end, calls, n, chunk, v != Blocked);
      }
    }

    /** What all delays of one execution stay within. */
    function SleepLimit(): nat {
      if maxRetries < 1 then 0 else backoffBase * (Pow2(maxRetries - 1) - 1)
    }

    /** The delays before attempt n. */
    function SleptBefore(n: nat): int {
      if n == 0 then 0 else TotalDelay(backoffBase, backoffMax, n - 1)
    }

    method Sleep(w: World, attempt: nat, slept: nat, now: int, ghost b: Breaker, ghost log: seq<Event>, ghost from: int,
                 ghost calls: nat)
      returns (total: nat, later: int, ghost longer: seq<Event>)
      requires 1 <= attempt < maxRetries && slept == TotalDelay(backoffBase, backoffMax, attempt - 1)
      requires Timely(w, backoffBase, backoffMax)
      requires breaker != null ==>
                 Tracked(breaker.config, b, breaker.View(), w, contextIsRed, log, from, now, calls, attempt)
      modifies breaker
      ensures total == TotalDelay(backoffBase, backoffMax, attempt) && total <= SleepLimit()
      ensures breaker != null ==>
                Tracked(breaker.config, b, breaker.View(), w, contextIsRed, longer, from, later, calls, attempt)
    {
      ghost var current := if breaker != null then breaker.View() else FRESH;
      var delay := BackoffDelay(backoffBase, backoffMax, attempt);
      SleepsWithin(backoffBase, backoffMax, attempt, maxRetries - 1);
      total, later := slept + delay, now + delay;
      var others := w.asleep(attempt, now);
      Others(others);
      longer := log + others;
      if breaker != null {
        TrackedLater(breaker.config, b, current, breaker.View(), w, contextIsRed,
                     log, from, now, later, calls, attempt, others);
      }
    }

    /** One turn of the loop: an attempt and, if it is not the last one and gave no result, the
        sleep after it. */
    method Turn(w: World, attempt: nat, slept: nat, now: int, calls: nat,
                ghost b: Breaker, ghost log: seq<Event>, ghost from: int)
      returns (v: Verdict, total: nat, end: int, called: nat, ghost longer: seq<Event>)
      requires 1 <= attempt <= maxRetries && slept == TotalDelay(backoffBase, backoffMax, attempt - 1)
      requires slept <= SleepLimit() && Timely(w, backoffBase, backoffMax)
      requires breaker != null ==>
                 Tracked(breaker.config, b, breaker.View(), w, contextIsRed, log, from, now, calls, attempt - 1)
      modifies breaker
      ensures breaker != null ==>
                Tracked(breaker.config, b, breaker.View(), w, contextIsRed, longer, from, end, called, attempt)
      ensures called == calls + if v == Blocked then 0 else 1
      ensures v == Blocked && attempt == maxRetries ==> breaker != null && breaker.state == Open
      ensures Sound(v) && (v != Blocked ==> v == VerdictAt(w, attempt, now))
      ensures total <= SleepLimit()
      ensures total == if v.Finished? || attempt == maxRetries then SleptBefore(attempt)
                       else TotalDelay(backoffBase, backoffMax, attempt)
    {
      v, end, longer := AttemptNext(w, attempt, now, b, log, from, calls);
      called := if v == Blocked then calls else calls + 1;
      total := slept;
      if !v.Finished? && attempt < maxRetries {
        total, end, longer := Sleep(w, attempt, slept, end, b, longer, from, called);
      }
    }

    /** The loop of attempts; the last one began at `began`. The server is registered iff there
        is a breaker. */
    method Execute(w: World, now: int)
      returns (r: Result<Json, ExecError>, calls: nat, slept: nat, end: int,
               ghost log: seq<Event>, ghost attempts: nat, ghost began: int)
      requires Timely(w, backoffBase, backoffMax)
      modifies breaker
      ensures calls <= attempts <= Max(0, maxRetries)
      ensures slept == SleptBefore(attempts)
      ensures slept <= SleepLimit() && (maxRetries >= 1 ==> attempts >= 1)
      ensures breaker != null ==>
                Tracked(breaker.config, old(breaker.View()), breaker.View(), w, contextIsRed,
                        log, now, end, calls, attempts)
      ensures r.Ok? ==> !HasRed(r.value) && VerdictAt(w, attempts, began) == Finished(r)
      ensures r == Err(NoAttempts) <==> maxRetries < 1
      ensures r == Err(CircuitOpen) ==>
                || (breaker != null && breaker.state == Open && attempts == maxRetries)
                || VerdictAt(w, attempts, began) == Finished(r)
      ensures r == Err(TlpRefused) || r == Err(ToolFailed) ==>
                calls > 0 && attempts == maxRetries && VerdictAt(w, attempts, began) == Failing(r.error)
    {
      calls, slept, end, log, attempts, began := 0, 0, now, [], 0, now;
      ghost var c := if breaker != null then breaker.config else Config(1, 0, 0, 1);
      ghost var b := if breaker != null then breaker.View() else FRESH;
      var lastError: Option<ExecError> := None;
      var attempt := 1;
      while attempt <= maxRetries
        invariant 1 <= attempt <= Max(0, maxRetries) + 1
        invariant calls <= attempts == attempt - 1 && (lastError.Some? ==> calls > 0)
        invariant attempt <= maxRetries ==> slept == TotalDelay(backoffBase, backoffMax, attempts)
        invariant attempt > maxRetries ==> slept == SleptBefore(attempts)
        invariant breaker != null ==>
                    Tracked(c, b, breaker.View(), w, contextIsRed, log, now, end, calls, attempts)
        invariant lastError.Some? ==> lastError.value == TlpRefused || lastError.value == ToolFailed
        invariant attempt > maxRetries >= 1 ==>
                    lastError.Some? && VerdictAt(w, attempts, began) == Failing(lastError.value)
        invariant slept <= SleepLimit()
      {
        var v;
        began := end;
        v, slept, end, calls, log := Turn(w, attempt, slept, end, calls, b, log, now);
        attempts := attempt;
        match v {
          case Finished(result) =>
            return result, calls, slept, end, log, attempts, began;
          case Blocked =>
            if attempt == maxRetries { return Err(CircuitOpen), calls, slept, end, log, attempts, began; }
          case Failing(error) =>
            lastError := Some(error);
        }
        attempt := attempt + 1;
      }
      if lastError.Some? { return Err(lastError.value), calls, slept, end, log, attempts, began; }
      return Err(NoAttempts), calls, slept, end, log, attempts, began;
    }
  }

  /** A success followed by a failure is reported exactly for what the tool returned RED, in a
      RED investigation, or too deep to scan once it was filtered. */
  lemma RefusalIsReportedTwiceIff(outcome: ToolOutcome, contextIsRed: bool, t: int)
    ensures Reports(outcome, contextIsRed, t) == [Success(t)] + [Failure(t)] <==>
            && outcome.Returned?
            && (RedTagged(outcome.result) || contextIsRed || Reaches(Filtered(outcome.result), MAX_SCAN_DEPTH + 1))
  {
    var r := Reports(outcome, contextIsRed, t);
    assert outcome.Returned? || |r| < 2;
  }

  /** What the breaker sees of refusals at these times, one after another. */
  function Refusals(times: seq<int>): seq<Event> {
    if times == [] then []
    else
      var t := times[|times| - 1];
      Refusals(times[..|times| - 1]) + [Attempt(t)] + [Success(t)] + [Failure(t)]
  }

  lemma OneMoreRefusal(c: Config, b: Breaker, log: seq<Event>, t: int)
    ensures RunFrom(c, b, log + [Attempt(t)] + [Success(t)] + [Failure(t)])
         == Failed(c, Succeeded(c, Observed(c, RunFrom(c, b, log), t)), t)
  {
    RunFromSnoc(c, b, log, Attempt(t));
    RunFromSnoc(c, b, log + [Attempt(t)], Success(t));
    RunFromSnoc(c, b, log + [Attempt(t)] + [Success(t)], Failure(t));
  }

  /** However many refusals come in a row, they leave a closed circuit closed iff its threshold
      exceeds one, and never count for more than one failure; otherwise they leave it open. */
  lemma {:induction false} RefusalsTripIff(c: Config, b: Breaker, times: seq<int>)
    requires Sane(c) && CountersOk(c, b) && b.state == Closed && times != []
    ensures var after := RunFrom(c, b, Refusals(times));
            && CountersOk(c, after)
            && (after.state == Closed <==> c.failureThreshold > 1)
            && (after.state == Closed ==> after.failures == Max(1, b.failures))
            && (after.state != Closed ==> after.state == Open)
  {
    var front, t := times[..|times| - 1], times[|times| - 1];
    if front != [] {
      RefusalsTripIff(c, b, front);
    }
    OneMoreRefusal(c, b, Refusals(front), t);
    RefusalOnBreaker(c, RunFrom(c, b, Refusals(front)), t);
  }

  lemma RefusalOnBreaker(c: Config, b: Breaker, t: int)
    requires Sane(c) && CountersOk(c, b)
    ensures var after := Failed(c, Succeeded(c, Observed(c, b, t)), t);
            && CountersOk(c, after)
            && (b.state == Closed && c.failureThreshold > 1 ==>
                  after.state == Closed && after.failures == Max(1, b.failures))
            && (c.failureThreshold == 1 ==> after.state == Open)
  {
  }

  /** The three ways an attempt can end, by what the tool did. */
  lemma VerdictMeaning(outcome: ToolOutcome, contextIsRed: bool)
    ensures var v := VerdictOf(outcome, contextIsRed);
            && (v.Finished? && v.result.Ok? <==> outcome.Returned? && Passes(outcome.result, contextIsRed))
            && (v.Finished? && v.result.Ok? ==> v.result.value == Filtered(outcome.result))
            && (v == Finished(Err(CircuitOpen)) <==> outcome.RaisedCircuitOpen?)
            && (v == Failing(ToolFailed) <==> outcome.Raised?)
            && (v == Failing(TlpRefused) <==> outcome.Returned? && !Passes(outcome.result, contextIsRed))
  {
  }

  /** What the breaker sees of calls that all end alike, at these times and at once. */
  function CallsEnding(outcome: ToolOutcome, contextIsRed: bool, times: seq<int>): seq<Event> {
    if times == [] then []
    else
      var t := times[|times| - 1];
      CallsEnding(outcome, contextIsRed, times[..|times| - 1]) +
      Chunk(true, ToolRun(0, [], outcome), contextIsRed, t)
  }

  lemma ChunkEffect(c: Config, b: Breaker, outcome: ToolOutcome, contextIsRed: bool, t: int)
    ensures RunFrom(c, b, Chunk(true, ToolRun(0, [], outcome), contextIsRed, t))
         == RunFrom(c, Observed(c, b, t), Reports(outcome, contextIsRed, t))
  {
    var r := Reports(outcome, contextIsRed, t);
    assert [] + r == r;
    RunFromConcat(c, b, [Attempt(t)], r);
    RunFromSnoc(c, b, [], Attempt(t));
    assert [] + [Attempt(t)] == [Attempt(t)];
  }

  /** A raising tool counts as one failure; a result that passes as one success; and an open
      circuit reported by the tool itself as neither. */
  lemma ReportsEffect(c: Config, b: Breaker, outcome: ToolOutcome, contextIsRed: bool, t: int)
    ensures outcome.Raised? ==> RunFrom(c, b, Reports(outcome, contextIsRed, t)) == Failed(c, b, t)
    ensures outcome.Returned? && Passes(outcome.result, contextIsRed) ==>
              RunFrom(c, b, Reports(outcome, contextIsRed, t)) == Succeeded(c, b)
    ensures outcome.RaisedCircuitOpen? ==> RunFrom(c, b, Reports(outcome, contextIsRed, t)) == b
  {
    RunFromSnoc(c, b, [], Success(t));
    RunFromSnoc(c, b, [], Failure(t));
    assert [] + [Success(t)] == [Success(t)] && [] + [Failure(t)] == [Failure(t)];
  }

  lemma RaisingCallFails(c: Config, b: Breaker, contextIsRed: bool, log: seq<Event>, t: int)
    ensures RunFrom(c, b, log + Chunk(true, ToolRun(0, [], Raised), contextIsRed, t))
         == Failed(c, Observed(c, RunFrom(c, b, log), t), t)
  {
    var before := RunFrom(c, b, log);
    RunFromConcat(c, b, log, Chunk(true, ToolRun(0, [], Raised), contextIsRed, t));
    ChunkEffect(c, before, Raised, contextIsRed, t);
    ReportsEffect(c, Observed(c, before, t), Raised, contextIsRed, t);
  }

  /** So a tool that raises on every call opens a closed circuit with the call that makes up
      the threshold, and not before. */
  lemma {:induction false} RaisingTripsIff(c: Config, b: Breaker, contextIsRed: bool, times: seq<int>)
    requires Sane(c) && CountersOk(c, b) && b.state == Closed
    ensures var after := RunFrom(c, b, CallsEnding(Raised, contextIsRed, times));
            && CountersOk(c, after) && after.failures == b.failures + |times|
            && after.state == if b.failures + |times| >= c.failureThreshold then Open else Closed
  {
    if times != [] {
      var front, t := times[..|times| - 1], times[|times| - 1];
      RaisingTripsIff(c, b, contextIsRed, front);
      var log := CallsEnding(Raised, contextIsRed, front);
      RaisingCallFails(c, b, contextIsRed, log, t);
      FailureSchedulesTheWait(c, Observed(c, RunFrom(c, b, log), t), t);
    }
  }

  /** Calls that return what passes bring a circuit back that may be tried again, with as many
      of them as the threshold asks for, and with no fewer. */
  lemma {:induction false} PassingRecoversIff(c: Config, b: Breaker, result: Json, contextIsRed: bool, times: seq<int>)
    requires Sane(c) && CountersOk(c, b) && Passes(result, contextIsRed) && times != []
    requires b.state == Open && forall i :: 0 <= i < |times| ==> times[i] >= b.lastFailure + Wait(c, b.openCycles)
    ensures var after := RunFrom(c, b, CallsEnding(Returned(result), contextIsRed, times));
            if |times| >= c.successThreshold then after.state == Closed && after.failures == 0
            else after.state == HalfOpen && after.successes == |times|
  {
    var front, t := times[..|times| - 1], times[|times| - 1];
    var log := CallsEnding(Returned(result), contextIsRed, front);
    if front != [] {
      PassingRecoversIff(c, b, result, contextIsRed, front);
    }
    var before := RunFrom(c, b, log);
    RunFromConcat(c, b, log, Chunk(true, ToolRun(0, [], Returned(result)), contextIsRed, t));
    ChunkEffect(c, before, Returned(result), contextIsRed, t);
    ReportsEffect(c, Observed(c, before, t), Returned(result), contextIsRed, t);
  }

  /** A delay is the formula up to the cap and the cap from there on. */
  lemma DelayIsCapped(base: nat, cap: nat, attempt: nat)
    requires attempt >= 1
    ensures BackoffDelay(base, cap, attempt) == cap <==> base * Pow2(attempt - 1) >= cap
    ensures base * Pow2(attempt - 1) < cap ==> BackoffDelay(base, cap, attempt) == base * Pow2(attempt - 1)
    ensures BackoffDelay(base, cap, attempt) <= BackoffDelay(base, cap, attempt + 1) <= cap
  {
    Product(base, Pow2(attempt - 1), Pow2(attempt));
  }

  lemma OkIsClean(outcome: ToolOutcome, contextIsRed: bool)
    ensures var v := VerdictOf(outcome, contextIsRed);
            v.Finished? && v.result.Ok? ==> !HasRed(v.result.value)
  {
    if outcome.Returned? && Passes(outcome.result, contextIsRed) {
      StrippedHasNoRed(outcome.result);
      StampedHasNoRed(Strip(outcome.result), OutermostRed(outcome.result));
    }
  }
}
