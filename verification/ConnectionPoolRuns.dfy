/** What the operations of the connection pool mean for its users: when a get is refused, what
    it hands out, how a lease ends, when a connection goes, and which breaker decides. */
module ConnectionPoolRuns {
  import opened Results
  import opened Breakers
  import opened ConnectionPool

  // ----- what a get answers -----

  predicate IdleTooLong(l: Limits, c: Conn, now: int) {
    c.consumers == {} && now > c.lastUsedAt + l.idleTimeout
  }

  /** The connections an eviction leaves. */
  function Remaining(l: Limits, p: Pool, now: int): set<string> {
    set n | n in p && !IdleTooLong(l, p[n], now)
  }

  predicate RefusesNow(c: Conn, now: int) {
    c.breaker.state == Open && now < c.breaker.lastFailure + Wait(c.config, c.breaker.openCycles)
  }

  predicate HasNoRoom(l: Limits, p: Pool, now: int) {
    |p| >= l.maxConnections && |Remaining(l, p, now)| >= l.maxConnections
  }

  lemma RemainingAreLeft(l: Limits, p: Pool, now: int)
    ensures WithoutStale(l, p, now).Keys == Remaining(l, p, now)
    ensures |WithoutStale(l, p, now)| == |Remaining(l, p, now)|
  {
    assert WithoutStale(l, p, now).Keys == Remaining(l, p, now);
  }

  /** A get is refused exactly for an open circuit whose wait is not over, for a full pool in
      which too few connections can be evicted, and without a configuration for a new one. */
  lemma GetErrors(l: Limits, p: Pool, name: string, config: Option<Config>, consumer: string, now: int)
    ensures var error := Get(l, p, name, config, consumer, now).1;
            && (error == Some(CircuitOpen) <==> name in p && RefusesNow(p[name], now))
            && (error == Some(PoolFull) <==> name !in p && HasNoRoom(l, p, now))
            && (error == Some(NoConfig) <==> name !in p && !HasNoRoom(l, p, now) && config == None)
  {
    RemainingAreLeft(l, p, now);
  }

  function Named(consumer: string): set<string> {
    if consumer == "" then {} else {consumer}
  }

  /** The connection a successful get hands out is usable and has the consumer, if it was
      named, beside those it had. Only a named consumer counts as a use. */
  lemma GetHandsOut(l: Limits, p: Pool, name: string, config: Option<Config>, consumer: string, now: int)
    requires Get(l, p, name, config, consumer, now).1 == None
    ensures var q := Get(l, p, name, config, consumer, now).0;
            && name in q && q[name].healthy
            && q[name].consumers == (if name in p then p[name].consumers else {}) + Named(consumer)
            && q[name].lastUsedAt == (if name in p && consumer == "" then p[name].lastUsedAt else now)
            && Some(q[name].config) == (if name in p then Some(p[name].config) else config)
            && (name !in p || !p[name].healthy ==> q[name].breaker == FRESH && q[name].connected)
  {
  }

  /** Whatever a get answers: it changes no connection of another name, and removes one only
      to make room in a full pool for a new one, if that one was idle for too long. */
  lemma GetLeavesOthers(
    l: Limits, p: Pool, name: string, config: Option<Config>, consumer: string, now: int, other: string)
    requires other != name
    ensures var q := Get(l, p, name, config, consumer, now).0;
            && (other in q ==> other in p && q[other] == p[other])
            && (other in p ==>
                  (other !in q <==> name !in p && |p| >= l.maxConnections && IdleTooLong(l, p[other], now)))
  {
  }

  // ----- leases -----

  /** A release ends the lease of that consumer on that connection and no other. */
  lemma ReleaseEndsLease(p: Pool, name: string, consumer: string, now: int, n: string, c: string)
    ensures Leased(Released(p, name, consumer, now), n, c) <==> Leased(p, n, c) && !(n == name && c == consumer)
  {
  }

  /** The time of the last use moves with a get by a named consumer, a success, the release
      that leaves no consumer, and the keepalive of a connection in use. */
  predicate Uses(c: Conn, name: string, op: Op) {
    match op
    case GetOp(n, _, consumer, t) => n == name && consumer != "" && !RefusesNow(c, t)
    case ReleaseOp(n, consumer, _) => n == name && c.consumers <= {consumer}
    case NoteOp(n, success, _) => n == name && success
    case KeepaliveOp(_) => c.connected && c.consumers != {}
    case EvictOp(_) => false
    case HealthCheckOp(_) => false
  }

  /** An eviction, a round of health checks or a get that finds the pool full. */
  predicate Evicts(l: Limits, p: Pool, op: Op) {
    op.EvictOp? || op.HealthCheckOp? || (op.GetOp? && op.name !in p && |p| >= l.maxConnections)
  }

  /** An operation keeps a connection unless it evicts and that one was idle for too long. */
  lemma StepKeepsIff(l: Limits, p: Pool, op: Op, name: string)
    requires name in p
    ensures name !in Step(l, p, op) <==> Evicts(l, p, op) && IdleTooLong(l, p[name], op.at)
  {
  }

  lemma StepTouches(l: Limits, p: Pool, op: Op, name: string)
    requires name in p && name in Step(l, p, op)
    ensures Step(l, p, op)[name].lastUsedAt == if Uses(p[name], name, op) then op.at else p[name].lastUsedAt
  {
  }

  /** A health check finds exactly the connected ones healthy. */
  lemma HealthIsConnection(l: Limits, p: Pool, now: int, name: string)
    requires name in HealthChecked(l, p, now)
    ensures name in p && HealthChecked(l, p, now)[name].healthy == p[name].connected
  {
  }

  /** Nothing but a failure is asked of this connection by name. */
  predicate Leaves(op: Op, name: string) {
    match op
    case GetOp(n, _, _, _) => n != name
    case ReleaseOp(n, _, _) => n != name
    case NoteOp(n, success, _) => n == name ==> !success
    case _ => true
  }

  /** If the connection is still there, it has been without consumer since that time. */
  predicate IdleSince(p: Pool, name: string, since: int) {
    name in p ==> p[name].consumers == {} && p[name].lastUsedAt == since
  }

  lemma StepStaysIdle(l: Limits, p: Pool, op: Op, name: string, since: int)
    requires IdleSince(p, name, since) && Leaves(op, name)
    ensures IdleSince(Step(l, p, op), name, since)
  {
  }

  lemma {:induction false} StaysIdle(l: Limits, p: Pool, ops: seq<Op>, name: string, since: int)
    requires IdleSince(p, name, since) && forall i :: 0 <= i < |ops| ==> Leaves(ops[i], name)
    ensures IdleSince(RunOps(l, p, ops), name, since)
  {
    if ops != [] {
      StaysIdle(l, p, ops[..|ops| - 1], name, since);
      StepStaysIdle(l, RunOps(l, p, ops[..|ops| - 1]), ops[|ops| - 1], name, since);
    }
  }

  /** A connection that its last consumer released at `now` and nobody asked for since is gone
      after the first eviction later than the idle timeout. */
  lemma ReleasedConnectionGoes(
    l: Limits, p: Pool, name: string, consumer: string, now: int, ops: seq<Op>, evict: Op)
    requires name in p && p[name].consumers == {consumer}
    requires forall i :: 0 <= i < |ops| ==> Leaves(ops[i], name)
    requires (evict.EvictOp? || evict.HealthCheckOp?) && evict.at > now + l.idleTimeout
    ensures name !in Step(l, RunOps(l, Released(p, name, consumer, now), ops), evict)
  {
    var q := Released(p, name, consumer, now);
    assert p[name].consumers - {consumer} == {};
    StaysIdle(l, q, ops, name, now);
    var r := RunOps(l, q, ops);
    if name in r {
      StepKeepsIff(l, r, evict, name);
    }
  }

  // ----- connections of a run are usable -----

  predicate Usable(p: Pool) {
    forall n :: n in p ==> p[n].healthy && p[n].connected
  }

  lemma StepKeepsUsable(l: Limits, p: Pool, op: Op)
    requires Usable(p)
    ensures Usable(Step(l, p, op))
  {
  }

  /** No operation of the registry disconnects: in every pool it can reach all connections are
      healthy, so no get ever reconnects one, which would reset its circuit. */
  lemma {:induction false} PoolStaysUsable(l: Limits, p: Pool, ops: seq<Op>)
    requires Usable(p)
    ensures Usable(RunOps(l, p, ops))
  {
    if ops != [] {
      PoolStaysUsable(l, p, ops[..|ops| - 1]);
      StepKeepsUsable(l, RunOps(l, p, ops[..|ops| - 1]), ops[|ops| - 1]);
    }
  }

  // ----- the breaker of a connection -----

  /** What an operation is for the breaker of this connection. */
  function EventOf(op: Op, name: string): seq<Event> {
    match op
    case GetOp(n, _, _, t) => if n == name then [Observe(t)] else []
    case NoteOp(n, success, t) => if n != name then [] else if success then [Success(t)] else [Failure(t)]
    case _ => []
  }

  function EventsOf(ops: seq<Op>, name: string): seq<Event> {
    if ops == [] then [] else EventsOf(ops[..|ops| - 1], name) + EventOf(ops[|ops| - 1], name)
  }

  lemma StepFeedsBreaker(l: Limits, p: Pool, op: Op, name: string)
    requires name in p && name in Step(l, p, op) && Usable(p)
    ensures var c := Step(l, p, op)[name];
            c.config == p[name].config && c.breaker == RunFrom(c.config, p[name].breaker, EventOf(op, name))
  {
  }

  /** While a consumer has its connection, the breaker of that connection goes through exactly
      the successes and failures noted for it and the looks of the gets in between. */
  lemma {:induction false} BreakerFollowsNotes(l: Limits, p: Pool, ops: seq<Op>, name: string, consumer: string)
    requires Usable(p) && Leased(p, name, consumer)
    requires forall i :: 0 <= i < |ops| ==> !(ops[i].ReleaseOp? && ops[i].name == name && ops[i].consumer == consumer)
    ensures Leased(RunOps(l, p, ops), name, consumer)
    ensures var c := RunOps(l, p, ops)[name];
            c.config == p[name].config && c.breaker == RunFrom(c.config, p[name].breaker, EventsOf(ops, name))
  {
    LeaseHolds(l, p, ops, name, consumer);
    if ops != [] {
      var front, last := ops[..|ops| - 1], ops[|ops| - 1];
      BreakerFollowsNotes(l, p, front, name, consumer);
      PoolStaysUsable(l, p, front);
      StepFeedsBreaker(l, RunOps(l, p, front), last, name);
      RunFromConcat(p[name].config, p[name].breaker, EventsOf(front, name), EventOf(last, name));
    }
  }

  // ----- the keepalive cannot be observed -----

  /** Equal but for the time of the last use of connections that are in use. */
  predicate AlikeConn(c: Conn, d: Conn) {
    c == d || (c.consumers != {} && c.(lastUsedAt := d.lastUsedAt) == d)
  }

  predicate Alike(p: Pool, q: Pool) {
    p.Keys == q.Keys && forall n :: n in p ==> AlikeConn(p[n], q[n])
  }

  function WithoutKeepalives(ops: seq<Op>): seq<Op> {
    if ops == [] then []
    else WithoutKeepalives(ops[..|ops| - 1]) + if ops[|ops| - 1].KeepaliveOp? then [] else [ops[|ops| - 1]]
  }

  lemma AlikeStale(l: Limits, p: Pool, q: Pool, now: int)
    requires Alike(p, q)
    ensures Alike(WithoutStale(l, p, now), WithoutStale(l, q, now))
  {
    assert WithoutStale(l, p, now).Keys == WithoutStale(l, q, now).Keys;
  }

  lemma AlikeGet(l: Limits, p: Pool, q: Pool, name: string, config: Option<Config>, consumer: string, now: int)
    requires Alike(p, q)
    ensures Get(l, p, name, config, consumer, now).1 == Get(l, q, name, config, consumer, now).1
    ensures Alike(Get(l, p, name, config, consumer, now).0, Get(l, q, name, config, consumer, now).0)
  {
    assert p.Keys == q.Keys ==> |p| == |q.Keys|;
    if name !in p {
      AlikeStale(l, p, q, now);
      var m, n := WithoutStale(l, p, now), WithoutStale(l, q, now);
      assert m.Keys == n.Keys ==> |m| == |n.Keys|;
    }
  }

  lemma AlikeStep(l: Limits, p: Pool, q: Pool, op: Op)
    requires Alike(p, q)
    ensures Alike(Step(l, p, op), Step(l, q, op))
  {
    match op
    case GetOp(name, config, consumer, t) => AlikeGet(l, p, q, name, config, consumer, t);
    case EvictOp(t) => AlikeStale(l, p, q, t);
    case HealthCheckOp(t) =>
      var m := map n | n in p :: p[n].(healthy := p[n].connected);
      var n := map n | n in q :: q[n].(healthy := q[n].connected);
      assert m.Keys == n.Keys;
      AlikeStale(l, m, n, t);
    case _ =>
  }

  lemma KeepaliveIsAlike(p: Pool, q: Pool, now: int)
    requires Alike(p, q)
    ensures Alike(KeptAlive(p, now), q)
  {
  }

  lemma RunOpsSnoc(l: Limits, p: Pool, ops: seq<Op>, op: Op)
    ensures RunOps(l, p, ops + [op]) == Step(l, RunOps(l, p, ops), op)
  {
    assert (ops + [op])[..|ops|] == ops;
  }

  lemma {:induction false} KeepalivesLeaveAlike(l: Limits, p: Pool, ops: seq<Op>)
    ensures Alike(RunOps(l, p, ops), RunOps(l, p, WithoutKeepalives(ops)))
  {
    if ops != [] {
      var front, last := ops[..|ops| - 1], ops[|ops| - 1];
      KeepalivesLeaveAlike(l, p, front);
      var q, r := RunOps(l, p, front), RunOps(l, p, WithoutKeepalives(front));
      if last.KeepaliveOp? {
        KeepaliveIsAlike(q, r, last.at);
        assert WithoutKeepalives(ops) == WithoutKeepalives(front);
      } else {
        AlikeStep(l, q, r, last);
        RunOpsSnoc(l, p, WithoutKeepalives(front), last);
      }
    }
  }

  /** The keepalive thread has no effect that can be seen: whenever it runs, every get is
      answered as without it, the same connections are pooled, with the same consumers. */
  lemma KeepaliveIsInvisible(
    l: Limits, p: Pool, ops: seq<Op>, name: string, config: Option<Config>, consumer: string, now: int)
    ensures var q, r := RunOps(l, p, ops), RunOps(l, p, WithoutKeepalives(ops));
            && Get(l, q, name, config, consumer, now).1 == Get(l, r, name, config, consumer, now).1
            && q.Keys == r.Keys && forall n :: n in q ==> q[n].consumers == r[n].consumers
  {
    KeepalivesLeaveAlike(l, p, ops);
    AlikeGet(l, RunOps(l, p, ops), RunOps(l, p, WithoutKeepalives(ops)), name, config, consumer, now);
  }
}
