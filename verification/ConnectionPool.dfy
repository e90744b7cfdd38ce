/** The connection registry: a bounded pool of connections with consumers, a circuit breaker
    each, and eviction of idle ones. Every locked operation is one step at a time `now`. */
module ConnectionPool {
  import opened Results
  import opened Breakers

  datatype Conn = Conn(config: Config, lastUsedAt: int, consumers: set<string>,
                       healthy: bool, connected: bool, breaker: Breaker)

  type Pool = map<string, Conn>

  datatype GetError = CircuitOpen | PoolFull | NoConfig

  datatype Limits = Limits(maxConnections: nat, idleTimeout: int)

  // ----- the operations on values -----

  predicate Stale(l: Limits, c: Conn, now: int) {
    c.consumers == {} && now - c.lastUsedAt > l.idleTimeout
  }

  function WithoutStale(l: Limits, p: Pool, now: int): Pool {
    map n | n in p && !Stale(l, p[n], now) :: p[n]
  }

  /** No name of a consumer means that none is recorded. */
  function WithConsumer(c: Conn, consumer: string, now: int): Conn {
    if consumer == "" then c else c.(consumers := c.consumers + {consumer}, lastUsedAt := now)
  }

  function WithoutConsumer(c: Conn, consumer: string, now: int): Conn {
    var left := c.consumers - {consumer};
    c.(consumers := left, lastUsedAt := if left == {} then now else c.lastUsedAt)
  }

  function Reconnected(c: Conn): Conn {
    c.(healthy := true, connected := true, breaker := FRESH)
  }

  function NewConn(config: Config, now: int): Conn {
    Conn(config, now, {}, true, true, FRESH)
  }

  function GetExisting(c: Conn, consumer: string, now: int): (r: (Conn, Option<GetError>)) {
    var checked := c.(breaker := Observed(c.config, c.breaker, now));
    if checked.breaker.state == Open then (checked, Some(CircuitOpen))
    else (WithConsumer(if c.healthy then checked else Reconnected(checked), consumer, now), None)
  }

  function Get(l: Limits, p: Pool, name: string, config: Option<Config>, consumer: string, now: int)
    : (r: (Pool, Option<GetError>))
  {
    if name in p then
      var (c, error) := GetExisting(p[name], consumer, now);
      (p[name := c], error)
    else
      var room := if |p| >= l.maxConnections then WithoutStale(l, p, now) else p;
      if |room| >= l.maxConnections then (room, Some(PoolFull))
      else if config.None? then (room, Some(NoConfig))
      else (room[name := WithConsumer(NewConn(config.value, now), consumer, now)], None)
  }

  // ----- the objects -----

  class ManagedConnection {
    const config: Config
    const circuitBreaker: CircuitBreaker
    var lastUsedAt: int
    var consumers: set<string>
    var isHealthy: bool
    var connected: bool

    ghost function View(): Conn
      reads this, circuitBreaker
    {
      Conn(config, lastUsedAt, consumers, isHealthy, connected, circuitBreaker.View())
    }

    ghost predicate Valid() {
      circuitBreaker.config == config
    }

    constructor (config: Config, now: int)
      ensures Valid() && fresh(circuitBreaker)
      ensures View() == NewConn(config, now).(healthy := true, connected := false)
    {
      this.config := config;
      circuitBreaker := new CircuitBreaker(config);
      lastUsedAt, consumers, isHealthy, connected := now, {}, true, false;
    }

    method AddConsumer(consumer: string, now: int)
      modifies this
      ensures View() == old(View()).(consumers := old(consumers) + {consumer}, lastUsedAt := now)
    {
      consumers := consumers + {consumer};
      lastUsedAt := now;
    }

    method RemoveConsumer(consumer: string, now: int)
      modifies this
      ensures View() == WithoutConsumer(old(View()), consumer, now)
    {
      consumers := consumers - {consumer};
      if consumers == {} { lastUsedAt := now; }
    }

    method Touch(now: int)
      modifies this
      ensures View() == old(View()).(lastUsedAt := now)
    {
      lastUsedAt := now;
    }

    method NoteSuccess(now: int)
      requires Valid()
      modifies this, circuitBreaker
      ensures View() == old(View()).(breaker := Succeeded(config, old(View()).breaker), lastUsedAt := now)
    {
      circuitBreaker.RecordSuccess();
      Touch(now);
    }

    method Connect()
      modifies this
      ensures View() == if old(connected) then old(View()) else old(View()).(healthy := true, connected := true)
    {
      if !connected { connected, isHealthy := true, true; }
    }

    method Disconnect()
      modifies this
      ensures View() == old(View()).(healthy := false, connected := false)
    {
      connected, isHealthy := false, false;
    }

    method HealthCheck()
      modifies this
      ensures View() == old(View()).(healthy := old(connected))
    {
      isHealthy := connected;
    }

    method Reconnect()
      modifies this, circuitBreaker
      ensures View() == Reconnected(old(View()))
    {
      Disconnect();
      Connect();
      circuitBreaker.Reset();
    }

    /** Handing out a connection that is in the pool already. */
    method Acquire(consumer: string, now: int) returns (error: Option<GetError>)
      requires Valid()
      modifies this, circuitBreaker
      ensures View() == GetExisting(old(View()), consumer, now).0
      ensures error == GetExisting(old(View()), consumer, now).1
    {
      var blocked := circuitBreaker.CheckState(now);
      if blocked.Some? { return Some(CircuitOpen); }
      if !isHealthy { Reconnect(); }
      if consumer != "" { AddConsumer(consumer, now); }
      return None;
    }
  }

  method OpenConnection(config: Config, consumer: string, now: int) returns (managed: ManagedConnection)
    ensures managed.Valid() && fresh(managed) && fresh(managed.circuitBreaker)
    ensures managed.View() == WithConsumer(NewConn(config, now), consumer, now)
  {
    managed := new ManagedConnection(config, now);
    managed.Connect();
    if consumer != "" { managed.AddConsumer(consumer, now); }
  }

  class ConnectionRegistry {
    const limits: Limits
    var connections: map<string, ManagedConnection>

    ghost function Footprint(): set<object>
      reads this
    {
      (set n | n in connections :: connections[n] as object) +
      (set n | n in connections :: connections[n].circuitBreaker as object)
    }

    ghost predicate Valid()
      reads this
    {
      && (forall n :: n in connections ==> connections[n].Valid() && connections[n] as object != this)
      && (forall m, n :: m in connections && n in connections && m != n ==>
            connections[m] != connections[n] && connections[m].circuitBreaker != connections[n].circuitBreaker)
    }

    ghost function View(): Pool
      reads this, Footprint()
    {
      map n | n in connections :: connections[n].View()
    }

    constructor (limits: Limits)
      ensures Valid() && View() == map[] && this.limits == limits && connections == map[]
    {
      this.limits := limits;
      connections := map[];
    }

    method EvictIdleConnections(now: int) returns (evicted: nat)
      requires Valid()
      modifies this
      ensures Valid()
      ensures View() == WithoutStale(limits, old(View()), now)
      ensures forall n :: n in connections ==> n in old(connections) && connections[n] == old(connections[n])
      ensures evicted == |old(connections)| - |connections|
    {
      evicted := 0;
      var todo := connections.Keys;
      assert connections.Keys - todo == {};
      while todo != {}
        invariant todo <= connections.Keys <= old(connections).Keys
        invariant forall n :: n in connections ==> connections[n] == old(connections[n])
        invariant forall n :: n in old(connections) ==>
                    (n in connections <==> n in todo || !Stale(limits, old(View())[n], now))
        invariant evicted == |old(connections)| - |connections|
        decreases todo
      {
        var n :| n in todo;
        todo := todo - {n};
        var conn := connections[n];
        if conn.consumers == {} && now - conn.lastUsedAt > limits.idleTimeout {
          connections := connections - {n};
          evicted := evicted + 1;
        }
      }
    }

    lemma SameSize()
      ensures |View()| == |connections|
    {
      assert View().Keys == connections.Keys;
    }

    method ReuseConnection(name: string, consumer: string, now: int) returns (error: Option<GetError>)
      requires Valid() && name in connections
      modifies Footprint()
      ensures Valid() && connections == old(connections)
      ensures View() == old(View())[name := GetExisting(old(View())[name], consumer, now).0]
      ensures error == GetExisting(old(View())[name], consumer, now).1
    {
      error := connections[name].Acquire(consumer, now);
    }

    method Insert(name: string, managed: ManagedConnection)
      requires Valid() && name !in connections && managed.Valid()
      requires managed as object != this && forall n :: n in connections ==>
                 connections[n] != managed && connections[n].circuitBreaker != managed.circuitBreaker
      modifies `connections
      ensures Valid() && connections == old(connections)[name := managed]
      ensures View() == old(View())[name := managed.View()]
    {
      connections := connections[name := managed];
    }

    method NewConnection(name: string, config: Config, consumer: string, now: int)
      returns (managed: ManagedConnection)
      requires Valid() && name !in connections
      modifies this
      ensures Valid() && fresh(managed) && fresh(managed.circuitBreaker)
      ensures connections == old(connections)[name := managed]
      ensures View() == old(View())[name := WithConsumer(NewConn(config, now), consumer, now)]
    {
      managed := OpenConnection(config, consumer, now);
      Insert(name, managed);
    }

    method CreateIfRoom(name: string, config: Option<Config>, consumer: string, now: int)
      returns (r: Result<ManagedConnection, GetError>)
      requires Valid() && name !in connections
      modifies this
      ensures Valid()
      ensures View() == Get(limits, old(View()), name, config, consumer, now).0
      ensures Get(limits, old(View()), name, config, consumer, now).1 == if r.Ok? then None else Some(r.error)
      ensures r.Ok? ==> name in connections && connections[name] == r.value
      ensures r.Ok? ==> fresh(r.value) && fresh(r.value.circuitBreaker)
      ensures forall n :: n in connections && n != name ==>
                n in old(connections) && connections[n] == old(connections[n])
    {
      SameSize();
      if |connections| >= limits.maxConnections {
        var _ := EvictIdleConnections(now);
        SameSize();
        if |connections| >= limits.maxConnections { return Err(PoolFull); }
      }
      if config.None? { return Err(NoConfig); }
      var managed := NewConnection(name, config.value, consumer, now);
      return Ok(managed);
    }

    method GetConnection(name: string, config: Option<Config>, consumer: string, now: int)
      returns (r: Result<ManagedConnection, GetError>)
      requires Valid()
      modifies this, Footprint()
      ensures Valid()
      ensures View() == Get(limits, old(View()), name, config, consumer, now).0
      ensures Get(limits, old(View()), name, config, consumer, now).1 == if r.Ok? then None else Some(r.error)
      ensures r.Ok? ==> name in connections && connections[name] == r.value
      ensures r.Ok? && name in old(connections) ==> r.value == old(connections[name])
      ensures r.Ok? && name !in old(connections) ==> fresh(r.value) && fresh(r.value.circuitBreaker)
      ensures forall n :: n in connections && n != name ==>
                n in old(connections) && connections[n] == old(connections[n])
    {
      if name in connections {
        var error := ReuseConnection(name, consumer, now);
        return if error.Some? then Err(error.value) else Ok(connections[name]);
      }
      r := CreateIfRoom(name, config, consumer, now);
    }

    method ReleaseConnection(name: string, consumer: string, now: int)
      requires Valid()
      modifies Footprint()
      ensures Valid() && connections == old(connections)
      ensures View() == Released(old(View()), name, consumer, now)
    {
      if name in connections { connections[name].RemoveConsumer(consumer, now); }
    }

    method CheckAll()
      requires Valid()
      modifies Footprint()
      ensures Valid() && connections == old(connections)
      ensures View() == map n | n in old(View()) :: old(View())[n].(healthy := old(View())[n].connected)
    {
      var todo := connections.Keys;
      while todo != {}
        invariant Valid() && connections == old(connections) && todo <= connections.Keys
        invariant forall n :: n in todo ==> connections[n].View() == old(connections[n].View())
        invariant forall n :: n in connections.Keys - todo ==>
                    connections[n].View() == old(connections[n].View()).(healthy := old(connections[n].connected))
        decreases todo
      {
        var n :| n in todo;
        todo := todo - {n};
        connections[n].HealthCheck();
      }
    }

    method RunHealthChecks(now: int)
      requires Valid()
      modifies this, Footprint()
      ensures Valid() && View() == HealthChecked(limits, old(View()), now)
    {
      CheckAll();
      var _ := EvictIdleConnections(now);
    }

    method RunKeepalive(now: int)
      requires Valid()
      modifies Footprint()
      ensures Valid() && connections == old(connections) && View() == KeptAlive(old(View()), now)
    {
      var todo := connections.Keys;
      while todo != {}
        invariant Valid() && connections == old(connections) && todo <= connections.Keys
        invariant forall n :: n in todo ==> connections[n].View() == old(connections[n].View())
        invariant forall n :: n in connections.Keys - todo ==>
                    connections[n].View() == if old(connections[n].connected) && old(connections[n].consumers) != {}
                                             then old(connections[n].View()).(lastUsedAt := now)
                                             else old(connections[n].View())
        decreases todo
      {
        var n :| n in todo;
        todo := todo - {n};
        var conn := connections[n];
        if conn.connected && conn.consumers != {} { conn.Touch(now); }
      }
    }

    method RecordSuccess(name: string, now: int)
      requires Valid()
      modifies Footprint()
      ensures Valid() && connections == old(connections)
      ensures View() == Noted(old(View()), name, true, now)
    {
      if name in connections { connections[name].NoteSuccess(now); }
    }

    method RecordFailure(name: string, now: int)
      requires Valid()
      modifies Footprint()
      ensures Valid() && connections == old(connections)
      ensures View() == Noted(old(View()), name, false, now)
    {
      if name in connections { connections[name].circuitBreaker.RecordFailure(now); }
    }
  }

  function Noted(p: Pool, name: string, success: bool, now: int): Pool {
    if name !in p then p
    else
      var c := p[name];
      p[name := if success then c.(breaker := Succeeded(c.config, c.breaker), lastUsedAt := now)
                else c.(breaker := Failed(c.config, c.breaker, now))]
  }

  // ----- the pool over any sequence of operations -----

  datatype Op =
    | GetOp(name: string, config: Option<Config>, consumer: string, at: int)
    | ReleaseOp(name: string, consumer: string, at: int)
    | EvictOp(at: int)
    | NoteOp(name: string, success: bool, at: int)
    | HealthCheckOp(at: int)
    | KeepaliveOp(at: int)

  function Released(p: Pool, name: string, consumer: string, now: int): Pool {
    if name in p then p[name := WithoutConsumer(p[name], consumer, now)] else p
  }

  /** The monitoring threads: a health check of every connection and eviction of idle ones, and
      a touch of every connected connection in use. */
  function HealthChecked(l: Limits, p: Pool, now: int): Pool {
    WithoutStale(l, map n | n in p :: p[n].(healthy := p[n].connected), now)
  }

  function KeptAlive(p: Pool, now: int): Pool {
    map n | n in p :: if p[n].connected && p[n].consumers != {} then p[n].(lastUsedAt := now) else p[n]
  }

  function Step(l: Limits, p: Pool, op: Op): Pool {
    match op
    case GetOp(name, config, consumer, t) => Get(l, p, name, config, consumer, t).0
    case ReleaseOp(name, consumer, t) => Released(p, name, consumer, t)
    case EvictOp(t) => WithoutStale(l, p, t)
    case NoteOp(name, success, t) => Noted(p, name, success, t)
    case HealthCheckOp(t) => HealthChecked(l, p, t)
    case KeepaliveOp(t) => KeptAlive(p, t)
  }

  function RunOps(l: Limits, p: Pool, ops: seq<Op>): Pool {
    if ops == [] then p else Step(l, RunOps(l, p, ops[..|ops| - 1]), ops[|ops| - 1])
  }

  lemma SubPoolIsSmaller(p: Pool, q: Pool)
    requires q.Keys <= p.Keys
    ensures |q| <= |p|
  {
    assert p.Keys == q.Keys + (p.Keys - q.Keys);
  }

  lemma StepStaysBounded(l: Limits, p: Pool, op: Op)
    requires |p| <= l.maxConnections
    ensures |Step(l, p, op)| <= l.maxConnections
  {
    if op.GetOp? && op.name !in p {
      var room := if |p| >= l.maxConnections then WithoutStale(l, p, op.at) else p;
      SubPoolIsSmaller(p, room);
      var q := Step(l, p, op);
      assert q.Keys == room.Keys || q.Keys == room.Keys + {op.name};
      assert |q.Keys| == |q| && |room.Keys| == |room|;
    } else {
      SubPoolIsSmaller(p, Step(l, p, op));
    }
  }

  /** The pool never exceeds its maximum. */
  lemma {:induction false} PoolStaysBounded(l: Limits, ops: seq<Op>)
    ensures |RunOps(l, map[], ops)| <= l.maxConnections
  {
    if ops != [] {
      PoolStaysBounded(l, ops[..|ops| - 1]);
      StepStaysBounded(l, RunOps(l, map[], ops[..|ops| - 1]), ops[|ops| - 1]);
    }
  }

  predicate Leased(p: Pool, name: string, consumer: string) {
    name in p && consumer in p[name].consumers
  }

  lemma StepKeepsLease(l: Limits, p: Pool, op: Op, name: string, consumer: string)
    requires Leased(p, name, consumer)
    requires !(op.ReleaseOp? && op.name == name && op.consumer == consumer)
    ensures Leased(Step(l, p, op), name, consumer)
  {
    if op.GetOp? && op.name == name {
      assert consumer in GetExisting(p[name], op.consumer, op.at).0.consumers;
    }
  }

  /** A consumer that got a connection has it until it releases it itself, whatever other
      operations take place: a connection in use is never evicted. */
  lemma {:induction false} LeaseHolds(l: Limits, p: Pool, ops: seq<Op>, name: string, consumer: string)
    requires Leased(p, name, consumer)
    requires forall i :: 0 <= i < |ops| ==> !(ops[i].ReleaseOp? && ops[i].name == name && ops[i].consumer == consumer)
    ensures Leased(RunOps(l, p, ops), name, consumer)
  {
    if ops != [] {
      LeaseHolds(l, p, ops[..|ops| - 1], name, consumer);
      StepKeepsLease(l, RunOps(l, p, ops[..|ops| - 1]), ops[|ops| - 1], name, consumer);
    }
  }

  /** A successful get leases; one that finds no room or no configuration adds nothing. */
  lemma GetLeases(l: Limits, p: Pool, name: string, config: Option<Config>, consumer: string, now: int)
    requires consumer != ""
    ensures Get(l, p, name, config, consumer, now).1.None? ==>
              Leased(Get(l, p, name, config, consumer, now).0, name, consumer)
    ensures Get(l, p, name, config, consumer, now).1 in {Some(PoolFull), Some(NoConfig)} ==>
              name !in p && name !in Get(l, p, name, config, consumer, now).0
  {
    if name in p {
      var c := GetExisting(p[name], consumer, now);
    }
  }

  lemma StepKeepsUsed(l: Limits, p: Pool, op: Op, name: string, since: int)
    requires name in p && since <= p[name].lastUsedAt && since <= op.at <= since + l.idleTimeout
    ensures name in Step(l, p, op) && since <= Step(l, p, op)[name].lastUsedAt
  {
    assert !Stale(l, p[name], op.at);
  }

  /** A connection used at some time stays in the pool for as long as the idle timeout. */
  lemma {:induction false} UsedConnectionStays(l: Limits, p: Pool, ops: seq<Op>, name: string, since: int)
    requires name in p && since <= p[name].lastUsedAt
    requires forall i :: 0 <= i < |ops| ==> since <= ops[i].at <= since + l.idleTimeout
    ensures name in RunOps(l, p, ops) && since <= RunOps(l, p, ops)[name].lastUsedAt
  {
    if ops != [] {
      UsedConnectionStays(l, p, ops[..|ops| - 1], name, since);
      StepKeepsUsed(l, RunOps(l, p, ops[..|ops| - 1]), ops[|ops| - 1], name, since);
    }
  }

  /** A get that fails on a full pool removes exactly the connections that are without consumer
      and idle beyond the timeout, changes no other, and the pool is full of those. */
  lemma FailedGetOnlyEvicts(l: Limits, p: Pool, name: string, config: Option<Config>, consumer: string, now: int)
    requires Get(l, p, name, config, consumer, now).1 == Some(PoolFull)
    ensures var q := Get(l, p, name, config, consumer, now).0;
            && |q| >= l.maxConnections && name !in p
            && (forall n :: n in q ==> n in p && q[n] == p[n])
            && (forall n :: n in p && n !in q <==>
                  n in p && p[n].consumers == {} && now > p[n].lastUsedAt + l.idleTimeout)
  {
  }
}
