/** Token revocation: a list with expiry that lives in Redis or, while that cannot be reached,
    in the process, and a per-user epoch before which all tokens are void. Claims are those of
    RFC 7519: `jti` (section 4.1.7) names a token, `iat` (4.1.6) and `exp` (4.1.4) are whole
    seconds, as NumericDate (section 2) is used here. */
module Revocation {
  import opened Powers
  import opened Results

  datatype Backend = Redis | Local

  /** What is revoked: one token, a family of refresh tokens, or a user's older tokens. */
  datatype Key = JtiKey(jti: string) | FamilyKey(fid: string) | EpochKey(user: string)

  /** A stored value and when the store forgets it. For a revocation the value says nothing;
      for a user it is the epoch. */
  datatype Entry = Entry(epoch: int, expiresAt: real)

  datatype Write = Write(backend: Backend, key: Key, entry: Entry)

  /** The first probe may be made at any time; `inf` pins the fallback for good. */
  datatype RetryAt = Pinned | From(at: real)

  /** Whether Redis answers a ping, and then the operation, during one call. */
  datatype Link = Link(pingOk: bool, opOk: bool)

  const BACKOFF_INITIAL := 1.0
  const BACKOFF_MAX := 30.0

  /** Conversion to a whole number cuts off the fraction. */
  function Truncated(t: real): int {
    if t >= 0.0 then t.Floor else -((-t).Floor)
  }

  // ----- the specification: a history of writes -----

  function LastWrite(history: seq<Write>, backend: Backend, key: Key): Option<Entry> {
    if history == [] then None
    else
      var last := history[|history| - 1];
      if last.backend == backend && last.key == key then Some(last.entry)
      else LastWrite(history[..|history| - 1], backend, key)
  }

  function LastWriteAnywhere(history: seq<Write>, key: Key): Option<Entry> {
    if history == [] then None
    else
      var last := history[|history| - 1];
      if last.key == key then Some(last.entry) else LastWriteAnywhere(history[..|history| - 1], key)
  }

  predicate Unexpired(e: Option<Entry>, now: real) {
    e.Some? && now < e.value.expiresAt
  }

  /** The epoch in force for a user. The process keeps epochs without expiry. */
  function EpochInForce(history: seq<Write>, backend: Backend, user: string, now: real): Option<int> {
    var e := LastWrite(history, backend, EpochKey(user));
    if e.Some? && (backend == Local || now < e.value.expiresAt) then Some(e.value.epoch) else None
  }

  // ----- the link to Redis -----

  function NextBackoff(backoff: real): real {
    var doubled := if backoff * 2.0 >= BACKOFF_INITIAL then backoff * 2.0 else BACKOFF_INITIAL;
    if doubled <= BACKOFF_MAX then doubled else BACKOFF_MAX
  }

  /** The client, if open, and the schedule of probes for it. */
  datatype Client = Client(open: bool, retryAt: RetryAt, backoff: real)

  const UNPROBED := Client(false, From(0.0), 0.0)

  predicate Probes(c: Client, now: real, force: bool) {
    !c.open && c.retryAt.From? && (now >= c.retryAt.at || force)
  }

  /** The client after a call that asks for it. */
  function Probed(c: Client, now: real, force: bool, pingOk: bool): Client {
    if !Probes(c, now, force) then c
    else if pingOk then Client(true, From(0.0), 0.0)
    else Client(false, From(now + NextBackoff(c.backoff)), NextBackoff(c.backoff))
  }

  /** The back end that takes an operation. */
  function Used(c: Client, now: real, link: Link): Backend {
    if Probed(c, now, false, link.pingOk).open && link.opOk then Redis else Local
  }

  // ----- the list -----

  /** Tokens and families need a name. */
  predicate Named(key: Key) {
    key != JtiKey("") && key != FamilyKey("") && key != EpochKey("")
  }

  class RevocationList {
    var clientOpen: bool
    var retryAt: RetryAt
    var backoff: real
    var redis: map<Key, Entry>
    var localRevoked: map<Key, real>
    var localUserEpoch: map<string, int>
    ghost var history: seq<Write>
    ghost var clock: real

    /** Redis holds the last write of each key. The process holds the last write of each
        revocation unless that expired and was pruned, and the last epoch of each user. */
    ghost predicate Valid()
      reads this
    {
      && (forall k :: (if k in redis then Some(redis[k]) else None) == LastWrite(history, Redis, k))
      && (forall k :: k in localRevoked ==>
            !k.EpochKey? && LastWrite(history, Local, k).Some? &&
            localRevoked[k] == LastWrite(history, Local, k).value.expiresAt)
      && (forall k: Key :: !k.EpochKey? && k !in localRevoked ==> !Unexpired(LastWrite(history, Local, k), clock))
      && (forall u :: (u in localUserEpoch <==> LastWrite(history, Local, EpochKey(u)).Some?) &&
            (u in localUserEpoch ==> localUserEpoch[u] == LastWrite(history, Local, EpochKey(u)).value.epoch))
    }

    ghost function View(): Store
      reads this
    {
      Store(Connection(), history)
    }

    constructor (now: real)
      ensures Valid() && history == [] && clock == now
      ensures Connection() == UNPROBED
    {
      clientOpen, retryAt, backoff := false, From(0.0), 0.0;
      redis, localRevoked, localUserEpoch := map[], map[], map[];
      history, clock := [], now;
    }

    ghost function Connection(): Client
      reads this
    {
      Client(clientOpen, retryAt, backoff)
    }

    /** Time passes; an unpruned revocation may expire by it. */
    ghost method Tick(now: real)
      requires Valid() && clock <= now
      modifies `clock
      ensures Valid() && clock == now
    {
      clock := now;
    }

    method ScheduleRetry(now: real)
      modifies `retryAt, `backoff
      ensures backoff == NextBackoff(old(backoff)) && retryAt == From(now + backoff)
    {
      var doubled := if backoff * 2.0 >= BACKOFF_INITIAL then backoff * 2.0 else BACKOFF_INITIAL;
      backoff := if doubled <= BACKOFF_MAX then doubled else BACKOFF_MAX;
      retryAt := From(now + backoff);
    }

    method GetRedis(now: real, force: bool, pingOk: bool) returns (available: bool)
      modifies `clientOpen, `retryAt, `backoff
      ensures Connection() == Probed(old(Connection()), now, force, pingOk) && available == clientOpen
    {
      if clientOpen { return true; }
      if retryAt.Pinned? { return false; }
      if now < retryAt.at && !force { return false; }
      if pingOk {
        clientOpen := true;
        retryAt := From(0.0);
        backoff := 0.0;
        return true;
      }
      ScheduleRetry(now);
      return false;
    }

    method CloseRedis()
      requires Valid()
      modifies `clientOpen, `retryAt, `backoff
      ensures Valid() && View() == Step(old(View()), CloseOp)
    {
      clientOpen, retryAt, backoff := false, From(0.0), 0.0;
    }

    /** The readiness check probes even before its time. */
    method CheckHealth(now: real, pingOk: bool) returns (healthy: bool)
      requires Valid()
      modifies `clientOpen, `retryAt, `backoff
      ensures Valid() && View() == Step(old(View()), HealthOp(now, pingOk)) && healthy == clientOpen
    {
      healthy := GetRedis(now, true, pingOk);
    }

    method LocalPrune(now: real)
      modifies `localRevoked
      ensures localRevoked == map k | k in old(localRevoked) && old(localRevoked)[k] > now :: old(localRevoked)[k]
    {
      var todo := localRevoked.Keys;
      while todo != {}
        invariant todo <= localRevoked.Keys <= old(localRevoked).Keys
        invariant forall k :: k in localRevoked ==> localRevoked[k] == old(localRevoked)[k]
        invariant forall k :: k in old(localRevoked) ==>
                    (k in localRevoked <==> k in todo || old(localRevoked)[k] > now)
        decreases todo
      {
        var k :| k in todo;
        todo := todo - {k};
        if localRevoked[k] <= now { localRevoked := localRevoked - {k}; }
      }
    }

    method PutInRedis(key: Key, entry: Entry)
      requires Valid()
      modifies `redis, `history
      ensures Valid() && history == old(history) + [Write(Redis, key, entry)]
    {
      redis := redis[key := entry];
      history := history + [Write(Redis, key, entry)];
      assert history[..|history| - 1] == old(history);
    }

    method PutLocally(key: Key, expiresAt: real)
      requires Valid() && !key.EpochKey?
      modifies `localRevoked, `history
      ensures Valid() && history == old(history) + [Write(Local, key, Entry(0, expiresAt))]
    {
      localRevoked := localRevoked[key := expiresAt];
      history := history + [Write(Local, key, Entry(0, expiresAt))];
      assert history[..|history| - 1] == old(history);
    }

    method PutEpochLocally(user: string, entry: Entry)
      requires Valid()
      modifies `localUserEpoch, `history
      ensures Valid() && history == old(history) + [Write(Local, EpochKey(user), entry)]
    {
      localUserEpoch := localUserEpoch[user := entry.epoch];
      history := history + [Write(Local, EpochKey(user), entry)];
      assert history[..|history| - 1] == old(history);
    }

    /** Revoking a token or a family; without a name or with no time left nothing happens. */
    method Revoke(key: Key, ttl: int, now: real, link: Link)
      requires Valid() && clock <= now && !key.EpochKey?
      modifies this
      ensures Valid() && clock == now
      ensures View() == Step(old(View()), RevokeOp(key, ttl, now, link))
    {
      Tick(now);
      if key == JtiKey("") || key == FamilyKey("") || ttl <= 0 { return; }
      var available := GetRedis(now, false, link.pingOk);
      if available && link.opOk {
        PutInRedis(key, Entry(0, now + ttl as real));
      } else {
        PutLocally(key, now + ttl as real);
      }
    }

    /** A revocation is in force iff the last write to the back end in use has not expired. */
    method IsRevoked(key: Key, now: real, link: Link) returns (revoked: bool)
      requires Valid() && clock <= now && !key.EpochKey?
      modifies this
      ensures Valid() && clock == now && View() == Step(old(View()), AskOp(key, now, link))
      ensures revoked <==> Named(key) && Unexpired(LastWrite(history, Used(old(Connection()), now, link), key), now)
    {
      Tick(now);
      if key == JtiKey("") || key == FamilyKey("") { return false; }
      var available := GetRedis(now, false, link.pingOk);
      if available && link.opOk {
        return key in redis && now < redis[key].expiresAt;
      }
      LocalPrune(now);
      return key in localRevoked;
    }

    /** Voiding all tokens of a user issued up to `at`: the epoch is the next whole second. */
    method RevokeUserTokens(user: string, ttl: int, at: real, now: real, link: Link)
      requires Valid() && clock <= now
      modifies this
      ensures Valid() && clock == now
      ensures View() == Step(old(View()), RevokeUserOp(user, ttl, at, now, link))
    {
      Tick(now);
      if user == "" || ttl <= 0 { return; }
      var entry := Entry(Truncated(at) + 1, now + ttl as real);
      var available := GetRedis(now, false, link.pingOk);
      if available && link.opOk {
        PutInRedis(EpochKey(user), entry);
      } else {
        PutEpochLocally(user, entry);
      }
    }

    method IsUserRevoked(user: string, issuedAt: Option<int>, now: real, link: Link) returns (revoked: bool)
      requires Valid() && clock <= now
      modifies this
      ensures Valid() && clock == now
      ensures View() == Step(old(View()), if issuedAt.Some? then AskOp(EpochKey(user), now, link) else NoOp)
      ensures revoked <==> user != "" && issuedAt.Some? &&
                           Refused(EpochInForce(history, Used(old(Connection()), now, link), user, now), issuedAt.value)
    {
      Tick(now);
      if user == "" || issuedAt.None? { return false; }
      var epoch: Option<int> := None;
      var available := GetRedis(now, false, link.pingOk);
      if available && link.opOk {
        if EpochKey(user) in redis && now < redis[EpochKey(user)].expiresAt {
          epoch := Some(redis[EpochKey(user)].epoch);
        }
      } else if user in localUserEpoch {
        epoch := Some(localUserEpoch[user]);
      }
      return epoch.Some? && issuedAt.value < epoch.value;
    }
  }

  // ----- runs -----

  /** The link to Redis, and what has been written where. */
  datatype Store = Store(client: Client, history: seq<Write>)

  datatype Op =
    | RevokeOp(key: Key, ttl: int, at: real, link: Link)
    | RevokeUserOp(user: string, ttl: int, epochAt: real, at: real, link: Link)
    | AskOp(key: Key, at: real, link: Link)
    | HealthOp(at: real, pingOk: bool)
    | CloseOp
    | NoOp

  /** What is to be written, and when, over which link. */
  datatype Order = Order(key: Key, entry: Entry, at: real, link: Link)

  /** Without a name, or with no time left, nothing is written. */
  function OrderOf(op: Op): Option<Order> {
    match op
    case RevokeOp(key, ttl, now, link) =>
      if Named(key) && ttl > 0 then Some(Order(key, Entry(0, now + ttl as real), now, link)) else None
    case RevokeUserOp(user, ttl, at, now, link) =>
      if user != "" && ttl > 0
      then Some(Order(EpochKey(user), Entry(Truncated(at) + 1, now + ttl as real), now, link)) else None
    case _ => None
  }

  function Written(s: Store, o: Order): Store {
    Store(Probed(s.client, o.at, false, o.link.pingOk),
          s.history + [Write(Used(s.client, o.at, o.link), o.key, o.entry)])
  }

  function Step(s: Store, op: Op): Store {
    if OrderOf(op).Some? then Written(s, OrderOf(op).value)
    else match op
      case AskOp(key, now, link) =>
        if !Named(key) then s else s.(client := Probed(s.client, now, false, link.pingOk))
      case HealthOp(now, pingOk) => s.(client := Probed(s.client, now, true, pingOk))
      case CloseOp => s.(client := UNPROBED)
      case _ => s
  }

  function Run(ops: seq<Op>): Store {
    if ops == [] then Store(UNPROBED, []) else Step(Run(ops[..|ops| - 1]), ops[|ops| - 1])
  }

  // ----- one specification for both back ends -----

  function LastBackend(history: seq<Write>, key: Key): Option<Backend> {
    if history == [] then None
    else
      var last := history[|history| - 1];
      if last.key == key then Some(last.backend) else LastBackend(history[..|history| - 1], key)
  }

  lemma {:induction false} LastBackendHasTheLastWrite(history: seq<Write>, backend: Backend, key: Key)
    ensures LastBackend(history, key).None? <==> LastWriteAnywhere(history, key).None?
    ensures LastBackend(history, key) in {None, Some(backend)} ==>
              LastWrite(history, backend, key) == LastWriteAnywhere(history, key)
  {
    if history != [] && history[|history| - 1].key != key {
      LastBackendHasTheLastWrite(history[..|history| - 1], backend, key);
    }
  }

  predicate SameExpiry(d: Option<Entry>, e: Option<Entry>) {
    if d.Some? && e.Some? then d.value.expiresAt == e.value.expiresAt else d == e
  }

  /** A back end and the one list for both say the same at this time. */
  predicate AnswersRight(history: seq<Write>, backend: Backend, key: Key, now: real) {
    Unexpired(LastWrite(history, backend, key), now) == Unexpired(LastWriteAnywhere(history, key), now)
  }

  lemma SameAnswersIffSameExpiry(d: Option<Entry>, e: Option<Entry>)
    ensures (forall now: real :: Unexpired(d, now) == Unexpired(e, now)) <==> SameExpiry(d, e)
  {
    if d.Some? {
      assert Unexpired(d, d.value.expiresAt - 1.0) && !Unexpired(d, d.value.expiresAt);
    }
    if e.Some? {
      assert Unexpired(e, e.value.expiresAt - 1.0) && !Unexpired(e, e.value.expiresAt);
    }
  }

  /** A back end answers, at all times, as one list for both would exactly if it took the last
      write of the key, or holds an older one with the very same expiry. So a revocation that one
      of them took is unknown to the other, unless that holds one of its own. */
  lemma BackendAnswersRightIff(history: seq<Write>, backend: Backend, key: Key)
    ensures (forall now: real :: AnswersRight(history, backend, key, now)) <==>
            || LastBackend(history, key) in {None, Some(backend)}
            || (LastWrite(history, backend, key).Some? &&
                SameExpiry(LastWrite(history, backend, key), LastWriteAnywhere(history, key)))
  {
    var d, e := LastWrite(history, backend, key), LastWriteAnywhere(history, key);
    SameAnswersIffSameExpiry(d, e);
    LastBackendHasTheLastWrite(history, backend, key);
    assert (forall now: real :: AnswersRight(history, backend, key, now)) <==>
           (forall now: real :: Unexpired(d, now) == Unexpired(e, now)) by {
      forall now: real ensures AnswersRight(history, backend, key, now) == (Unexpired(d, now) == Unexpired(e, now)) {}
    }
  }

  // ----- a back end that stays up, or stays down -----

  predicate LinkOf(op: Op, up: bool) {
    match op
    case RevokeOp(_, _, t, link) => t >= 0.0 && LinkIs(link, up)
    case RevokeUserOp(_, _, _, t, link) => t >= 0.0 && LinkIs(link, up)
    case AskOp(_, t, link) => t >= 0.0 && LinkIs(link, up)
    case HealthOp(_, pingOk) => pingOk == up
    case _ => true
  }

  predicate LinkIs(link: Link, up: bool) {
    link.pingOk == up && (up ==> link.opOk)
  }

  predicate SteadyLink(ops: seq<Op>, up: bool) {
    forall i :: 0 <= i < |ops| ==> LinkOf(ops[i], up)
  }

  function SteadyBackend(up: bool): Backend { if up then Redis else Local }

  predicate ClientFits(c: Client, up: bool) {
    if up then c.open || c.retryAt == From(0.0) else !c.open
  }

  lemma SteadyClientUses(c: Client, up: bool, now: real, link: Link)
    requires ClientFits(c, up) && now >= 0.0 && LinkIs(link, up)
    ensures Used(c, now, link) == SteadyBackend(up) && ClientFits(Probed(c, now, false, link.pingOk), up)
  {
  }

  /** The latest revocation with a name and time left, and likewise the latest epoch. */
  function LatestRevoke(ops: seq<Op>, key: Key): Option<Entry> {
    if ops == [] then None
    else
      var last := OrderOf(ops[|ops| - 1]);
      if last.Some? && last.value.key == key then Some(last.value.entry) else LatestRevoke(ops[..|ops| - 1], key)
  }

  ghost predicate SteadyStore(s: Store, ops: seq<Op>, up: bool, key: Key) {
    ClientFits(s.client, up) && LastWrite(s.history, SteadyBackend(up), key) == LatestRevoke(ops, key)
  }

  lemma WrittenWhileSteady(s: Store, o: Order, up: bool, key: Key)
    requires ClientFits(s.client, up) && o.at >= 0.0 && LinkIs(o.link, up)
    ensures ClientFits(Written(s, o).client, up)
    ensures LastWrite(Written(s, o).history, SteadyBackend(up), key)
         == if o.key == key then Some(o.entry) else LastWrite(s.history, SteadyBackend(up), key)
  {
    SteadyClientUses(s.client, up, o.at, o.link);
    var h := Written(s, o).history;
    assert h[..|h| - 1] == s.history;
  }

  lemma OtherStepWhileSteady(s: Store, op: Op, up: bool)
    requires ClientFits(s.client, up) && LinkOf(op, up) && OrderOf(op).None?
    ensures ClientFits(Step(s, op).client, up) && Step(s, op).history == s.history
  {
    if op.AskOp? {
      SteadyClientUses(s.client, up, op.at, op.link);
    }
  }

  lemma StepStaysSteady(s: Store, ops: seq<Op>, op: Op, up: bool, key: Key)
    requires SteadyStore(s, ops, up, key) && LinkOf(op, up)
    ensures SteadyStore(Step(s, op), ops + [op], up, key)
  {
    assert (ops + [op])[..|ops|] == ops;
    if OrderOf(op).Some? {
      WrittenWhileSteady(s, OrderOf(op).value, up, key);
    } else {
      OtherStepWhileSteady(s, op, up);
    }
  }

  lemma {:induction false} RunStaysSteady(ops: seq<Op>, up: bool, key: Key)
    requires SteadyLink(ops, up)
    ensures SteadyStore(Run(ops), ops, up, key)
  {
    if ops != [] {
      var front, last := ops[..|ops| - 1], ops[|ops| - 1];
      RunStaysSteady(front, up, key);
      StepStaysSteady(Run(front), front, last, up, key);
      assert ops == front + [last];
    }
  }

  /** While Redis stays up, or stays down, a query is answered by one rule on either back end,
      whatever was asked, probed or closed in between: a token or family is revoked iff its
      latest revocation with time left has not expired. Pruning cannot be observed. */
  lemma SteadyListAnswers(ops: seq<Op>, up: bool, key: Key, now: real, link: Link)
    requires SteadyLink(ops, up) && now >= 0.0 && LinkIs(link, up)
    ensures Unexpired(LastWrite(Run(ops).history, Used(Run(ops).client, now, link), key), now) <==>
            Unexpired(LatestRevoke(ops, key), now)
  {
    RunStaysSteady(ops, up, key);
    SteadyClientUses(Run(ops).client, up, now, link);
  }

  /** A revocation with a name and time left, of a token or a family. */
  predicate Revokes(op: Op, key: Key) {
    op.RevokeOp? && op.key == key && op.ttl > 0
  }

  predicate SetsEpoch(op: Op, user: string) {
    op.RevokeUserOp? && op.user == user && op.ttl > 0
  }

  lemma {:induction false} LaterOpsKeepLatest(ops: seq<Op>, later: seq<Op>, key: Key)
    requires forall i :: 0 <= i < |later| ==> OrderOf(later[i]).None? || OrderOf(later[i]).value.key != key
    ensures LatestRevoke(ops + later, key) == LatestRevoke(ops, key)
  {
    if later == [] {
      assert ops + later == ops;
    } else {
      var n := |later| - 1;
      LaterOpsKeepLatest(ops, later[..n], key);
      assert (ops + later)[..|ops| + n] == ops + later[..n];
    }
  }

  lemma LatestOfSnoc(ops: seq<Op>, op: Op, o: Order)
    requires OrderOf(op) == Some(o)
    ensures LatestRevoke(ops + [op], o.key) == Some(o.entry)
  {
    assert (ops + [op])[|ops|] == op;
  }

  /** What is revoked stays revoked for exactly its time, whatever else is done, until it is
      revoked anew. */
  lemma RevokedForItsTime(ops: seq<Op>, key: Key, ttl: int, at: real, link: Link, later: seq<Op>, all: seq<Op>,
                          up: bool, now: real, ask: Link)
    requires all == ops + [RevokeOp(key, ttl, at, link)] + later
    requires SteadyLink(all, up) && now >= 0.0 && LinkIs(ask, up)
    requires Named(key) && !key.EpochKey? && ttl > 0
    requires forall i :: 0 <= i < |later| ==> !Revokes(later[i], key)
    ensures Unexpired(LastWrite(Run(all).history, Used(Run(all).client, now, ask), key), now) <==>
            now < at + ttl as real
  {
    LatestOfSnoc(ops, RevokeOp(key, ttl, at, link), Order(key, Entry(0, at + ttl as real), at, link));
    LaterOpsKeepLatest(ops + [RevokeOp(key, ttl, at, link)], later, key);
    SteadyListAnswers(all, up, key, now, ask);
  }

  /** Without a name or with no time left a revocation changes nothing at all. */
  lemma EmptyRevocationChangesNothing(s: Store, key: Key, user: string, ttl: int, epochAt: real, at: real, link: Link)
    ensures ttl <= 0 || !Named(key) ==> Step(s, RevokeOp(key, ttl, at, link)) == s
    ensures ttl <= 0 || user == "" ==> Step(s, RevokeUserOp(user, ttl, epochAt, at, link)) == s
  {
  }

  /** Which back end takes an operation, in words of the client: an open one, or one that opens
      because its time has come and Redis answers, provided the operation itself succeeds. */
  lemma RedisIsUsedIff(c: Client, now: real, link: Link)
    ensures Used(c, now, link) == Redis <==>
      link.opOk && (c.open || (c.retryAt.From? && now >= c.retryAt.at && link.pingOk))
  {
  }

  /** Closing forgets the schedule of probes: the next operation asks Redis at once, whatever
      failed before, and uses it if it answers. */
  lemma ClosingForgetsFailures(s: Store, now: real, link: Link)
    requires now >= 0.0
    ensures Used(Step(s, CloseOp).client, now, link) == Redis <==> link.pingOk && link.opOk
    ensures Probes(Step(s, CloseOp).client, now, false) && Step(s, CloseOp).history == s.history
  {
  }

  // ----- epochs -----

  predicate Refused(epoch: Option<int>, iat: int) {
    epoch.Some? && iat < epoch.value
  }

  /** The same writes, all taken by one back end. */
  function OnBackend(history: seq<Write>, backend: Backend): seq<Write> {
    seq(|history|, i requires 0 <= i < |history| => history[i].(backend := backend))
  }

  lemma {:induction false} OnBackendKeepsAll(history: seq<Write>, backend: Backend, key: Key)
    ensures LastWrite(OnBackend(history, backend), backend, key) == LastWriteAnywhere(history, key)
  {
    if history != [] {
      var n, h := |history| - 1, OnBackend(history, backend);
      assert h[..n] == OnBackend(history[..n], backend);
      OnBackendKeepsAll(history[..n], backend, key);
    }
  }

  /** Whether a back end that took all writes refuses a token. */
  predicate RefusesOn(history: seq<Write>, backend: Backend, user: string, iat: int, now: real) {
    Refused(EpochInForce(OnBackend(history, backend), backend, user, now), iat)
  }

  /** A token on which the two back ends disagree. */
  predicate Differs(history: seq<Write>, user: string, iat: int, exp: int, now: real) {
    now < exp as real && RefusesOn(history, Redis, user, iat, now) != RefusesOn(history, Local, user, iat, now)
  }

  lemma DiffersMeaning(history: seq<Write>, user: string, iat: int, exp: int, now: real)
    ensures Differs(history, user, iat, exp, now) <==>
              var e := LastWriteAnywhere(history, EpochKey(user));
              now < exp as real && e.Some? && e.value.expiresAt <= now && iat < e.value.epoch
  {
    OnBackendKeepsAll(history, Redis, EpochKey(user));
    OnBackendKeepsAll(history, Local, EpochKey(user));
  }

  /** After any history of writes whose last epoch for the user was set at t: both back ends
      refuse the same unexpired tokens exactly if that epoch is kept for at least the longest
      lifetime of a token. */
  lemma EpochBackendsAgreeIff(history: seq<Write>, user: string, t: real, ttl: int, lifetime: nat)
    requires t >= 0.0 && ttl > 0
    requires LastWriteAnywhere(history, EpochKey(user)) == Some(Entry(Truncated(t) + 1, t + ttl as real))
    ensures ttl >= lifetime <==>
      forall iat: int, exp: int, now: real {:trigger Differs(history, user, iat, exp, now)} ::
        iat <= exp <= iat + lifetime && t <= now ==> !Differs(history, user, iat, exp, now)
  {
    if ttl < lifetime {
      var iat, exp, now := t.Floor, t.Floor + lifetime, t + ttl as real;
      assert now < exp as real;
      DiffersMeaning(history, user, iat, exp, now);
    } else {
      forall iat: int, exp: int, now: real | iat <= exp <= iat + lifetime && t <= now
        ensures !Differs(history, user, iat, exp, now)
      {
        DiffersMeaning(history, user, iat, exp, now);
        if iat < Truncated(t) + 1 {
          assert iat as real <= t && exp as real <= t + lifetime as real <= t + ttl as real;
        }
      }
    }
  }

  /** Without any epoch they always agree. */
  lemma NoEpochNoDifference(history: seq<Write>, user: string, iat: int, exp: int, now: real)
    requires LastWriteAnywhere(history, EpochKey(user)) == None
    ensures !Differs(history, user, iat, exp, now)
  {
    DiffersMeaning(history, user, iat, exp, now);
  }

  /** While the last epoch, set at t, is in force, exactly the tokens issued up to the second
      of t are refused. */
  lemma EpochRefusesUpToItsSecond(history: seq<Write>, backend: Backend, user: string, t: real, ttl: int,
                                  iat: int, now: real)
    requires 0.0 <= t <= now < t + ttl as real
    requires LastWriteAnywhere(history, EpochKey(user)) == Some(Entry(Truncated(t) + 1, t + ttl as real))
    ensures RefusesOn(history, backend, user, iat, now) <==> iat <= t.Floor
    ensures iat as real <= t ==> RefusesOn(history, backend, user, iat, now)
  {
    OnBackendKeepsAll(history, backend, EpochKey(user));
  }

  /** So a login is accepted at once iff that second is over. */
  lemma FreshLoginNeedsTheNextSecond(history: seq<Write>, backend: Backend, user: string,
                                     t: real, ttl: int, login: real)
    requires 0.0 <= t <= login && login < t + ttl as real
    requires LastWriteAnywhere(history, EpochKey(user)) == Some(Entry(Truncated(t) + 1, t + ttl as real))
    ensures RefusesOn(history, backend, user, Truncated(login), login) <==> Truncated(login) == Truncated(t)
    ensures login >= t + 1.0 ==> Truncated(login) > Truncated(t)
  {
    EpochRefusesUpToItsSecond(history, backend, user, t, ttl, Truncated(login), login);
    assert t.Floor <= login.Floor;
  }

  /** While Redis stays up, or stays down, a user's tokens are refused by the latest epoch, on
      Redis only as long as it is kept: if it was set at t, those issued up to the second of t. */
  lemma SteadyListRefuses(ops: seq<Op>, up: bool, user: string, iat: int, now: real, link: Link)
    requires SteadyLink(ops, up) && now >= 0.0 && LinkIs(link, up)
    ensures var e := LatestRevoke(ops, EpochKey(user));
            Refused(EpochInForce(Run(ops).history, Used(Run(ops).client, now, link), user, now), iat) <==>
            e.Some? && (up ==> now < e.value.expiresAt) && iat < e.value.epoch
  {
    RunStaysSteady(ops, up, EpochKey(user));
    SteadyClientUses(Run(ops).client, up, now, link);
  }

  /** A force-logout of a user, made for time t, and any operations after it but another one. */
  lemma ForceLogoutRefuses(ops: seq<Op>, user: string, ttl: int, t: real, at: real, link: Link,
                           later: seq<Op>, all: seq<Op>, up: bool, iat: int, now: real, ask: Link)
    requires all == ops + [RevokeUserOp(user, ttl, t, at, link)] + later
    requires SteadyLink(all, up) && now >= 0.0 && LinkIs(ask, up)
    requires user != "" && t >= 0.0 && ttl > 0
    requires forall i :: 0 <= i < |later| ==> !SetsEpoch(later[i], user) && !Revokes(later[i], EpochKey(user))
    ensures Refused(EpochInForce(Run(all).history, Used(Run(all).client, now, ask), user, now), iat) <==>
            iat <= t.Floor && (up ==> now < at + ttl as real)
  {
    var op := RevokeUserOp(user, ttl, t, at, link);
    LatestOfSnoc(ops, op, Order(EpochKey(user), Entry(Truncated(t) + 1, at + ttl as real), at, link));
    LaterOpsKeepLatest(ops + [op], later, EpochKey(user));
    SteadyListRefuses(all, up, user, iat, now, ask);
  }

  // ----- probing -----

  /** The backoff after n failed probes in a row. */
  function BackoffAfter(n: nat): real {
    if n == 0 then 0.0 else NextBackoff(BackoffAfter(n - 1))
  }

  lemma {:induction false} BackoffDoublesUpToTheCap(n: nat)
    requires n >= 1
    ensures BackoffAfter(n) == if n <= 5 then Pow2(n - 1) as real else BACKOFF_MAX
  {
    if n > 1 {
      BackoffDoublesUpToTheCap(n - 1);
      if n <= 6 {
        assert Pow2(0) == 1 && Pow2(1) == 2 && Pow2(2) == 4 && Pow2(3) == 8 && Pow2(4) == 16;
      }
    }
  }

  /** The client after probes at these times that all failed. */
  function AfterFailedProbes(times: seq<real>): Client {
    if times == [] then UNPROBED else Probed(AfterFailedProbes(times[..|times| - 1]), times[|times| - 1], true, false)
  }

  /** After n failed probes the next one is due exactly when the n-th backoff is over since the
      last; one that succeeds opens the client and clears the schedule. */
  lemma {:induction false} ProbesBackOff(times: seq<real>, now: real)
    requires times != []
    ensures var c, due := AfterFailedProbes(times), times[|times| - 1] + BackoffAfter(|times|);
            && !c.open && (Probes(c, now, false) <==> now >= due)
            && (now >= due ==> Probed(c, now, false, true) == Client(true, From(0.0), 0.0))
            && (now < due ==> Probed(c, now, false, true) == c)
            && c.retryAt.From? && c.backoff == BackoffAfter(|times|)
  {
    if |times| > 1 {
      ProbesBackOff(times[..|times| - 1], now);
    }
  }
}
