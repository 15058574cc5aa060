/** The lease-based leader lock (`EtcdDistributedLock`) as a timed system.

    Any number of clients run the acquire / keep-alive protocol against one etcd
    server. The environment decides how long every call takes, whether its reply
    is lost, whether a request reaches the server late or more than once, and how
    late an expired lease is collected. Time is real-valued and common to all. */
module LeaseLock {
  import opened Basics
  import opened Etcd

  const MIN_INTERVAL: int := 1
  const MAX_RETRY: nat := 5
  const RETRY_PAUSE: real := 1.0
  const ETCD_LEASE_TTL: int := 20
  const CONTEXT_TIMEOUT_SECONDS: real := 5.0

  const LOCK_KEY: Key := "leader"

  type ClientId = nat

  /** `ttl` is `staticLeaseTtl`. A call, with the code around it, takes at most
      `maxDelay` seconds; a sleep ends at most `maxOversleep` seconds late. */
  datatype Config = Config(ttl: int, maxDelay: real, maxOversleep: real)

  ghost predicate ValidConfig(cfg: Config) {
    2 <= cfg.ttl && 0.0 <= cfg.maxDelay && 0.0 <= cfg.maxOversleep
  }

  function Clamp(x: int, lo: int, hi: int): int {
    if x < lo then lo else if hi < x then hi else x
  }

  function CalculateSleepTime(cfg: Config, ttl: int): int
    requires 2 <= cfg.ttl
  {
    if ttl <= 0 then MIN_INTERVAL else Clamp(ttl / 2, MIN_INTERVAL, cfg.ttl / 2)
  }

  /** For every positive reply the sleep lies between one second and half the static TTL, and in
      between it is half the reply; any other reply means one second. */
  lemma SleepIsHalf(cfg: Config, ttl: int)
    requires 2 <= cfg.ttl
    ensures 1 <= CalculateSleepTime(cfg, ttl) <= cfg.ttl / 2
    ensures 2 <= ttl <= cfg.ttl ==> CalculateSleepTime(cfg, ttl) == ttl / 2
    ensures ttl < 2 ==> CalculateSleepTime(cfg, ttl) == 1
    ensures cfg.ttl < ttl ==> CalculateSleepTime(cfg, ttl) == cfg.ttl / 2
  {
  }

  /** A request, once sent, can reach the server at any later time, any number of times. */
  datatype Request = GrantRequest | LockRequest(client: ClientId, lease: LeaseId) | RenewRequest(lease: LeaseId)

  /** Where a client's lock code currently stands. The last field of a call phase is
      the server's answer, if the server has served the call already. */
  datatype Phase =
    | Idle
    | Granting(start: real, granted: Option<LeaseId>)
    | Locking(grantStart: real, start: real, verdict: Option<bool>)
    | Renewing(start: real, retry: nat, reply: Option<int>)
    | Napping(until: real)
    | BackingOff(until: real, retry: nat)

  datatype Client = Client(isLocked: bool, leaseId: LeaseId, phase: Phase)

  datatype State = State(now: real, server: Server<ClientId>, clients: seq<Client>, issued: set<Request>)

  datatype Event =
    | Elapse(dt: real)
    | ExpireLease(lease: LeaseId)
    | ServeStray(request: Request)
    | Attempt(c: ClientId)
    | ServeGrant(c: ClientId)
    | GrantReturns(c: ClientId, delivered: bool)
    | ServeLock(c: ClientId)
    | LockReturns(c: ClientId, delivered: bool)
    | ServeRenew(c: ClientId)
    | RenewReturns(c: ClientId, delivered: bool)
    | Wake(c: ClientId)

  function Init(n: nat): State {
    State(0.0, EmptyServer(), seq(n, _ => Client(false, NO_LEASE, Idle)), {})
  }

  // ----- the server's side of each call ------------------------------------------------

  /** The acquire transaction: create the key if its create revision is 0. A put
      that names a dead lease is rejected, so the call yields no verdict. */
  function LockVerdict(sv: Server<ClientId>, lease: LeaseId): Option<bool> {
    if CreateRevision(sv, LOCK_KEY) != 0 then Some(false)
    else if lease in sv.leases then Some(true)
    else None
  }

  function LockTxn(sv: Server<ClientId>, c: ClientId, lease: LeaseId): Server<ClientId> {
    if LockVerdict(sv, lease) == Some(true) then Put(sv, LOCK_KEY, c, lease) else sv
  }

  function ServeRequest(cfg: Config, s: State, request: Request): Server<ClientId> {
    match request
    case GrantRequest => Grant(s.server, s.now + cfg.ttl as real)
    case LockRequest(c, lease) => LockTxn(s.server, c, lease)
    case RenewRequest(lease) => KeepAlive(s.server, lease, s.now + cfg.ttl as real)
  }

  // ----- the client's side -------------------------------------------------------------

  /** The latest instant at which a client can still be in its present phase. */
  predicate WithinLimit(cfg: Config, now: real, phase: Phase) {
    match phase
    case Idle => true
    case Granting(start, _) => now <= start + cfg.maxDelay
    case Locking(_, start, _) => now <= start + cfg.maxDelay
    case Renewing(start, _, _) => now <= start + cfg.maxDelay
    case Napping(until) => now <= until + cfg.maxOversleep
    case BackingOff(until, _) => now <= until + cfg.maxOversleep
  }

  /** `TryRenewLease` accepts only a delivered reply with a positive TTL; the worker
      then sleeps half the TTL, and otherwise counts a failure and pauses. */
  function AfterRenewal(cfg: Config, now: real, retry: nat, reply: Option<int>): Phase
    requires 2 <= cfg.ttl
  {
    if reply.Some? && 0 < reply.value
    then Napping(now + CalculateSleepTime(cfg, reply.value) as real)
    else BackingOff(now + RETRY_PAUSE, retry + 1)
  }

  /** After a nap the worker renews again; after the last failed attempt it leaves the
      loop and `HandleLeaseLost` drops the lock. */
  function AfterSleep(now: real, c: Client): Client
    requires c.phase.Napping? || c.phase.BackingOff?
  {
    match c.phase
    case Napping(_) => c.(phase := Renewing(now, 0, None))
    case BackingOff(_, retry) =>
      if retry < MAX_RETRY then c.(phase := Renewing(now, retry, None))
      else c.(isLocked := false, phase := Idle)
  }

  // ----- one step of the whole system --------------------------------------------------

  function Issue(s: State, c: ClientId, client: Client, request: Request): State
    requires c < |s.clients|
  {
    s.(clients := s.clients[c := client], issued := s.issued + {request})
  }

  function SetClient(s: State, c: ClientId, client: Client): State
    requires c < |s.clients|
  {
    s.(clients := s.clients[c := client])
  }

  predicate Enabled(cfg: Config, s: State, e: Event) {
    match e
    case Elapse(dt) =>
      0.0 <= dt && forall c :: 0 <= c < |s.clients| ==> WithinLimit(cfg, s.now + dt, s.clients[c].phase)
    case ExpireLease(lease) => lease in s.server.leases && s.server.leases[lease] <= s.now
    case ServeStray(request) => request in s.issued
    case Attempt(c) => c < |s.clients| && s.clients[c].phase.Idle? && !s.clients[c].isLocked
    case ServeGrant(c) =>
      c < |s.clients| && s.clients[c].phase.Granting? && s.clients[c].phase.granted.None?
    case GrantReturns(c, delivered) =>
      c < |s.clients| && s.clients[c].phase.Granting? && (delivered ==> s.clients[c].phase.granted.Some?)
    case ServeLock(c) =>
      && c < |s.clients| && s.clients[c].phase.Locking? && s.clients[c].phase.verdict.None?
      && LockVerdict(s.server, s.clients[c].leaseId).Some?
    case LockReturns(c, delivered) =>
      c < |s.clients| && s.clients[c].phase.Locking? && (delivered ==> s.clients[c].phase.verdict.Some?)
    case ServeRenew(c) =>
      c < |s.clients| && s.clients[c].phase.Renewing? && s.clients[c].phase.reply.None?
    case RenewReturns(c, delivered) =>
      c < |s.clients| && s.clients[c].phase.Renewing? && (delivered ==> s.clients[c].phase.reply.Some?)
    case Wake(c) =>
      && c < |s.clients| && (s.clients[c].phase.Napping? || s.clients[c].phase.BackingOff?)
      && s.clients[c].phase.until <= s.now
  }

  function Step(cfg: Config, s: State, e: Event): State
    requires 2 <= cfg.ttl && Enabled(cfg, s, e)
  {
    match e
    case Elapse(dt) => s.(now := s.now + dt)
    case ExpireLease(lease) => s.(server := Expire(s.server, lease))
    case ServeStray(request) => s.(server := ServeRequest(cfg, s, request))
    case Attempt(c) => Issue(s, c, s.clients[c].(phase := Granting(s.now, None)), GrantRequest)
    case ServeGrant(c) =>
      var client := s.clients[c];
      SetClient(s.(server := ServeRequest(cfg, s, GrantRequest)), c,
                client.(phase := client.phase.(granted := Some(s.server.nextLease))))
    case GrantReturns(c, delivered) =>
      var client := s.clients[c];
      if delivered then
        var lease := client.phase.granted.value;
        Issue(s, c, client.(leaseId := lease, phase := Locking(client.phase.start, s.now, None)),
              LockRequest(c, lease))
      else SetClient(s, c, client.(isLocked := false, phase := Idle))
    case ServeLock(c) =>
      var client := s.clients[c];
      SetClient(s.(server := LockTxn(s.server, c, client.leaseId)), c,
                client.(phase := client.phase.(verdict := LockVerdict(s.server, client.leaseId))))
    case LockReturns(c, delivered) =>
      var client := s.clients[c];
      if delivered && client.phase.verdict.value then
        Issue(s, c, client.(isLocked := true, phase := Renewing(s.now, 0, None)), RenewRequest(client.leaseId))
      else SetClient(s, c, client.(isLocked := false, phase := Idle))
    case ServeRenew(c) =>
      var client := s.clients[c];
      var reply := if client.leaseId in s.server.leases then cfg.ttl else 0;
      SetClient(s.(server := ServeRequest(cfg, s, RenewRequest(client.leaseId))), c,
                client.(phase := client.phase.(reply := Some(reply))))
    case RenewReturns(c, delivered) =>
      var client := s.clients[c];
      var reply := if delivered then client.phase.reply else None;
      SetClient(s, c, client.(phase := AfterRenewal(cfg, s.now, client.phase.retry, reply)))
    case Wake(c) =>
      var client := AfterSleep(s.now, s.clients[c]);
      if client.phase.Renewing? then Issue(s, c, client, RenewRequest(client.leaseId))
      else SetClient(s, c, client)
  }

  /** The state after a whole run, or `None` when some event was not possible. */
  function Run(cfg: Config, s: State, events: seq<Event>): Option<State>
    requires 2 <= cfg.ttl
    decreases |events|
  {
    if events == [] then Some(s)
    else if Enabled(cfg, s, events[0]) then Run(cfg, Step(cfg, s, events[0]), events[1..])
    else None
  }

  // ----- the invariant -----------------------------------------------------------------

  /** One failed keep-alive attempt and the pause after it. */
  function Round(cfg: Config): real {
    cfg.maxDelay + RETRY_PAUSE + cfg.maxOversleep
  }

  function Rounds(cfg: Config, n: nat): real {
    if n == 0 then 0.0 else Round(cfg) + Rounds(cfg, n - 1)
  }

  /** The last renewed lease outlives half a TTL of sleep, `MAX_RETRY` failed rounds and
      the delivery of the renewal itself. */
  ghost predicate SafeTiming(cfg: Config) {
    (cfg.ttl / 2) as real + 5.0 * RETRY_PAUSE + 6.0 * (cfg.maxDelay + cfg.maxOversleep) < cfg.ttl as real
  }

  /** The latest instant at which a lock holder can still believe it holds the lock. */
  function StepDownBound(cfg: Config, phase: Phase): real {
    match phase
    case Renewing(start, retry, _) => start + Rounds(cfg, if retry < MAX_RETRY then MAX_RETRY - retry else 0)
    case Napping(until) => until + cfg.maxOversleep + Rounds(cfg, MAX_RETRY)
    case BackingOff(until, retry) =>
      until + cfg.maxOversleep + Rounds(cfg, if retry < MAX_RETRY then MAX_RETRY - retry else 0)
    case _ => 0.0
  }

  ghost predicate Holds(sv: Server<ClientId>, c: ClientId, lease: LeaseId) {
    && LOCK_KEY in sv.kvs && sv.kvs[LOCK_KEY].value == c && sv.kvs[LOCK_KEY].lease == lease
    && lease in sv.leases
  }

  ghost predicate ServerInv(cfg: Config, now: real, sv: Server<ClientId>) {
    && Valid(sv)
    && (LOCK_KEY in sv.kvs ==> sv.kvs[LOCK_KEY].lease in sv.leases)
    && (forall l :: l in sv.leases ==> sv.leases[l] <= now + cfg.ttl as real)
  }

  ghost predicate ClientInv(cfg: Config, now: real, sv: Server<ClientId>, c: ClientId, client: Client) {
    && WithinLimit(cfg, now, client.phase)
    && client.isLocked == (client.phase.Renewing? || client.phase.Napping? || client.phase.BackingOff?)
    && (client.isLocked ==>
        && Holds(sv, c, client.leaseId)
        && StepDownBound(cfg, client.phase) < sv.leases[client.leaseId])
    && match client.phase
       case Idle => true
       case Granting(start, granted) =>
         && start <= now
         && (granted.Some? ==>
             granted.value in sv.leases && start + cfg.ttl as real <= sv.leases[granted.value])
       case Locking(grantStart, start, verdict) =>
         && grantStart <= start <= now && start <= grantStart + cfg.maxDelay
         && client.leaseId in sv.leases && grantStart + cfg.ttl as real <= sv.leases[client.leaseId]
         && (verdict == Some(true) ==> Holds(sv, c, client.leaseId))
       case Renewing(start, retry, reply) =>
         && start <= now && retry < MAX_RETRY
         && (reply.Some? ==> reply.value == cfg.ttl && start + cfg.ttl as real <= sv.leases[client.leaseId])
       case Napping(_) => true
       case BackingOff(_, retry) => retry <= MAX_RETRY
  }

  ghost predicate Inv(cfg: Config, s: State) {
    && ServerInv(cfg, s.now, s.server)
    && forall c :: 0 <= c < |s.clients| ==> ClientInv(cfg, s.now, s.server, c, s.clients[c])
  }

  /** At most one client believes it holds the lock. */
  ghost predicate Exclusive(s: State) {
    forall a, b | 0 <= a < |s.clients| && 0 <= b < |s.clients| :: Locked(s, a) && Locked(s, b) ==> a == b
  }

  predicate Locked(s: State, c: ClientId)
    requires c < |s.clients|
  {
    s.clients[c].isLocked
  }
}
