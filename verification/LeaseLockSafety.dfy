/** Mutual exclusion of the leader lock, over every timed run, and the exact timing
    condition under which it holds. */
module LeaseLockSafety {
  import opened Basics
  import opened Etcd
  import opened LeaseLock

  // ----- the server only ever helps a client that relies on it -------------------------

  /** Every lease stays and never gets an earlier deadline; a present lock key stays. */
  ghost predicate Extends(old_: Server<ClientId>, new_: Server<ClientId>) {
    && (forall l :: l in old_.leases ==> l in new_.leases && old_.leases[l] <= new_.leases[l])
    && (LOCK_KEY in old_.kvs ==> LOCK_KEY in new_.kvs && new_.kvs[LOCK_KEY] == old_.kvs[LOCK_KEY])
  }

  lemma ServedRequestExtends(cfg: Config, s: State, request: Request)
    requires ValidConfig(cfg) && ServerInv(cfg, s.now, s.server)
    ensures Extends(s.server, ServeRequest(cfg, s, request))
    ensures ServerInv(cfg, s.now, ServeRequest(cfg, s, request))
  {
  }

  lemma ClientInvExtends(cfg: Config, now: real, sv: Server<ClientId>, sv': Server<ClientId>, c: ClientId, client: Client)
    requires ClientInv(cfg, now, sv, c, client) && Extends(sv, sv')
    ensures ClientInv(cfg, now, sv', c, client)
  {
  }

  // ----- arithmetic of the keep-alive loop ----------------------------------------------

  lemma FiveRounds(cfg: Config)
    ensures Rounds(cfg, MAX_RETRY) == 5.0 * Round(cfg)
  {
    assert Rounds(cfg, 1) == Round(cfg);
    assert Rounds(cfg, 2) == 2.0 * Round(cfg);
    assert Rounds(cfg, 3) == 3.0 * Round(cfg);
    assert Rounds(cfg, 4) == 4.0 * Round(cfg);
  }

  lemma RoundsNonNegative(cfg: Config, n: nat)
    requires ValidConfig(cfg)
    ensures 0.0 <= Rounds(cfg, n)
  {
  }

  // ----- preservation, event by event ---------------------------------------------------

  /** Replacing one client, over a server that only extends, keeps the invariant when the
      replaced client satisfies its own part. */
  lemma UpdateKeepsInv(cfg: Config, s: State, s': State, c: ClientId)
    requires Inv(cfg, s) && c < |s.clients| && s'.now == s.now
    requires |s'.clients| == |s.clients| && s'.clients == s.clients[c := s'.clients[c]]
    requires Extends(s.server, s'.server) && ServerInv(cfg, s.now, s'.server)
    requires ClientInv(cfg, s.now, s'.server, c, s'.clients[c])
    ensures Inv(cfg, s')
  {
    forall i | 0 <= i < |s'.clients| ensures ClientInv(cfg, s'.now, s'.server, i, s'.clients[i]) {
      if i != c {
        ClientInvExtends(cfg, s.now, s.server, s'.server, i, s.clients[i]);
      }
    }
  }

  lemma ElapseKeepsInv(cfg: Config, s: State, dt: real)
    requires ValidConfig(cfg) && Inv(cfg, s) && Enabled(cfg, s, Elapse(dt))
    ensures Inv(cfg, Step(cfg, s, Elapse(dt)))
  {
    var s' := Step(cfg, s, Elapse(dt));
    forall i | 0 <= i < |s'.clients| ensures ClientInv(cfg, s'.now, s'.server, i, s'.clients[i]) {
      assert ClientInv(cfg, s.now, s.server, i, s.clients[i]);
    }
  }

  /** No lease that a client relies on can be old enough to expire. */
  lemma ReliedLeaseIsFresh(cfg: Config, s: State, c: ClientId)
    requires ValidConfig(cfg) && SafeTiming(cfg) && Inv(cfg, s) && c < |s.clients|
    ensures s.clients[c].isLocked ==> s.now < s.server.leases[s.clients[c].leaseId]
    ensures s.clients[c].phase.Granting? && s.clients[c].phase.granted.Some? ==>
              s.now < s.server.leases[s.clients[c].phase.granted.value]
    ensures s.clients[c].phase.Locking? ==> s.now < s.server.leases[s.clients[c].leaseId]
  {
    assert ClientInv(cfg, s.now, s.server, c, s.clients[c]);
    match s.clients[c].phase
    case Renewing(_, retry, _) => RoundsNonNegative(cfg, MAX_RETRY - retry - 1);
    case Napping(_) => RoundsNonNegative(cfg, MAX_RETRY);
    case BackingOff(_, retry) => RoundsNonNegative(cfg, MAX_RETRY - retry);
    case _ =>
  }

  lemma ExpireKeepsInv(cfg: Config, s: State, lease: LeaseId)
    requires ValidConfig(cfg) && SafeTiming(cfg) && Inv(cfg, s) && Enabled(cfg, s, ExpireLease(lease))
    ensures Inv(cfg, Step(cfg, s, ExpireLease(lease)))
  {
    var s' := Step(cfg, s, ExpireLease(lease));
    forall i | 0 <= i < |s'.clients| ensures ClientInv(cfg, s'.now, s'.server, i, s'.clients[i]) {
      assert ClientInv(cfg, s.now, s.server, i, s.clients[i]);
      ReliedLeaseIsFresh(cfg, s, i);
    }
  }

  lemma AcquireKeepsInv(cfg: Config, s: State, e: Event)
    requires ValidConfig(cfg) && SafeTiming(cfg) && Inv(cfg, s) && Enabled(cfg, s, e)
    requires e.Attempt? || e.ServeGrant? || e.GrantReturns? || e.ServeLock? || e.LockReturns?
    ensures Inv(cfg, Step(cfg, s, e))
  {
    var s' := Step(cfg, s, e);
    assert ClientInv(cfg, s.now, s.server, e.c, s.clients[e.c]);
    if e.ServeGrant? { ServedRequestExtends(cfg, s, GrantRequest); }
    if e.ServeLock? { ServedRequestExtends(cfg, s, LockRequest(e.c, s.clients[e.c].leaseId)); }
    if e.LockReturns? { FiveRounds(cfg); }
    UpdateKeepsInv(cfg, s, s', e.c);
  }

  lemma RenewKeepsInv(cfg: Config, s: State, e: Event)
    requires ValidConfig(cfg) && SafeTiming(cfg) && Inv(cfg, s) && Enabled(cfg, s, e)
    requires e.ServeRenew? || e.RenewReturns? || e.Wake?
    ensures Inv(cfg, Step(cfg, s, e))
  {
    var s' := Step(cfg, s, e);
    assert ClientInv(cfg, s.now, s.server, e.c, s.clients[e.c]);
    if e.ServeRenew? { ServedRequestExtends(cfg, s, RenewRequest(s.clients[e.c].leaseId)); }
    FiveRounds(cfg);
    UpdateKeepsInv(cfg, s, s', e.c);
  }

  lemma StepKeepsInv(cfg: Config, s: State, e: Event)
    requires ValidConfig(cfg) && SafeTiming(cfg) && Inv(cfg, s) && Enabled(cfg, s, e)
    ensures Inv(cfg, Step(cfg, s, e))
  {
    match e
    case Elapse(dt) => ElapseKeepsInv(cfg, s, dt);
    case ExpireLease(lease) => ExpireKeepsInv(cfg, s, lease);
    case ServeStray(request) =>
      ServedRequestExtends(cfg, s, request);
      forall i | 0 <= i < |s.clients|
        ensures ClientInv(cfg, s.now, ServeRequest(cfg, s, request), i, s.clients[i]) {
        ClientInvExtends(cfg, s.now, s.server, ServeRequest(cfg, s, request), i, s.clients[i]);
      }
    case ServeRenew(_) => RenewKeepsInv(cfg, s, e);
    case RenewReturns(_, _) => RenewKeepsInv(cfg, s, e);
    case Wake(_) => RenewKeepsInv(cfg, s, e);
    case _ => AcquireKeepsInv(cfg, s, e);
  }

  lemma {:induction false} RunKeepsInv(cfg: Config, s: State, events: seq<Event>)
    requires ValidConfig(cfg) && SafeTiming(cfg) && Inv(cfg, s)
    ensures Run(cfg, s, events).Some? ==> Inv(cfg, Run(cfg, s, events).value)
    decreases |events|
  {
    if events != [] && Enabled(cfg, s, events[0]) {
      StepKeepsInv(cfg, s, events[0]);
      RunKeepsInv(cfg, Step(cfg, s, events[0]), events[1..]);
    }
  }

  // ----- every timed run ------------------------------------------------------------------

  ghost predicate Reachable(cfg: Config, n: nat, s: State)
    requires 2 <= cfg.ttl
  {
    exists events :: Run(cfg, Init(n), events) == Some(s)
  }

  /** Under safe timing, in every reachable state of any number of clients at most one
      client is locked. It is the owner named by the server's key, its lease is live, and
      the instant by which it steps down on its own lies ahead of now and strictly before
      the lease deadline. */
  lemma MutualExclusion(cfg: Config, n: nat, s: State)
    requires ValidConfig(cfg) && SafeTiming(cfg) && Reachable(cfg, n, s)
    ensures Exclusive(s)
    ensures forall c | 0 <= c < |s.clients| && Locked(s, c) ::
              && Holds(s.server, c, s.clients[c].leaseId)
              && s.now <= StepDownBound(cfg, s.clients[c].phase) < s.server.leases[s.clients[c].leaseId]
  {
    var events :| Run(cfg, Init(n), events) == Some(s);
    RunKeepsInv(cfg, Init(n), events);
    forall c | 0 <= c < |s.clients| && Locked(s, c)
      ensures Holds(s.server, c, s.clients[c].leaseId)
      ensures s.now <= StepDownBound(cfg, s.clients[c].phase) < s.server.leases[s.clients[c].leaseId]
    {
      assert ClientInv(cfg, s.now, s.server, c, s.clients[c]);
      match s.clients[c].phase
      case Renewing(_, retry, _) => RoundsNonNegative(cfg, MAX_RETRY - retry - 1);
      case Napping(_) => RoundsNonNegative(cfg, MAX_RETRY);
      case BackingOff(_, retry) => RoundsNonNegative(cfg, MAX_RETRY - retry);
    }
  }

  lemma {:induction false} RunSnoc(cfg: Config, s: State, events: seq<Event>, e: Event)
    requires ValidConfig(cfg) && Run(cfg, s, events).Some? && Enabled(cfg, Run(cfg, s, events).value, e)
    ensures Run(cfg, s, events + [e]) == Some(Step(cfg, Run(cfg, s, events).value, e))
    decreases |events|
  {
    if events == [] {
      assert events + [e] == [e];
    } else {
      assert (events + [e])[0] == events[0] && (events + [e])[1..] == events[1..] + [e];
      RunSnoc(cfg, Step(cfg, s, events[0]), events[1..], e);
    }
  }

  lemma Extend(cfg: Config, n: nat, s: State, e: Event) returns (s': State)
    requires ValidConfig(cfg) && Reachable(cfg, n, s) && Enabled(cfg, s, e)
    ensures s' == Step(cfg, s, e) && Reachable(cfg, n, s')
  {
    var events :| Run(cfg, Init(n), events) == Some(s);
    RunSnoc(cfg, Init(n), events, e);
    s' := Step(cfg, s, e);
    assert Run(cfg, Init(n), events + [e]) == Some(s');
  }

  // ----- the timing condition is also necessary -------------------------------------------

  /** Client 0 holds the lock on lease 1, last renewed at time 0; all others are idle. */
  function Holding(cfg: Config, n: nat, now: real, phase: Phase): State
    requires 0 < n
  {
    State(now,
          Server(1, map[LOCK_KEY := KeyValue(0, 1, 1, 1)], map[1 := cfg.ttl as real], 2),
          seq(n, i => if i == 0 then Client(true, 1, phase) else Client(false, NO_LEASE, Idle)),
          {GrantRequest, LockRequest(0, 1), RenewRequest(1)})
  }

  lemma UncontestedGrant(cfg: Config, n: nat, s: State, c: ClientId) returns (s': State)
    requires ValidConfig(cfg) && Reachable(cfg, n, s) && c < |s.clients|
    requires s.clients[c].phase.Idle? && !s.clients[c].isLocked
    ensures Reachable(cfg, n, s') && s'.now == s.now
    ensures s'.clients == s.clients[c := Client(false, s.server.nextLease, Locking(s.now, s.now, None))]
    ensures s'.server == Grant(s.server, s.now + cfg.ttl as real)
    ensures s'.issued == s.issued + {GrantRequest, LockRequest(c, s.server.nextLease)}
  {
    s' := Extend(cfg, n, s, Attempt(c));
    assert s'.clients[c] == s.clients[c].(phase := Granting(s.now, None));
    s' := Extend(cfg, n, s', ServeGrant(c));
    assert s'.clients[c] == s.clients[c].(phase := Granting(s.now, Some(s.server.nextLease)));
    s' := Extend(cfg, n, s', GrantReturns(c, true));
  }

  lemma UncontestedTxn(cfg: Config, n: nat, s: State, c: ClientId) returns (s': State)
    requires ValidConfig(cfg) && Reachable(cfg, n, s) && c < |s.clients|
    requires s.clients[c].phase.Locking? && s.clients[c].phase.verdict.None?
    requires LOCK_KEY !in s.server.kvs && s.clients[c].leaseId in s.server.leases
    ensures Reachable(cfg, n, s') && s'.now == s.now
    ensures s'.clients == s.clients[c := Client(true, s.clients[c].leaseId, Renewing(s.now, 0, None))]
    ensures s'.server == Put(s.server, LOCK_KEY, c, s.clients[c].leaseId)
    ensures s'.issued == s.issued + {RenewRequest(s.clients[c].leaseId)}
  {
    s' := Extend(cfg, n, s, ServeLock(c));
    assert s'.clients[c] == s.clients[c].(phase := s.clients[c].phase.(verdict := Some(true)));
    s' := Extend(cfg, n, s', LockReturns(c, true));
  }

  /** An idle client that finds no key becomes the holder without any time passing. */
  lemma UncontestedAcquire(cfg: Config, n: nat, s: State, c: ClientId) returns (s': State)
    requires ValidConfig(cfg) && Reachable(cfg, n, s) && c < |s.clients|
    requires s.clients[c].phase.Idle? && !s.clients[c].isLocked && LOCK_KEY !in s.server.kvs
    ensures Reachable(cfg, n, s') && s'.now == s.now
    ensures s'.clients == s.clients[c := Client(true, s.server.nextLease, Renewing(s.now, 0, None))]
    ensures s'.server == Put(Grant(s.server, s.now + cfg.ttl as real), LOCK_KEY, c, s.server.nextLease)
    ensures s'.issued ==
            s.issued + {GrantRequest, LockRequest(c, s.server.nextLease), RenewRequest(s.server.nextLease)}
  {
    s' := UncontestedGrant(cfg, n, s, c);
    s' := UncontestedTxn(cfg, n, s', c);
    assert s'.clients == s.clients[c := Client(true, s.server.nextLease, Renewing(s.now, 0, None))];
  }

  lemma HoldingReachable(cfg: Config, n: nat)
    requires ValidConfig(cfg) && 0 < n
    ensures Reachable(cfg, n, Holding(cfg, n, 0.0, Renewing(0.0, 0, Some(cfg.ttl))))
  {
    assert Run(cfg, Init(n), []) == Some(Init(n));
    var s := UncontestedAcquire(cfg, n, Init(n), 0);
    s := Extend(cfg, n, s, ServeRenew(0));
    var goal := Holding(cfg, n, 0.0, Renewing(0.0, 0, Some(cfg.ttl)));
    assert s.clients == goal.clients;
    assert s.server.leases == goal.server.leases;
    assert s.issued == goal.issued;
    assert s == goal;
  }

  lemma HoldingStep(cfg: Config, n: nat, now: real, phase: Phase, e: Event, now': real, phase': Phase)
    requires ValidConfig(cfg) && 0 < n
    requires Reachable(cfg, n, Holding(cfg, n, now, phase))
    requires Enabled(cfg, Holding(cfg, n, now, phase), e)
    requires (e.Elapse? && now' == now + e.dt && phase' == phase)
          || (e == RenewReturns(0, true) && now' == now && phase.reply.Some?
              && phase' == AfterRenewal(cfg, now, phase.retry, phase.reply))
          || (e == RenewReturns(0, false) && now' == now && phase' == AfterRenewal(cfg, now, phase.retry, None))
          || (e == Wake(0) && now' == now && phase' == Renewing(now, if phase.Napping? then 0 else phase.retry, None)
              && (phase.BackingOff? ==> phase.retry < MAX_RETRY))
    ensures Reachable(cfg, n, Holding(cfg, n, now', phase'))
  {
    var s := Extend(cfg, n, Holding(cfg, n, now, phase), e);
    assert s.clients == Holding(cfg, n, now', phase').clients;
    assert s.issued == Holding(cfg, n, now', phase').issued;
  }

  lemma SlowFailure(cfg: Config, n: nat, t: real, retry: nat)
    requires ValidConfig(cfg) && 0 < n && retry < MAX_RETRY
    requires Reachable(cfg, n, Holding(cfg, n, t, Renewing(t, retry, None)))
    ensures Reachable(cfg, n, Holding(cfg, n, t + Round(cfg), BackingOff(t + cfg.maxDelay + RETRY_PAUSE, retry + 1)))
    ensures retry + 1 < MAX_RETRY ==>
              Reachable(cfg, n, Holding(cfg, n, t + Round(cfg), Renewing(t + Round(cfg), retry + 1, None)))
  {
    var failed := t + cfg.maxDelay;
    var pause := BackingOff(failed + RETRY_PAUSE, retry + 1);
    HoldingStep(cfg, n, t, Renewing(t, retry, None), Elapse(cfg.maxDelay), failed, Renewing(t, retry, None));
    HoldingStep(cfg, n, failed, Renewing(t, retry, None), RenewReturns(0, false), failed, pause);
    HoldingStep(cfg, n, failed, pause, Elapse(RETRY_PAUSE + cfg.maxOversleep), t + Round(cfg), pause);
    if retry + 1 < MAX_RETRY {
      HoldingStep(cfg, n, t + Round(cfg), pause, Wake(0), t + Round(cfg), Renewing(t + Round(cfg), retry + 1, None));
    }
  }

  lemma SlowRenewal(cfg: Config, n: nat) returns (t: real)
    requires ValidConfig(cfg) && 0 < n
    ensures t == (cfg.ttl / 2) as real + cfg.maxDelay + cfg.maxOversleep
    ensures Reachable(cfg, n, Holding(cfg, n, t, Renewing(t, 0, None)))
  {
    HoldingReachable(cfg, n);
    var answered := Renewing(0.0, 0, Some(cfg.ttl));
    var nap := Napping(cfg.maxDelay + (cfg.ttl / 2) as real);
    HoldingStep(cfg, n, 0.0, answered, Elapse(cfg.maxDelay), cfg.maxDelay, answered);
    HoldingStep(cfg, n, cfg.maxDelay, answered, RenewReturns(0, true), cfg.maxDelay, nap);
    t := nap.until + cfg.maxOversleep;
    HoldingStep(cfg, n, cfg.maxDelay, nap, Elapse((cfg.ttl / 2) as real + cfg.maxOversleep), t, nap);
    HoldingStep(cfg, n, t, nap, Wake(0), t, Renewing(t, 0, None));
  }

  lemma {:induction false} SlowFailures(cfg: Config, n: nat, t: real, k: nat)
    requires ValidConfig(cfg) && 0 < n && k < MAX_RETRY
    requires Reachable(cfg, n, Holding(cfg, n, t, Renewing(t, 0, None)))
    ensures Reachable(cfg, n, Holding(cfg, n, t + Rounds(cfg, k), Renewing(t + Rounds(cfg, k), k, None)))
  {
    if k > 0 {
      SlowFailures(cfg, n, t, k - 1);
      SlowFailure(cfg, n, t + Rounds(cfg, k - 1), k - 1);
      assert t + Rounds(cfg, k - 1) + Round(cfg) == t + Rounds(cfg, k);
    } else {
      assert t + Rounds(cfg, 0) == t;
    }
  }

  /** The slowest holder: one renewal whose reply takes `maxDelay`, a full sleep, then
      `MAX_RETRY` slow failures, not yet noticed. */
  lemma SlowestHolder(cfg: Config, n: nat) returns (t: real)
    requires ValidConfig(cfg) && 0 < n
    ensures t == (cfg.ttl / 2) as real + 5.0 * RETRY_PAUSE + 6.0 * (cfg.maxDelay + cfg.maxOversleep)
    ensures Reachable(cfg, n, Holding(cfg, n, t, BackingOff(t - cfg.maxOversleep, MAX_RETRY)))
  {
    var t0 := SlowRenewal(cfg, n);
    SlowFailures(cfg, n, t0, MAX_RETRY - 1);
    var t1 := t0 + Rounds(cfg, MAX_RETRY - 1);
    SlowFailure(cfg, n, t1, MAX_RETRY - 1);
    t := t1 + Round(cfg);
    FiveRounds(cfg);
    assert t - cfg.maxOversleep == t1 + cfg.maxDelay + RETRY_PAUSE;
  }

  /** Once timing is not safe, a second client can acquire the lock while the first still
      believes it holds it. */
  lemma TwoLeaders(cfg: Config, n: nat) returns (s: State)
    requires ValidConfig(cfg) && !SafeTiming(cfg) && 2 <= n
    ensures Reachable(cfg, n, s) && |s.clients| == n && Locked(s, 0) && Locked(s, 1)
  {
    var t := SlowestHolder(cfg, n);
    s := Holding(cfg, n, t, BackingOff(t - cfg.maxOversleep, MAX_RETRY));
    s := Extend(cfg, n, s, ExpireLease(1));
    s := UncontestedAcquire(cfg, n, s, 1);
  }

  /** Mutual exclusion holds in every run exactly when the timing is safe. */
  lemma ExclusionIffSafeTiming(cfg: Config, n: nat)
    requires ValidConfig(cfg) && 2 <= n
    ensures (forall s :: Reachable(cfg, n, s) ==> Exclusive(s)) <==> SafeTiming(cfg)
  {
    if SafeTiming(cfg) {
      forall s | Reachable(cfg, n, s) ensures Exclusive(s) { MutualExclusion(cfg, n, s); }
    } else {
      var s := TwoLeaders(cfg, n);
      assert !Exclusive(s);
    }
  }

  /** With the shipped 20 s lease, the condition is 6 * (delay + oversleep) < 5 s. The call
      timeouts the code sets itself are not enough: 5 s for a transaction, and the whole
      lease TTL for a keep-alive. */
  lemma ShippedConstants(maxDelay: real, maxOversleep: real)
    requires 0.0 <= maxDelay && 0.0 <= maxOversleep
    ensures SafeTiming(Config(ETCD_LEASE_TTL, maxDelay, maxOversleep)) <==> 6.0 * (maxDelay + maxOversleep) < 5.0
    ensures !SafeTiming(Config(ETCD_LEASE_TTL, CONTEXT_TIMEOUT_SECONDS, maxOversleep))
  {
  }
}
