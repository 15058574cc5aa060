/** The keep-alive thread of `EtcdDistributedLock` in its own, imperative form, tied to
    the client transitions that the timed model of the lock is built from. */
module KeepAliveWorker {
  import opened Basics
  import opened Etcd
  import opened LeaseLock
  import LeaderRole

  /** What the environment does to one pass of the loop: how long the keep-alive call
      takes, the TTL it delivers if any, and how late the following sleep ends. */
  datatype Outcome = Outcome(delay: real, reply: Option<int>, oversleep: real)

  /** The worker as a chain of the lock model's own client transitions. An exhausted
      script stands for `running_` being cleared. */
  function WorkerRun(cfg: Config, now: real, client: Client, script: seq<Outcome>): (Client, real)
    requires 2 <= cfg.ttl && client.phase.Renewing?
    decreases |script|
  {
    if script == [] then (client.(isLocked := false, phase := Idle), now)
    else
      var asleep := AfterRenewal(cfg, now + script[0].delay, client.phase.retry, script[0].reply);
      var woken := asleep.until + script[0].oversleep;
      var next := AfterSleep(woken, client.(phase := asleep));
      if next.phase.Idle? then (next, woken) else WorkerRun(cfg, woken, next, script[1..])
  }

  /** `TryRenewLease`: the reply counts only when delivered and positive. */
  method TryRenewLease(outcome: Outcome, clock: real, ttl: int) returns (renewed: bool, now: real, newTtl: int)
    ensures now == clock + outcome.delay
    ensures renewed <==> outcome.reply.Some? && 0 < outcome.reply.value
    ensures newTtl == if renewed then outcome.reply.value else ttl
  {
    now := clock + outcome.delay;
    renewed := false;
    newTtl := ttl;
    if outcome.reply.Some? && 0 < outcome.reply.value {
      renewed := true;
      newTtl := outcome.reply.value;
    }
  }

  /** The loop ends in the client state, and at the time, that the lock model's transitions
      reach on the same outcomes, and then tells the leader agent that the lease is lost. */
  method LeaseKeepAliveWorker(lock: LeaderRole.EtcdDistributedLock, cfg: Config, leaseId: LeaseId, clock: real,
                              script: seq<Outcome>)
    returns (now: real)
    requires 2 <= cfg.ttl
    modifies lock, lock.agent
    ensures (Client(lock.isLocked, leaseId, Idle), now) ==
            WorkerRun(cfg, clock, Client(old(lock.isLocked), leaseId, Renewing(clock, 0, None)), script)
    ensures lock.Seen() == LeaderRole.Step(old(lock.Seen()), LeaderRole.LeaseLost)
  {
    var retryCount: nat := 0;
    var ttl := 0;
    var i := 0;
    now := clock;
    while i < |script| && retryCount < MAX_RETRY
      invariant 0 <= i <= |script| && retryCount <= MAX_RETRY && unchanged(lock, lock.agent)
      invariant WorkerRun(cfg, clock, Client(lock.isLocked, leaseId, Renewing(clock, 0, None)), script) ==
                if retryCount < MAX_RETRY
                then WorkerRun(cfg, now, Client(lock.isLocked, leaseId, Renewing(now, retryCount, None)), script[i..])
                else (Client(false, leaseId, Idle), now)
      decreases |script| - i
    {
      assert script[i..][1..] == script[i + 1..];
      var renewed;
      renewed, now, ttl := TryRenewLease(script[i], now, ttl);
      if !renewed {
        retryCount := retryCount + 1;
        now := now + RETRY_PAUSE + script[i].oversleep;
      } else {
        retryCount := 0;
        now := now + CalculateSleepTime(cfg, ttl) as real + script[i].oversleep;
      }
      i := i + 1;
    }
    lock.HandleLeaseLost();
  }

  /** The remaining attempts of a worker that gets no usable reply any more are exhausted
      no later than the bound used by the mutual-exclusion argument, and then the lock is
      given up. */
  lemma {:induction false} SilentServerMeansStepDown(cfg: Config, now: real, client: Client, script: seq<Outcome>)
    requires ValidConfig(cfg) && client.phase.Renewing? && client.phase.retry < MAX_RETRY && client.phase.start == now
    requires |script| >= MAX_RETRY - client.phase.retry
    requires forall o | o in script ::
               && 0.0 <= o.delay <= cfg.maxDelay && 0.0 <= o.oversleep <= cfg.maxOversleep
               && (o.reply.Some? ==> o.reply.value <= 0)
    ensures !WorkerRun(cfg, now, client, script).0.isLocked
    ensures now <= WorkerRun(cfg, now, client, script).1 <= StepDownBound(cfg, client.phase)
    decreases |script|
  {
    assert script[0] in script;
    if client.phase.retry + 1 < MAX_RETRY {
      var asleep := AfterRenewal(cfg, now + script[0].delay, client.phase.retry, script[0].reply);
      var woken := asleep.until + script[0].oversleep;
      assert forall o | o in script[1..] :: o in script;
      SilentServerMeansStepDown(cfg, woken, AfterSleep(woken, client.(phase := asleep)), script[1..]);
    } else {
      assert Rounds(cfg, 1) == Round(cfg);
    }
  }
}
