/** The lock protocol and the role callbacks as one system: the calls of the lock code drive
    the callbacks, and the watch thread reads the key of the same server. */
module SingleLeader {
  import opened Basics
  import opened Etcd
  import opened LeaseLock
  import LeaseLockSafety
  import Role = LeaderRole

  datatype System = System(lock: LeaseLock.State, roles: seq<Role.View>)

  /** A step of the lock protocol, where `campaign` says whether the attempt it may end was
      started by a campaign or by the watch thread; a watch tick of a client that is locked;
      or a campaign of one. */
  datatype Event = Lock(e: LeaseLock.Event, campaign: bool) | Watch(c: ClientId) | Campaign(c: ClientId)

  function Init(n: nat): System {
    System(LeaseLock.Init(n), seq(n, _ => Role.INITIAL))
  }

  predicate Enabled(cfg: Config, s: System, e: Event) {
    match e
    case Lock(l, _) => LeaseLock.Enabled(cfg, s.lock, l)
    case Watch(c) => c < |s.lock.clients| && Locked(s.lock, c)
    case Campaign(c) => c < |s.lock.clients| && Locked(s.lock, c)
  }

  /** How an attempt to acquire ends for the role. */
  function Attempted(v: Role.View, campaign: bool, acquired: bool): Role.View {
    Role.Step(v, if campaign then Role.Campaign(acquired) else Role.WatchTick(false, acquired))
  }

  /** The callbacks that one step of the lock protocol triggers in one client. */
  function RoleStep(cfg: Config, s: LeaseLock.State, e: LeaseLock.Event, campaign: bool, c: ClientId, v: Role.View): Role.View
    requires 2 <= cfg.ttl && LeaseLock.Enabled(cfg, s, e) && c < |s.clients|
  {
    match e
    case GrantReturns(d, delivered) => if d == c && !delivered then Attempted(v, campaign, false) else v
    case LockReturns(d, delivered) =>
      if d == c then Attempted(v, campaign, delivered && s.clients[c].phase.verdict.value) else v
    case Wake(d) =>
      if d == c && !AfterSleep(s.now, s.clients[c]).isLocked then Role.Step(v, Role.LeaseLost) else v
    case _ => v
  }

  function Step(cfg: Config, s: System, e: Event): System
    requires 2 <= cfg.ttl && Enabled(cfg, s, e) && |s.roles| == |s.lock.clients|
  {
    match e
    case Lock(l, campaign) =>
      System(LeaseLock.Step(cfg, s.lock, l),
            seq(|s.roles|, c requires 0 <= c < |s.roles| => RoleStep(cfg, s.lock, l, campaign, c, s.roles[c])))
    case Watch(c) =>
      s.(roles := s.roles[c := Role.Step(s.roles[c], Role.WatchTick(LOCK_KEY in s.lock.server.kvs, false))])
    case Campaign(c) => s.(roles := s.roles[c := Role.Step(s.roles[c], Role.Campaign(false))])
  }

  function Run(cfg: Config, s: System, events: seq<Event>): Option<System>
    requires 2 <= cfg.ttl && |s.roles| == |s.lock.clients|
    decreases |events|
  {
    if events == [] then Some(s)
    else if Enabled(cfg, s, events[0]) then
      StepKeepsSize(cfg, s, events[0]);
      Run(cfg, Step(cfg, s, events[0]), events[1..])
    else None
  }

  lemma StepKeepsSize(cfg: Config, s: System, e: Event)
    requires 2 <= cfg.ttl && Enabled(cfg, s, e) && |s.roles| == |s.lock.clients|
    ensures |Step(cfg, s, e).roles| == |Step(cfg, s, e).lock.clients| == |s.roles|
  {
  }

  // ----- what every run keeps ---------------------------------------------------------------------------------

  /** Lock and role agree on the lock flag, the controller's flag mirrors leadership, and the
      client leads exactly while it is locked. */
  ghost predicate Agrees(v: Role.View, client: Client) {
    v.isLocked == client.isLocked && v.leaderFlag == v.isLeader && v.isLeader == v.isLocked
  }

  ghost predicate Inv(cfg: Config, s: System) {
    && LeaseLock.Inv(cfg, s.lock) && |s.roles| == |s.lock.clients|
    && forall c | 0 <= c < |s.roles| :: Agrees(s.roles[c], s.lock.clients[c])
  }

  lemma LockStepKeepsAgreement(cfg: Config, s: System, e: LeaseLock.Event, campaign: bool, c: ClientId)
    requires ValidConfig(cfg) && Inv(cfg, s) && LeaseLock.Enabled(cfg, s.lock, e) && c < |s.roles|
    ensures var next := LeaseLock.Step(cfg, s.lock, e);
            |next.clients| == |s.roles| && Agrees(RoleStep(cfg, s.lock, e, campaign, c, s.roles[c]), next.clients[c])
  {
    assert Agrees(s.roles[c], s.lock.clients[c]);
    assert ClientInv(cfg, s.lock.now, s.lock.server, c, s.lock.clients[c]);
  }

  /** A locked client's key is on the server, so that its watch tick does not demote it. */
  lemma StepKeepsInv(cfg: Config, s: System, e: Event)
    requires ValidConfig(cfg) && SafeTiming(cfg) && Inv(cfg, s) && Enabled(cfg, s, e)
    ensures Inv(cfg, Step(cfg, s, e))
  {
    match e
    case Lock(l, campaign) =>
      LeaseLockSafety.StepKeepsInv(cfg, s.lock, l);
      forall c | 0 <= c < |s.roles|
        ensures Agrees(Step(cfg, s, e).roles[c], Step(cfg, s, e).lock.clients[c])
      {
        LockStepKeepsAgreement(cfg, s, l, campaign, c);
      }
    case Watch(c) => assert ClientInv(cfg, s.lock.now, s.lock.server, c, s.lock.clients[c]);
    case Campaign(c) => assert Agrees(s.roles[c], s.lock.clients[c]);
  }

  lemma {:induction false} RunKeepsInv(cfg: Config, s: System, events: seq<Event>)
    requires ValidConfig(cfg) && SafeTiming(cfg) && Inv(cfg, s)
    ensures Run(cfg, s, events).Some? ==> Inv(cfg, Run(cfg, s, events).value)
    decreases |events|
  {
    if events != [] && Enabled(cfg, s, events[0]) {
      StepKeepsInv(cfg, s, events[0]);
      RunKeepsInv(cfg, Step(cfg, s, events[0]), events[1..]);
    }
  }

  /** Under safe timing, over every run of any number of clients: a client leads exactly while
      it is locked, at most one has its leader flag up, and that one owns the key on the
      server. */
  lemma AtMostOneLeader(cfg: Config, n: nat, events: seq<Event>)
    requires ValidConfig(cfg) && SafeTiming(cfg) && Run(cfg, Init(n), events).Some?
    ensures var s := Run(cfg, Init(n), events).value;
            && |s.roles| == |s.lock.clients|
            && (forall c | 0 <= c < |s.roles| :: s.roles[c].leaderFlag <==> Locked(s.lock, c))
            && (forall c, d | 0 <= c < d < |s.roles| :: !(s.roles[c].leaderFlag && s.roles[d].leaderFlag))
            && (forall c | 0 <= c < |s.roles| && s.roles[c].leaderFlag ::
                  Holds(s.lock.server, c, s.lock.clients[c].leaseId))
  {
    assert Inv(cfg, Init(n)) by {
      LeaseLockSafety.RunKeepsInv(cfg, LeaseLock.Init(n), []);
    }
    RunKeepsInv(cfg, Init(n), events);
    var s := Run(cfg, Init(n), events).value;
    forall c | 0 <= c < |s.roles|
      ensures s.roles[c].leaderFlag <==> Locked(s.lock, c)
      ensures s.roles[c].leaderFlag ==> Holds(s.lock.server, c, s.lock.clients[c].leaseId)
    {
      assert Agrees(s.roles[c], s.lock.clients[c]);
      assert ClientInv(cfg, s.lock.now, s.lock.server, c, s.lock.clients[c]);
    }
  }
}
