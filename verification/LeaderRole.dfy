/** Leadership on top of the lock: how `EtcdDistributedLock` notifies `LeaderAgent`, and
    what the controller's leader flag and role-change notices are over a whole run.
    Each handler is one atomic step. */
module LeaderRole {
  datatype Notice = Slave2Master | Master2Slave | FailoverEvent

  datatype View = View(isLocked: bool, isLeader: bool, hasSetRole: bool, leaderFlag: bool, notices: seq<Notice>)

  const INITIAL := View(false, false, false, false, [])

  function Promote(v: View): View {
    if v.isLeader then v
    else v.(isLeader := true, leaderFlag := true, hasSetRole := true,
            notices := v.notices + [Slave2Master] + if v.hasSetRole then [FailoverEvent] else [])
  }

  function Demote(v: View): View {
    if !v.isLeader then v.(hasSetRole := true)
    else v.(isLeader := false, leaderFlag := false, hasSetRole := true, notices := v.notices + [Master2Slave])
  }

  /** The callback registered by `LeaderAgent::Start`. */
  function Notify(v: View, locked: bool): View {
    if locked && !v.isLeader then Promote(v) else if !locked && v.isLeader then Demote(v) else v
  }

  function LockChange(v: View, locked: bool): View {
    if v.isLocked == locked then v else Notify(v.(isLocked := locked), locked)
  }

  /** `acquired` is what the acquire attempt inside the handler would answer, and
      `keyPresent` what the watch thread's range read answers. */
  datatype Event = Campaign(acquired: bool) | WatchTick(keyPresent: bool, acquired: bool) | LeaseLost

  function Step(v: View, e: Event): View {
    match e
    case Campaign(acquired) =>
      if v.isLeader then v
      else
        var w := if v.isLocked then v else LockChange(v, acquired);
        if w.isLocked then Promote(w) else Demote(w)
    case WatchTick(keyPresent, acquired) =>
      if keyPresent then v
      else if !v.isLocked then LockChange(v, acquired)
      else Notify(v, false)
    case LeaseLost =>
      if v.isLocked then Notify(v.(isLocked := false), false) else v
  }

  function Run(v: View, events: seq<Event>): View
    decreases |events|
  {
    if events == [] then v else Run(Step(v, events[0]), events[1..])
  }

  // ----- the objects -----------------------------------------------------------------------

  class LeaderAgent {
    var isLeader: bool
    var mHasSetRole: bool
    var leaderFlag: bool        // ControllerConfig's leader flag
    var notices: seq<Notice>

    constructor ()
      ensures !isLeader && !mHasSetRole && !leaderFlag && notices == []
    {
      isLeader, mHasSetRole, leaderFlag, notices := false, false, false, [];
    }

    ghost function Seen(isLocked: bool): View
      reads this
    {
      View(isLocked, isLeader, mHasSetRole, leaderFlag, notices)
    }

    method PromoteToLeader()
      modifies this
      ensures forall locked :: Seen(locked) == Promote(old(Seen(locked)))
    {
      var wasLeader := isLeader;
      isLeader := true;
      if wasLeader { return; }
      leaderFlag := true;
      notices := notices + [Slave2Master];
      if mHasSetRole {
        notices := notices + [FailoverEvent];
      }
      mHasSetRole := true;
    }

    method DemoteToFollower()
      modifies this
      ensures forall locked :: Seen(locked) == Demote(old(Seen(locked)))
    {
      mHasSetRole := true;
      var wasLeader := isLeader;
      isLeader := false;
      if !wasLeader { return; }
      leaderFlag := false;
      notices := notices + [Master2Slave];
    }

    method OnLockChange(locked: bool)
      modifies this
      ensures forall l :: Seen(l) == Notify(old(Seen(l)), locked)
    {
      if locked && !isLeader {
        PromoteToLeader();
      } else if !locked && isLeader {
        DemoteToFollower();
      }
    }
  }

  class EtcdDistributedLock {
    var isLocked: bool
    const agent: LeaderAgent

    constructor (agent: LeaderAgent)
      ensures this.agent == agent && !isLocked
    {
      this.agent := agent;
      isLocked := false;
    }

    ghost function Seen(): View
      reads this, agent
    {
      agent.Seen(isLocked)
    }

    method HandleLockChange(newLockState: bool)
      modifies this, agent
      ensures Seen() == LockChange(old(Seen()), newLockState)
    {
      var oldState := isLocked;
      isLocked := newLockState;
      if oldState == newLockState { return; }
      agent.OnLockChange(newLockState);
    }

    /** `AcquireLockOnce` succeeds outright when the lock is already held. */
    method TryLockOnce(acquired: bool) returns (ok: bool)
      modifies this, agent
      ensures ok == (old(isLocked) || acquired) && isLocked == ok
      ensures Seen() == LockChange(old(Seen()), ok)
    {
      ok := isLocked || acquired;
      HandleLockChange(ok);
    }

    method TryLock(acquired: bool) returns (ok: bool)
      modifies this, agent
      ensures ok == (old(isLocked) || acquired) && isLocked == ok
      ensures Seen() == if old(isLocked) then old(Seen()) else LockChange(old(Seen()), acquired)
    {
      if isLocked { return true; }
      ok := TryLockOnce(acquired);
    }

    /** `LeaderAgent::Campaign`. */
    method RunCampaign(acquired: bool)
      modifies this, agent
      ensures Seen() == Step(old(Seen()), Campaign(acquired))
    {
      if agent.isLeader { return; }
      var ok := TryLock(acquired);
      if ok { agent.PromoteToLeader(); } else { agent.DemoteToFollower(); }
    }

    method WatchOnce(keyPresent: bool, acquired: bool)
      modifies this, agent
      ensures Seen() == Step(old(Seen()), WatchTick(keyPresent, acquired))
    {
      if keyPresent { return; }
      if !isLocked {
        var _ := TryLockOnce(acquired);
      } else {
        agent.OnLockChange(false);
      }
    }

    method HandleLeaseLost()
      modifies this, agent
      ensures Seen() == Step(old(Seen()), LeaseLost)
    {
      var wasLocked := isLocked;
      isLocked := false;
      if wasLocked { agent.OnLockChange(false); }
    }
  }

  // ----- what every run keeps ----------------------------------------------------------------

  /** `silent` says that the very first role setting was a promotion. */
  ghost predicate RoleInv(v: View, silent: bool) {
    && (v.isLeader ==> v.isLocked)
    && v.leaderFlag == v.isLeader
    && (v.isLeader <==> v.notices != [] && v.notices[|v.notices| - 1] != Master2Slave)
    && Alternating(v.notices)
    && Announced(v.notices, silent)
    && (silent ==> v.notices != [])
  }

  /** Between two promotions there is a demotion and vice versa, starting with a promotion. */
  ghost predicate Alternating(notices: seq<Notice>) {
    && (forall i | 0 <= i < |notices| :: notices[i] == Master2Slave ==> 0 < i && notices[i - 1] != Master2Slave)
    && (forall i | 0 <= i < |notices| :: notices[i] == Slave2Master ==> i == 0 || notices[i - 1] == Master2Slave)
  }

  predicate EventFollows(notices: seq<Notice>, i: nat) {
    i + 1 < |notices| && notices[i + 1] == FailoverEvent
  }

  /** A failover event directly follows each promotion, other than a silent first one, and
      appears nowhere else. */
  ghost predicate Announced(notices: seq<Notice>, silent: bool) {
    && (forall i | 0 <= i < |notices| :: notices[i] == FailoverEvent ==> 0 < i && notices[i - 1] == Slave2Master)
    && (forall i | 0 <= i < |notices| :: notices[i] == Slave2Master ==> (EventFollows(notices, i) <==> !(i == 0 && silent)))
  }

  /** A promotion, with its event, after a demotion or at the start. */
  lemma AppendPromotion(notices: seq<Notice>, silent: bool)
    requires Alternating(notices) && Announced(notices, silent) && (silent ==> notices != [])
    requires notices == [] || notices[|notices| - 1] == Master2Slave
    ensures var all := notices + [Slave2Master] + [FailoverEvent]; Alternating(all) && Announced(all, silent)
  {
    var n, all := |notices|, notices + [Slave2Master] + [FailoverEvent];
    assert all[..n] == notices && all[n] == Slave2Master && all[n + 1] == FailoverEvent;
    forall i | 0 <= i < |all| && all[i] == Slave2Master ensures EventFollows(all, i) <==> !(i == 0 && silent) {
      if i < n {
        assert notices[i] == Slave2Master;
        assert EventFollows(all, i) <==> EventFollows(notices, i);
      }
    }
  }

  /** A demotion after a promotion. */
  lemma AppendDemotion(notices: seq<Notice>, silent: bool)
    requires Alternating(notices) && Announced(notices, silent)
    requires notices != [] && notices[|notices| - 1] != Master2Slave
    ensures var all := notices + [Master2Slave]; Alternating(all) && Announced(all, silent)
  {
    var n, all := |notices|, notices + [Master2Slave];
    assert all[..n] == notices && all[n] == Master2Slave;
    forall i | 0 <= i < |all| && all[i] == Slave2Master ensures EventFollows(all, i) <==> !(i == 0 && silent) {
      assert notices[i] == Slave2Master;
      assert EventFollows(all, i) <==> EventFollows(notices, i);
    }
  }

  lemma PromoteKeepsRoleInv(v: View, silent: bool)
    requires RoleInv(v, silent) && v.hasSetRole && v.isLocked
    ensures RoleInv(Promote(v), silent)
  {
    if !v.isLeader { AppendPromotion(v.notices, silent); }
  }

  /** Demotion may come after the lock flag is already down. */
  lemma DemoteKeepsRoleInv(v: View, w: View, silent: bool)
    requires RoleInv(v, silent) && v.hasSetRole && (w == v || w == v.(isLocked := false))
    ensures RoleInv(Demote(w), silent)
  {
    if v.isLeader { AppendDemotion(v.notices, silent); }
  }

  lemma StepKeepsRoleInv(v: View, e: Event, silent: bool)
    requires RoleInv(v, silent) && v.hasSetRole
    ensures RoleInv(Step(v, e), silent) && Step(v, e).hasSetRole
  {
    PromoteKeepsRoleInv(v.(isLocked := true), silent);
    DemoteKeepsRoleInv(v, v, silent);
    DemoteKeepsRoleInv(v, v.(isLocked := false), silent);
  }

  lemma {:induction false} RunKeepsRoleInv(v: View, events: seq<Event>, silent: bool)
    requires RoleInv(v, silent) && v.hasSetRole
    ensures RoleInv(Run(v, events), silent)
    decreases |events|
  {
    if events != [] {
      StepKeepsRoleInv(v, events[0], silent);
      RunKeepsRoleInv(Step(v, events[0]), events[1..], silent);
    }
  }

  /** Every run, which `Start` opens with a campaign: a leader holds the lock, the
      controller's flag mirrors leadership, promotions and demotions alternate, and every
      promotion but one won by the opening campaign is announced as a failover. */
  lemma LeadershipOverEveryRun(acquired: bool, events: seq<Event>)
    ensures RoleInv(Run(INITIAL, [Campaign(acquired)] + events), acquired)
  {
    var v := Step(INITIAL, Campaign(acquired));
    assert ([Campaign(acquired)] + events)[1..] == events;
    RunKeepsRoleInv(v, events, acquired);
  }

  /** Who is locked and who leads after one more step of such a run, whatever came before. In
      particular a client that gets the free lock leads at once, by campaign or by watch. */
  lemma LeadsNextIff(acquired: bool, events: seq<Event>, e: Event)
    ensures var v := Run(INITIAL, [Campaign(acquired)] + events);
            && Step(v, e).isLocked == (match e
                 case Campaign(won) => v.isLocked || won
                 case WatchTick(keyPresent, won) => if keyPresent || v.isLocked then v.isLocked else won
                 case LeaseLost => false)
            && Step(v, e).isLeader == (match e
                 case Campaign(won) => v.isLocked || won
                 case WatchTick(keyPresent, won) => if keyPresent then v.isLeader else !v.isLocked && won
                 case LeaseLost => false)
  {
    LeadershipOverEveryRun(acquired, events);
  }

  /** The converse of the first clause fails: a watch tick that finds the key gone demotes
      a client that still counts as locked, and no later tick promotes it again while it does. */
  lemma LockedFollower(events: seq<Event>)
    requires forall e | e in events :: e.WatchTick?
    ensures var v := Run(INITIAL, [Campaign(true), WatchTick(false, false)] + events);
            v.isLocked && !v.isLeader
  {
    var v := Step(Step(INITIAL, Campaign(true)), WatchTick(false, false));
    var all := [Campaign(true), WatchTick(false, false)] + events;
    assert all[1..][1..] == events;
    assert Run(INITIAL, all) == Run(v, events);
    StaysLockedFollower(v, events);
  }

  lemma {:induction false} StaysLockedFollower(v: View, events: seq<Event>)
    requires v.isLocked && !v.isLeader
    requires forall e | e in events :: e.WatchTick?
    ensures Run(v, events).isLocked && !Run(v, events).isLeader
    decreases |events|
  {
    if events != [] {
      assert events[0] in events;
      StaysLockedFollower(Step(v, events[0]), events[1..]);
    }
  }

  /** Every state along the run has the lock only together with leadership. */
  ghost predicate LeadsWhileLocked(v: View, events: seq<Event>) {
    forall k | 0 <= k <= |events| :: Run(v, events[..k]).isLocked ==> Run(v, events[..k]).isLeader
  }

  /** No watch tick finds the key gone while the client counts as locked. */
  ghost predicate KeyStaysWhileLocked(v: View, events: seq<Event>) {
    forall k | 0 <= k < |events| :: LosesKey(events[k]) ==> !Run(v, events[..k]).isLocked
  }

  predicate LosesKey(e: Event) {
    e.WatchTick? && !e.keyPresent
  }

  lemma {:induction false} RunStep(v: View, events: seq<Event>, k: nat)
    requires k < |events|
    ensures Run(v, events[..k + 1]) == Step(Run(v, events[..k]), events[k])
    decreases k
  {
    assert events[..k + 1][1..] == events[1..][..k];
    if k > 0 {
      assert events[..k][1..] == events[1..][..k - 1] && events[..k][0] == events[..k + 1][0];
      RunStep(Step(v, events[0]), events[1..], k - 1);
    }
  }

  /** One step from a state where locked implies leader keeps it so exactly when it is not such
      a tick on a locked client. */
  lemma LeadsStepIff(v: View, e: Event)
    requires v.isLocked ==> v.isLeader
    ensures (Step(v, e).isLocked ==> Step(v, e).isLeader) <==> !(LosesKey(e) && v.isLocked)
  {
  }

  /** So locked implies leader all along a run if and only if no watch tick finds the key gone
      while the client is locked. */
  lemma {:induction false} LockedImpliesLeaderIff(events: seq<Event>)
    ensures LeadsWhileLocked(INITIAL, events) <==> KeyStaysWhileLocked(INITIAL, events)
  {
    if LeadsWhileLocked(INITIAL, events) {
      forall k | 0 <= k < |events| && LosesKey(events[k]) ensures !Run(INITIAL, events[..k]).isLocked {
        RunStep(INITIAL, events, k);
        LeadsStepIff(Run(INITIAL, events[..k]), events[k]);
      }
    }
    if KeyStaysWhileLocked(INITIAL, events) {
      forall k | 0 <= k <= |events| ensures Run(INITIAL, events[..k]).isLocked ==> Run(INITIAL, events[..k]).isLeader {
        LeadsUpTo(events, k);
      }
    }
  }

  lemma {:induction false} LeadsUpTo(events: seq<Event>, k: nat)
    requires KeyStaysWhileLocked(INITIAL, events) && k <= |events|
    ensures Run(INITIAL, events[..k]).isLocked ==> Run(INITIAL, events[..k]).isLeader
  {
    if k > 0 {
      LeadsUpTo(events, k - 1);
      RunStep(INITIAL, events, k - 1);
      LeadsStepIff(Run(INITIAL, events[..k - 1]), events[k - 1]);
    }
  }
}
