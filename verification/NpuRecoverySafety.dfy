/** What the recovery protocol keeps over every run of its handlers. */
module NpuRecoverySafety {
  import opened NpuRecovery

  datatype Event =
    | Alarm(instance: Instance, alarm: EngineAlarm, acks: Acks, now: nat)
    | Faults(faults: seq<Fault>)
    | Restart(instances: seq<Instance>, acks: Acks)
    | Abort(instance: Instance, acks: Acks)
    | Roce(instance: Instance, relinked: bool, acks: Acks)
    | Poll(now: nat, ready: set<Pod>, members: map<InstanceId, set<NodeId>>, acks: Acks)

  function Next(s: State, e: Event): State {
    match e
    case Alarm(instance, alarm, acks, now) => ProcessLLMEngineAlarm(s, instance, alarm, acks, now)
    case Faults(faults) => ProcessInstanceFaults(s, faults)
    case Restart(instances, acks) => RestartInstance(s, instances, acks)
    case Abort(instance, acks) => AbortInstanceRecovery(s, instance, acks)
    case Roce(instance, relinked, acks) => ProcessRoCERecovery(s, instance, relinked, acks)
    case Poll(now, ready, members, acks) => Tick(s, now, ready, members, acks)
  }

  function Run(s: State, events: seq<Event>): State {
    if events == [] then s else Next(Run(s, events[..|events| - 1]), events[|events| - 1])
  }

  // ----- the invariant -----------------------------------------------------------------------------------------------

  predicate IsQuiet(e: Entry) {
    e.AlarmRaised? || e.FaultReported? || (e.Sent? && e.command == StopEngine)
  }

  /** PAUSE_ENGINE and then REINIT_NPU went to exactly these pods, all acknowledged, and
      since then nothing but reports and STOP_ENGINE concerned the instance. */
  predicate PreparedAt(h: seq<Entry>, pods: set<Pod>, k: nat) {
    && k + 1 < |h|
    && h[k] == Sent(PauseEngine, pods, true) && h[k + 1] == Sent(ReinitNpu, pods, true)
    && forall j | k + 2 <= j < |h| :: IsQuiet(h[j])
  }

  predicate Prepared(h: seq<Entry>, pods: set<Pod>) {
    pods != {} && exists k | 0 <= k < |h| :: PreparedAt(h, pods, k)
  }

  /** Alarms for recoverable codes since the instance last left the queue. */
  function OpenAlarms(h: seq<Entry>): nat {
    if h == [] then 0
    else
      match h[|h| - 1]
      case AlarmRaised => OpenAlarms(h[..|h| - 1]) + 1
      case Left => 0
      case _ => OpenAlarms(h[..|h| - 1])
  }

  /** At no point was more than one alarm open. */
  predicate OneAlarmPerEpisode(h: seq<Entry>) {
    h == [] || (OpenAlarms(h) <= 1 && OneAlarmPerEpisode(h[..|h| - 1]))
  }

  predicate InstanceOk(s: State, i: InstanceId) {
    && (i in s.queue ==> Prepared(History(s, i), s.queue[i].pods))
    && (i in s.alarms ==> i in s.queue)
    && OneAlarmPerEpisode(History(s, i))
    && (OpenAlarms(History(s, i)) > 0 ==> i in s.alarms)
  }

  ghost predicate Inv(s: State) {
    && (s.queue != map[] ==> s.polling)
    && forall i :: InstanceOk(s, i)
  }

  // ----- one instance at a time --------------------------------------------------------------------------------------

  predicate SameFor(s: State, t: State, i: InstanceId) {
    && (i in s.queue <==> i in t.queue) && (i in s.queue ==> s.queue[i] == t.queue[i])
    && (i in s.alarms <==> i in t.alarms) && History(s, i) == History(t, i)
  }

  lemma OneMoreEntry(h: seq<Entry>, e: Entry)
    requires OneAlarmPerEpisode(h)
    ensures OpenAlarms(h) <= 1
    ensures OpenAlarms(h + [e]) == (if e.AlarmRaised? then OpenAlarms(h) + 1 else if e.Left? then 0 else OpenAlarms(h))
    ensures !e.AlarmRaised? || OpenAlarms(h) == 0 ==> OneAlarmPerEpisode(h + [e])
  {
    assert (h + [e])[..|h|] == h;
  }

  lemma QuietEntry(h: seq<Entry>, e: Entry, pods: set<Pod>)
    requires Prepared(h, pods) && IsQuiet(e)
    ensures Prepared(h + [e], pods)
  {
    var k :| 0 <= k < |h| && PreparedAt(h, pods, k);
    assert PreparedAt(h + [e], pods, k);
  }

  /** Entries that are neither an alarm nor, while queued, anything but STOP. */
  lemma LogKeeps(s: State, i: InstanceId, e: Entry)
    requires InstanceOk(s, i) && !e.AlarmRaised? && (i in s.queue ==> IsQuiet(e))
    ensures InstanceOk(Log(s, i, e), i)
  {
    OneMoreEntry(History(s, i), e);
    if i in s.queue { QuietEntry(History(s, i), e, s.queue[i].pods); }
  }

  lemma DropKeeps(s: State, i: InstanceId)
    requires OneAlarmPerEpisode(History(s, i))
    ensures InstanceOk(Drop(s, i), i)
  {
    OneMoreEntry(History(s, i), Left);
  }

  lemma LogNeutral(s: State, i: InstanceId, e: Entry)
    requires OneAlarmPerEpisode(History(s, i)) && (e.Sent? || e.FaultReported?)
    ensures OneAlarmPerEpisode(History(Log(s, i, e), i))
    ensures OpenAlarms(History(Log(s, i, e), i)) == OpenAlarms(History(s, i))
    ensures forall j | j != i :: SameFor(s, Log(s, i, e), j)
  {
    OneMoreEntry(History(s, i), e);
  }

  lemma StopAndDropKeeps(s: State, instance: Instance, acks: Acks)
    requires OneAlarmPerEpisode(History(s, instance.id))
    ensures InstanceOk(StopAndDrop(s, instance, acks), instance.id)
    ensures forall j | j != instance.id :: SameFor(s, StopAndDrop(s, instance, acks), j)
    ensures StopAndDrop(s, instance, acks).queue == s.queue - {instance.id}
  {
    var e := Sent(StopEngine, instance.pods, instance.pods <= acks.stop);
    LogNeutral(s, instance.id, e);
    DropKeeps(Log(s, instance.id, e), instance.id);
  }

  /** Only the history, with no open alarm problem, matters to full recovery of its instance. */
  ghost predicate MayEnter(s: State, i: InstanceId) {
    && OneAlarmPerEpisode(History(s, i))
    && (OpenAlarms(History(s, i)) > 0 ==> i in s.alarms)
    && (i in s.queue ==> InstanceOk(s, i))
  }

  lemma FullRecoveryKeeps(s: State, instance: Instance, acks: Acks, now: nat)
    requires MayEnter(s, instance.id)
    ensures InstanceOk(ProcessFullNPURecovery(s, instance, acks, now), instance.id)
  {
    var i, pods := instance.id, instance.pods;
    if i !in s.queue {
      var s1 := s.(queue := s.queue[i := Info(pods, now)], unavailable := s.unavailable + instance.nodes);
      var paused := Sent(PauseEngine, pods, pods <= acks.pause);
      var s2 := Log(s1, i, paused);
      var reinit := Sent(ReinitNpu, pods, pods <= acks.reinit);
      LogNeutral(s1, i, paused);
      LogNeutral(s2, i, reinit);
      if pods == {} {
        StopAndDropKeeps(s1, instance, acks);
      } else if !paused.acked {
        StopAndDropKeeps(s2, instance, acks);
      } else if !reinit.acked {
        StopAndDropKeeps(Log(s2, i, reinit), instance, acks);
      } else {
        EntersPrepared(History(s, i), pods);
      }
    }
  }

  lemma EntersPrepared(h: seq<Entry>, pods: set<Pod>)
    requires pods != {}
    ensures Prepared(h + [Sent(PauseEngine, pods, true)] + [Sent(ReinitNpu, pods, true)], pods)
  {
    assert PreparedAt(h + [Sent(PauseEngine, pods, true)] + [Sent(ReinitNpu, pods, true)], pods, |h|);
  }

  lemma FullRecoveryFrame(s: State, instance: Instance, acks: Acks, now: nat)
    ensures forall j | j != instance.id :: SameFor(s, ProcessFullNPURecovery(s, instance, acks, now), j)
    ensures var t := ProcessFullNPURecovery(s, instance, acks, now); t.polling || t == s || t.queue == s.queue
    ensures s.polling ==> ProcessFullNPURecovery(s, instance, acks, now).polling
  {
    var t := ProcessFullNPURecovery(s, instance, acks, now);
    if instance.id !in s.queue {
      assert s.queue[instance.id := Info(instance.pods, now)] - {instance.id} == s.queue;
    }
  }

  // ----- handler by handler ------------------------------------------------------------------------------------------

  lemma OthersSame(s: State, t: State, i: InstanceId)
    requires Inv(s) && InstanceOk(t, i) && forall j | j != i :: SameFor(s, t, j)
    ensures forall j :: InstanceOk(t, j)
  {
    forall j ensures InstanceOk(t, j) {
      if j != i { assert InstanceOk(s, j) && SameFor(s, t, j); }
    }
  }

  lemma RaisedMayEnter(s: State, i: InstanceId)
    requires InstanceOk(s, i)
    ensures MayEnter(Raised(s, i), i)
  {
    if i !in s.alarms {
      OneMoreEntry(History(s, i), AlarmRaised);
      if i in s.queue { QuietEntry(History(s, i), AlarmRaised, s.queue[i].pods); }
    }
  }

  lemma RaisedFrame(s: State, i: InstanceId)
    ensures Raised(s, i).queue == s.queue && Raised(s, i).polling == s.polling
    ensures forall j | j != i :: SameFor(s, Raised(s, i), j)
  {
  }

  /** From one state to the next by way of a middle one, all alike but for one instance. */
  lemma KeepsInvVia(s: State, mid: State, t: State, i: InstanceId)
    requires Inv(s) && InstanceOk(t, i)
    requires forall j | j != i :: SameFor(s, mid, j) && SameFor(mid, t, j)
    requires mid.queue == s.queue && mid.polling == s.polling
    requires (mid.polling ==> t.polling) && (t.polling || t == mid || t.queue == mid.queue)
    ensures Inv(t)
  {
    forall j | j != i ensures SameFor(s, t, j) { assert SameFor(s, mid, j) && SameFor(mid, t, j); }
    OthersSame(s, t, i);
  }

  lemma RaisedRecoveryKeepsInv(s: State, instance: Instance, acks: Acks, now: nat)
    requires Inv(s)
    ensures Inv(ProcessFullNPURecovery(Raised(s, instance.id), instance, acks, now))
  {
    var i, mid := instance.id, Raised(s, instance.id);
    assert MayEnter(mid, i) by { assert InstanceOk(s, i); RaisedMayEnter(s, i); }
    RaisedFrame(s, i);
    FullRecoveryKeeps(mid, instance, acks, now);
    FullRecoveryFrame(mid, instance, acks, now);
    KeepsInvVia(s, mid, ProcessFullNPURecovery(mid, instance, acks, now), i);
  }

  lemma StopKeepsInv(s: State, i: InstanceId, pods: set<Pod>, acked: bool)
    requires Inv(s)
    ensures Inv(Log(s, i, Sent(StopEngine, pods, acked)))
  {
    assert InstanceOk(s, i);
    LogKeeps(s, i, Sent(StopEngine, pods, acked));
    OthersSame(s, Log(s, i, Sent(StopEngine, pods, acked)), i);
  }

  lemma {:induction false} ReportsKeepInv(s: State, i: InstanceId, codes: nat)
    requires Inv(s)
    ensures Inv(Reported(s, i, codes)) && Reported(s, i, codes).queue == s.queue
  {
    if codes > 0 {
      ReportsKeepInv(s, i, codes - 1);
      var before := Reported(s, i, codes - 1);
      assert InstanceOk(before, i);
      LogKeeps(before, i, FaultReported);
      OthersSame(before, Log(before, i, FaultReported), i);
    }
  }

  lemma AlarmKeepsInv(s: State, instance: Instance, alarm: EngineAlarm, acks: Acks, now: nat)
    requires Inv(s)
    ensures Inv(ProcessLLMEngineAlarm(s, instance, alarm, acks, now))
  {
    match alarm
    case Ignored =>
    case NonRecoverable(codes) => ReportsKeepInv(s, instance.id, codes);
    case Recoverable(enabled) =>
      if enabled {
        RaisedRecoveryKeepsInv(s, instance, acks, now);
      } else {
        StopKeepsInv(s, instance.id, instance.pods, instance.pods <= acks.stop);
      }
  }

  lemma OneFaultKeepsInv(s: State, f: Fault)
    requires Inv(s)
    ensures Inv(ProcessOneFault(s, f))
  {
    var i, t := f.instance.id, ProcessOneFault(s, f);
    assert InstanceOk(s, i);
    if IsDoubleFault(s, f) {
      StopAndDropKeeps(s, f.instance, f.acks);
    } else if !IsSkipped(f.instance) && !f.isPrefill {
      FullRecoveryKeeps(s, f.instance, f.acks, f.now);
      FullRecoveryFrame(s, f.instance, f.acks, f.now);
    }
    OthersSame(s, t, i);
  }

  lemma {:induction false} FaultsKeepInv(s: State, faults: seq<Fault>)
    requires Inv(s)
    ensures Inv(ProcessInstanceFaults(s, faults))
    decreases |faults|
  {
    if faults != [] {
      OneFaultKeepsInv(s, faults[0]);
      if !IsDoubleFault(s, faults[0]) { FaultsKeepInv(ProcessOneFault(s, faults[0]), faults[1..]); }
    }
  }

  lemma RestartOneKeepsInv(s: State, instance: Instance, acks: Acks)
    requires Inv(s)
    ensures Inv(RestartOne(s, instance, acks)) && RestartOne(s, instance, acks).queue == s.queue
  {
    var s1 := s.(unavailable := s.unavailable + instance.nodes);
    forall j ensures InstanceOk(s1, j) { assert InstanceOk(s, j); }
    StopKeepsInv(s1, instance.id, instance.pods, instance.pods <= acks.stop);
  }

  lemma {:induction false} RestartKeepsInv(s: State, instances: seq<Instance>, acks: Acks)
    requires Inv(s)
    ensures Inv(RestartInstance(s, instances, acks)) && RestartInstance(s, instances, acks).queue == s.queue
  {
    if instances != [] {
      var n := |instances| - 1;
      RestartKeepsInv(s, instances[..n], acks);
      RestartOneKeepsInv(RestartInstance(s, instances[..n], acks), instances[n], acks);
    }
  }

  lemma AbortKeepsInv(s: State, instance: Instance, acks: Acks)
    requires Inv(s)
    ensures Inv(AbortInstanceRecovery(s, instance, acks))
  {
    var i := instance.id;
    if i in s.queue {
      assert InstanceOk(s, i);
      DropKeeps(s, i);
      var dropped := Drop(s, i);
      var t := if dropped.queue == map[] then dropped.(polling := false) else dropped;
      assert InstanceOk(t, i);
      OthersSame(s, t, i);
      RestartKeepsInv(t, [instance], acks);
    }
  }

  lemma StartEntriesKeep(h: seq<Entry>, pods: set<Pod>, acks: Acks)
    requires OneAlarmPerEpisode(h)
    ensures OneAlarmPerEpisode(h + StartEntries(pods, acks))
    ensures OpenAlarms(h + StartEntries(pods, acks)) == OpenAlarms(h)
  {
    var started := Sent(StartEngine, pods, pods <= acks.start);
    OneMoreEntry(h, started);
    if !(pods <= acks.start) {
      var stopped := Sent(StopEngine, pods, pods <= acks.stop);
      OneMoreEntry(h + [started], stopped);
      assert h + StartEntries(pods, acks) == h + [started] + [stopped];
    }
  }

  lemma RoceOwn(s: State, instance: Instance, relinked: bool, acks: Acks)
    requires InstanceOk(s, instance.id)
    ensures InstanceOk(ProcessRoCERecovery(s, instance, relinked, acks), instance.id)
  {
    var i, pods := instance.id, instance.pods;
    if i !in s.queue && !IsSkipped(instance) {
      LogNeutral(s, i, FaultReported);
      var s1 := Log(s, i, FaultReported).(unavailable := s.unavailable + instance.nodes);
      var paused := Log(s1, i, Sent(PauseEngineRoce, pods, pods <= acks.pause));
      LogNeutral(s1, i, Sent(PauseEngineRoce, pods, pods <= acks.pause));
      LogNeutral(paused, i, Sent(StopEngine, pods, pods <= acks.stop));
      StartEntriesKeep(History(paused, i), pods, acks);
    }
  }

  lemma RoceFrame(s: State, instance: Instance, relinked: bool, acks: Acks)
    ensures var t := ProcessRoCERecovery(s, instance, relinked, acks);
            && t.queue == s.queue && t.polling == s.polling && forall j | j != instance.id :: SameFor(s, t, j)
  {
  }

  lemma RoceKeepsInv(s: State, instance: Instance, relinked: bool, acks: Acks)
    requires Inv(s)
    ensures Inv(ProcessRoCERecovery(s, instance, relinked, acks))
  {
    assert InstanceOk(s, instance.id);
    RoceOwn(s, instance, relinked, acks);
    RoceFrame(s, instance, relinked, acks);
    OthersSame(s, ProcessRoCERecovery(s, instance, relinked, acks), instance.id);
  }

  // ----- the poll tick -----------------------------------------------------------------------------------------------

  /** What one tick does to the history of one instance. */
  lemma TickHistory(s: State, now: nat, ready: set<Pod>, members: map<InstanceId, set<NodeId>>, acks: Acks, i: InstanceId)
    ensures var t := Tick(s, now, ready, members, acks);
            History(t, i) ==
            if i in TimedOut(s, now)
            then History(s, i) + [Left] + [Sent(StopEngine, s.queue[i].pods, s.queue[i].pods <= acks.stop)]
            else if i in Recovered(s, now, ready) then History(s, i) + [Left] + StartEntries(s.queue[i].pods, acks)
            else History(s, i)
  {
    if s.queue != map[] {
      var late, done := TimedOut(s, now), Recovered(s, now, ready);
      var dropped := DropAll(s, late + done);
      assert History(dropped, i) == History(s, i) + if i in late + done then [Left] else [];
      var stopped := StopAll(dropped, late, s.queue, acks);
      assert i !in late ==> History(stopped, i) == History(dropped, i);
    }
  }

  lemma TickKeepsInv(s: State, now: nat, ready: set<Pod>, members: map<InstanceId, set<NodeId>>, acks: Acks)
    requires Inv(s)
    ensures Inv(Tick(s, now, ready, members, acks))
  {
    var t := Tick(s, now, ready, members, acks);
    forall i ensures InstanceOk(t, i) {
      assert InstanceOk(s, i);
      TickHistory(s, now, ready, members, acks, i);
      if i in TimedOut(s, now) || i in Recovered(s, now, ready) {
        var h, pods := History(s, i), s.queue[i].pods;
        OneMoreEntry(h, Left);
        OneMoreEntry(h + [Left], Sent(StopEngine, pods, pods <= acks.stop));
        StartEntriesKeep(h + [Left], pods, acks);
      }
    }
  }

  // ----- every run ---------------------------------------------------------------------------------------------------

  lemma StepKeepsInv(s: State, e: Event)
    requires Inv(s)
    ensures Inv(Next(s, e))
  {
    match e
    case Alarm(instance, alarm, acks, now) => AlarmKeepsInv(s, instance, alarm, acks, now);
    case Faults(faults) => FaultsKeepInv(s, faults);
    case Restart(instances, acks) => RestartKeepsInv(s, instances, acks);
    case Abort(instance, acks) => AbortKeepsInv(s, instance, acks);
    case Roce(instance, relinked, acks) => RoceKeepsInv(s, instance, relinked, acks);
    case Poll(now, ready, members, acks) => TickKeepsInv(s, now, ready, members, acks);
  }

  /** Over every run of handlers: polling is on whenever the queue is not empty; a queued
      instance had PAUSE and REINIT acknowledged by all its pods; the alarm set holds queued
      instances only, and at most one alarm for a recoverable code is reported per stay in the
      queue, however many other reports there are. */
  lemma {:induction false} RecoveryOverEveryRun(events: seq<Event>)
    ensures Inv(Run(NpuRecovery.INITIAL, events))
  {
    if events == [] {
      assert forall i :: History(NpuRecovery.INITIAL, i) == [];
    } else {
      RecoveryOverEveryRun(events[..|events| - 1]);
      StepKeepsInv(Run(NpuRecovery.INITIAL, events[..|events| - 1]), events[|events| - 1]);
    }
  }

  // ----- deadline ----------------------------------------------------------------------------------------------------

  /** A tick keeps exactly the instances that are within 60 s of their REINIT and have a pod
      that is not ready, with their start times. */
  lemma TickQueueIff(s: State, now: nat, ready: set<Pod>, members: map<InstanceId, set<NodeId>>, acks: Acks)
    ensures var t := Tick(s, now, ready, members, acks);
            && (forall i :: i in t.queue <==>
                 i in s.queue && now - s.queue[i].startTime < NPU_STATUS_POLL_TIMEOUT && !(s.queue[i].pods <= ready))
            && (forall i | i in t.queue :: t.queue[i] == s.queue[i])
            && (t.polling <==> s.polling && t.queue != map[])
  {
    var t := Tick(s, now, ready, members, acks);
    assert forall i | i in s.queue :: IsTimeout(s.queue[i], now) <==> now - s.queue[i].startTime >= NPU_STATUS_POLL_TIMEOUT;
    assert t.queue == s.queue - (TimedOut(s, now) + Recovered(s, now, ready));
  }

  /** No handler changes the start time of an instance that stays queued. */
  lemma InfoStays(s: State, e: Event, i: InstanceId)
    requires i in s.queue && i in Next(s, e).queue
    ensures Next(s, e).queue[i] == s.queue[i]
  {
    match e
    case Alarm(instance, alarm, _, _) => if alarm.NonRecoverable? { ReportsKeepQueue(s, instance.id, alarm.codes); }
    case Faults(faults) => FaultsInfoStays(s, faults, i);
    case Restart(instances, acks) => RestartQueue(s, instances, acks);
    case Abort(instance, acks) =>
      if instance.id in s.queue {
        var dropped := Drop(s, instance.id);
        RestartQueue(if dropped.queue == map[] then dropped.(polling := false) else dropped, [instance], acks);
      }
    case Roce(_, _, _) =>
    case Poll(now, ready, members, acks) => TickQueueIff(s, now, ready, members, acks);
  }

  lemma {:induction false} ReportsKeepQueue(s: State, i: InstanceId, codes: nat)
    ensures Reported(s, i, codes).queue == s.queue && Reported(s, i, codes).unavailable == s.unavailable
  {
    if codes > 0 { ReportsKeepQueue(s, i, codes - 1); }
  }

  lemma {:induction false} RestartQueue(s: State, instances: seq<Instance>, acks: Acks)
    ensures RestartInstance(s, instances, acks).queue == s.queue
  {
    if instances != [] { RestartQueue(s, instances[..|instances| - 1], acks); }
  }

  lemma {:induction false} FaultsInfoStays(s: State, faults: seq<Fault>, i: InstanceId)
    requires i in s.queue && i in ProcessInstanceFaults(s, faults).queue
    ensures ProcessInstanceFaults(s, faults).queue[i] == s.queue[i]
    decreases |faults|
  {
    if faults != [] && !IsDoubleFault(s, faults[0]) {
      FaultsInfoStays(ProcessOneFault(s, faults[0]), faults[1..], i);
    }
  }

  lemma {:induction false} InfoStaysOverRun(s: State, events: seq<Event>, i: InstanceId)
    requires forall n | 0 <= n <= |events| :: i in Run(s, events[..n]).queue
    ensures i in s.queue && i in Run(s, events).queue && Run(s, events).queue[i] == s.queue[i]
  {
    assert events[..|events|] == events && events[..0] == [];
    if events != [] {
      var n := |events| - 1;
      assert forall m | 0 <= m <= n :: events[..n][..m] == events[..m];
      InfoStaysOverRun(s, events[..n], i);
      InfoStays(Run(s, events[..n]), events[n], i);
    }
  }

  /** Deadline: an instance that is queued throughout a run was queued less than 60 s before
      every tick of it; the first tick at or after 60 s removes it. */
  lemma DeadlineOverEveryRun(s: State, events: seq<Event>, i: InstanceId, k: nat)
    requires k < |events| && events[k].Poll?
    requires forall n | 0 <= n <= |events| :: i in Run(s, events[..n]).queue
    ensures i in s.queue && events[k].now - s.queue[i].startTime < NPU_STATUS_POLL_TIMEOUT
  {
    forall n | 0 <= n <= k ensures i in Run(s, events[..k][..n]).queue { assert events[..k][..n] == events[..n]; }
    InfoStaysOverRun(s, events[..k], i);
    RunStep(s, events, k);
    TickDeadline(Run(s, events[..k]), events[k], i);
  }

  lemma TickDeadline(s: State, e: Event, i: InstanceId)
    requires e.Poll? && i in s.queue && i in Next(s, e).queue
    ensures e.now - s.queue[i].startTime < NPU_STATUS_POLL_TIMEOUT
  {
    TickQueueIff(s, e.now, e.ready, e.members, e.acks);
  }

  lemma RunStep(s: State, events: seq<Event>, k: nat)
    requires k < |events|
    ensures Run(s, events[..k + 1]) == Next(Run(s, events[..k]), events[k])
  {
    assert events[..k + 1][..k] == events[..k];
  }

  // ----- availability ------------------------------------------------------------------------------------------------

  /** A tick makes a node available exactly when it belongs to an instance that is in time,
      whose pods are all ready, and whose pods all acknowledge START_ENGINE. */
  lemma TickRestoresIff(s: State, now: nat, ready: set<Pod>, members: map<InstanceId, set<NodeId>>, acks: Acks, n: NodeId)
    requires n in s.unavailable
    ensures n !in Tick(s, now, ready, members, acks).unavailable <==>
            exists i | i in s.queue ::
              && now - s.queue[i].startTime < NPU_STATUS_POLL_TIMEOUT
              && s.queue[i].pods <= ready && s.queue[i].pods <= acks.start && n in NodesOf(members, i)
  {
    assert forall i | i in s.queue :: IsTimeout(s.queue[i], now) <==> now - s.queue[i].startTime >= NPU_STATUS_POLL_TIMEOUT;
    if s.queue != map[] {
      var done := Recovered(s, now, ready);
      assert n in Restored(done, s.queue, members, acks) <==>
             exists i | i in done :: s.queue[i].pods <= acks.start && n in NodesOf(members, i);
    }
  }

  /** Whatever a tick dequeues ends with START acknowledged by all, or with STOP sent. */
  lemma TickStartsOrStops(s: State, now: nat, ready: set<Pod>, members: map<InstanceId, set<NodeId>>, acks: Acks, i: InstanceId)
    requires i in s.queue && i !in Tick(s, now, ready, members, acks).queue
    ensures var h, pods := History(Tick(s, now, ready, members, acks), i), s.queue[i].pods;
            if now - s.queue[i].startTime < NPU_STATUS_POLL_TIMEOUT && pods <= ready && pods <= acks.start
            then h == History(s, i) + [Left, Sent(StartEngine, pods, true)]
            else |h| > 0 && h[|h| - 1] == Sent(StopEngine, pods, pods <= acks.stop)
  {
    TickHistory(s, now, ready, members, acks, i);
    TickQueueIff(s, now, ready, members, acks);
  }

  /** The nodes that an event counts among those of an instance. */
  function NodesIn(e: Event, i: InstanceId): set<NodeId> {
    match e
    case Poll(_, _, members, _) => NodesOf(members, i)
    case Roce(instance, _, _) => if instance.id == i then instance.nodes else {}
    case _ => {}
  }

  /** In between START_ENGINE went to the pods of the instance and all acknowledged it. */
  ghost predicate EndsInStart(h: seq<Entry>, h': seq<Entry>) {
    && |h| < |h'| && h'[..|h|] == h
    && h'[|h'| - 1].Sent? && h'[|h'| - 1].command == StartEngine && h'[|h'| - 1].acked
  }

  ghost predicate StartedBy(s: State, e: Event, i: InstanceId) {
    EndsInStart(History(s, i), History(Next(s, e), i))
  }

  /** No handler brings a node back except by a START_ENGINE that, in this very step, all pods
      of the node's instance acknowledge. */
  lemma OnlyStartRestores(s: State, e: Event, n: NodeId)
    requires n in s.unavailable && n !in Next(s, e).unavailable
    ensures exists i :: n in NodesIn(e, i) && StartedBy(s, e, i)
  {
    match e
    case Alarm(instance, alarm, _, _) => if alarm.NonRecoverable? { ReportsKeepQueue(s, instance.id, alarm.codes); }
    case Faults(faults) => FaultsRestoreNothing(s, faults);
    case Restart(instances, acks) => RestartRestoresNothing(s, instances, acks);
    case Abort(instance, acks) => AbortRestoresNothing(s, instance, acks);
    case Roce(instance, relinked, acks) =>
      RoceStarts(s, instance, relinked, acks, n);
      assert n in NodesIn(e, instance.id) && StartedBy(s, e, instance.id);
    case Poll(now, ready, members, acks) =>
      var i := PollStarts(s, now, ready, members, acks, n);
      assert n in NodesIn(e, i) && StartedBy(s, e, i);
  }

  lemma RoceStarts(s: State, instance: Instance, relinked: bool, acks: Acks, n: NodeId)
    requires n in s.unavailable && n !in ProcessRoCERecovery(s, instance, relinked, acks).unavailable
    ensures n in instance.nodes && StartedBy(s, Roce(instance, relinked, acks), instance.id)
  {
    var i, pods := instance.id, instance.pods;
    assert History(ProcessRoCERecovery(s, instance, relinked, acks), i) ==
           History(s, i) + [FaultReported] + [Sent(PauseEngineRoce, pods, true)] + [Sent(StartEngine, pods, true)];
  }

  lemma PollStarts(s: State, now: nat, ready: set<Pod>, members: map<InstanceId, set<NodeId>>, acks: Acks, n: NodeId)
    returns (i: InstanceId)
    requires n in s.unavailable && n !in Tick(s, now, ready, members, acks).unavailable
    ensures n in NodesOf(members, i) && EndsInStart(History(s, i), History(Tick(s, now, ready, members, acks), i))
  {
    TickRestoresIff(s, now, ready, members, acks, n);
    i :| i in s.queue && now - s.queue[i].startTime < NPU_STATUS_POLL_TIMEOUT
         && s.queue[i].pods <= ready && s.queue[i].pods <= acks.start && n in NodesOf(members, i);
    PollStarted(s, now, ready, members, acks, i);
  }

  lemma PollStarted(s: State, now: nat, ready: set<Pod>, members: map<InstanceId, set<NodeId>>, acks: Acks, i: InstanceId)
    requires i in s.queue && now - s.queue[i].startTime < NPU_STATUS_POLL_TIMEOUT
    requires s.queue[i].pods <= ready && s.queue[i].pods <= acks.start
    ensures EndsInStart(History(s, i), History(Tick(s, now, ready, members, acks), i))
  {
    assert i in Recovered(s, now, ready) && i !in TimedOut(s, now);
    TickHistory(s, now, ready, members, acks, i);
  }

  lemma AbortRestoresNothing(s: State, instance: Instance, acks: Acks)
    ensures s.unavailable <= AbortInstanceRecovery(s, instance, acks).unavailable
  {
    var dropped := Drop(s, instance.id);
    RestartRestoresNothing(if dropped.queue == map[] then dropped.(polling := false) else dropped, [instance], acks);
  }

  lemma {:induction false} FaultsRestoreNothing(s: State, faults: seq<Fault>)
    ensures s.unavailable <= ProcessInstanceFaults(s, faults).unavailable
    decreases |faults|
  {
    if faults != [] && !IsDoubleFault(s, faults[0]) {
      FaultsRestoreNothing(ProcessOneFault(s, faults[0]), faults[1..]);
    }
  }

  lemma {:induction false} RestartRestoresNothing(s: State, instances: seq<Instance>, acks: Acks)
    ensures s.unavailable <= RestartInstance(s, instances, acks).unavailable
  {
    if instances != [] { RestartRestoresNothing(s, instances[..|instances| - 1], acks); }
  }
}
