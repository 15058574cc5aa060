/** How each handler of the recovery protocol ends, told from its inputs: who is in service,
    who is queued, and which commands went out. */
module NpuRecoveryOutcomes {
  import opened NpuRecovery
  import opened NpuRecoverySafety

  /** Entries were only added. */
  predicate Extends(h: seq<Entry>, h': seq<Entry>) {
    |h| <= |h'| && h'[..|h|] == h
  }

  predicate EndsInStop(h: seq<Entry>, h': seq<Entry>, pods: set<Pod>) {
    Extends(h, h') && |h| < |h'| && h'[|h'| - 1].Sent? && h'[|h'| - 1].command == StopEngine && h'[|h'| - 1].pods == pods
  }

  predicate StoppedAndLeft(h: seq<Entry>, h': seq<Entry>, pods: set<Pod>) {
    |h'| > 0 && h'[|h'| - 1] == Left && EndsInStop(h, h'[..|h'| - 1], pods)
  }

  // ----- RoCE recovery -----------------------------------------------------------------------------------------------

  /** A RoCE recovery is carried out for an instance that is not queued and has nodes and pods.
      Then its nodes end up in service if all pods acknowledge PAUSE, the links are rebuilt and
      all pods acknowledge START; in every other case they end up out of service. All other
      nodes stay as they were. */
  lemma RoceServiceIff(s: State, instance: Instance, relinked: bool, acks: Acks, n: NodeId)
    ensures n !in ProcessRoCERecovery(s, instance, relinked, acks).unavailable <==>
            if instance.id !in s.queue && instance.pods != {} && n in instance.nodes
            then instance.pods <= acks.pause && relinked && instance.pods <= acks.start
            else n !in s.unavailable
  {
    assert n in instance.nodes ==> instance.nodes != {};
  }

  /** So a RoCE recovery brings a node back exactly under these conditions. */
  lemma RoceRestoresIff(s: State, instance: Instance, relinked: bool, acks: Acks, n: NodeId)
    requires n in s.unavailable
    ensures n !in ProcessRoCERecovery(s, instance, relinked, acks).unavailable <==>
            && n in instance.nodes && instance.id !in s.queue && instance.pods != {}
            && instance.pods <= acks.pause && relinked && instance.pods <= acks.start
  {
    RoceServiceIff(s, instance, relinked, acks, n);
  }

  lemma RoceHistory(s: State, instance: Instance, relinked: bool, acks: Acks)
    requires instance.id !in s.queue && instance.nodes != {} && instance.pods != {}
    ensures var h, pods := History(s, instance.id), instance.pods;
            var paused := Sent(PauseEngineRoce, pods, pods <= acks.pause);
            var stop := Sent(StopEngine, pods, pods <= acks.stop);
            History(ProcessRoCERecovery(s, instance, relinked, acks), instance.id) == h +
              if !(pods <= acks.pause && relinked) then [FaultReported, paused, stop]
              else if pods <= acks.start then [FaultReported, paused, Sent(StartEngine, pods, true)]
              else [FaultReported, paused, Sent(StartEngine, pods, false), stop]
  {
    var h, pods := History(s, instance.id), instance.pods;
    var paused, stop := Sent(PauseEngineRoce, pods, pods <= acks.pause), Sent(StopEngine, pods, pods <= acks.stop);
    assert h + [FaultReported] + [paused] + [stop] == h + [FaultReported, paused, stop];
    assert h + [FaultReported] + [paused] + StartEntries(pods, acks) ==
           h + ([FaultReported, paused] + StartEntries(pods, acks));
  }

  /** The commands of a RoCE recovery: none if it is not carried out; else START comes last if
      it succeeds, and STOP to the same pods if it fails anywhere. The queue is as before. */
  lemma RoceStartsOrStops(s: State, instance: Instance, relinked: bool, acks: Acks)
    ensures var t, i, pods := ProcessRoCERecovery(s, instance, relinked, acks), instance.id, instance.pods;
            && t.queue == s.queue && t.polling == s.polling && t.alarms == s.alarms
            && if i in s.queue || instance.nodes == {} || pods == {} then t == s
               else if pods <= acks.pause && relinked && pods <= acks.start
               then History(t, i) == History(s, i)
                                       + [FaultReported, Sent(PauseEngineRoce, pods, true), Sent(StartEngine, pods, true)]
               else EndsInStop(History(s, i), History(t, i), pods)
  {
    if instance.id !in s.queue && instance.nodes != {} && instance.pods != {} {
      RoceHistory(s, instance, relinked, acks);
    }
  }

  // ----- full recovery -----------------------------------------------------------------------------------------------

  lemma FullRecoveryHistory(s: State, instance: Instance, acks: Acks, now: nat)
    requires instance.id !in s.queue
    ensures var h, pods := History(s, instance.id), instance.pods;
            var stop := Sent(StopEngine, pods, pods <= acks.stop);
            History(ProcessFullNPURecovery(s, instance, acks, now), instance.id) == h +
              if pods == {} then [stop, Left]
              else if !(pods <= acks.pause) then [Sent(PauseEngine, pods, false), stop, Left]
              else if !(pods <= acks.reinit) then [Sent(PauseEngine, pods, true), Sent(ReinitNpu, pods, false), stop, Left]
              else [Sent(PauseEngine, pods, true), Sent(ReinitNpu, pods, true)]
  {
    var h, pods := History(s, instance.id), instance.pods;
    var paused, reinit := Sent(PauseEngine, pods, pods <= acks.pause), Sent(ReinitNpu, pods, pods <= acks.reinit);
    var stop := Sent(StopEngine, pods, pods <= acks.stop);
    assert h + [stop] + [Left] == h + [stop, Left];
    assert h + [paused] + [stop] + [Left] == h + [paused, stop, Left];
    assert h + [paused] + [reinit] + [stop] + [Left] == h + [paused, reinit, stop, Left];
    assert h + [paused] + [reinit] == h + [paused, reinit];
  }

  lemma StopComesLast(h: seq<Entry>, sent: seq<Entry>)
    requires |sent| >= 2 && sent[|sent| - 1] == Left && sent[|sent| - 2].Sent? && sent[|sent| - 2].command == StopEngine
    ensures StoppedAndLeft(h, h + sent, sent[|sent| - 2].pods)
  {
    assert (h + sent)[..|h + sent| - 1] == h + sent[..|sent| - 1];
  }

  lemma FailedRecoveryStops(s: State, instance: Instance, acks: Acks, now: nat)
    requires instance.id !in s.queue
    requires !(instance.pods != {} && instance.pods <= acks.pause && instance.pods <= acks.reinit)
    ensures StoppedAndLeft(History(s, instance.id),
                           History(ProcessFullNPURecovery(s, instance, acks, now), instance.id), instance.pods)
  {
    FullRecoveryHistory(s, instance, acks, now);
    var h, pods := History(s, instance.id), instance.pods;
    var stop := Sent(StopEngine, pods, pods <= acks.stop);
    StopComesLast(h, [stop, Left]);
    StopComesLast(h, [Sent(PauseEngine, pods, false), stop, Left]);
    StopComesLast(h, [Sent(PauseEngine, pods, true), Sent(ReinitNpu, pods, false), stop, Left]);
  }

  /** Full recovery of an instance that is not queued: its nodes go out of service; it is queued
      with its pods and the time if it has pods and all acknowledge PAUSE and REINIT, and
      polling is on; otherwise it is not queued and was last sent STOP. */
  lemma FullRecoveryOutcome(s: State, instance: Instance, acks: Acks, now: nat)
    requires instance.id !in s.queue
    ensures var t, i, pods := ProcessFullNPURecovery(s, instance, acks, now), instance.id, instance.pods;
            && t.unavailable == s.unavailable + instance.nodes
            && if pods != {} && pods <= acks.pause && pods <= acks.reinit
               then t.queue == s.queue[i := Info(pods, now)] && t.polling && t.alarms == s.alarms
               else
                 && t.queue == s.queue && t.polling == s.polling && t.alarms == s.alarms - {i}
                 && StoppedAndLeft(History(s, i), History(t, i), pods)
  {
    if !(instance.pods != {} && instance.pods <= acks.pause && instance.pods <= acks.reinit) {
      FailedRecoveryStops(s, instance, acks, now);
    }
    assert s.queue[instance.id := Info(instance.pods, now)] - {instance.id} == s.queue;
  }

  // ----- engine alarms -----------------------------------------------------------------------------------------------

  lemma {:induction false} ReportsOutcome(s: State, i: InstanceId, codes: nat)
    ensures var t := Reported(s, i, codes);
            && t == s.(history := t.history) && (forall j | j != i :: History(t, j) == History(s, j))
            && History(t, i) == History(s, i) + seq(codes, _ => FaultReported)
  {
    if codes > 0 {
      ReportsOutcome(s, i, codes - 1);
      var before, t := Reported(s, i, codes - 1), Reported(s, i, codes);
      assert seq(codes, _ => FaultReported) == seq(codes - 1, _ => FaultReported) + [FaultReported];
      forall j | j != i ensures History(t, j) == History(s, j) { assert History(t, j) == History(before, j); }
    }
  }

  /** An alarm is ignored while no coordinator is ready; non-recoverable codes are reported one
      by one and nothing else happens; without recovery STOP is sent. */
  lemma AlarmWithoutRecovery(s: State, instance: Instance, alarm: EngineAlarm, acks: Acks, now: nat)
    requires !(alarm.Recoverable? && alarm.enabled)
    ensures var t, i := ProcessLLMEngineAlarm(s, instance, alarm, acks, now), instance.id;
            && t == s.(history := t.history) && (forall j | j != i :: History(t, j) == History(s, j))
            && History(t, i) == History(s, i) +
                 match alarm
                 case Ignored => []
                 case NonRecoverable(codes) => seq(codes, _ => FaultReported)
                 case Recoverable(_) => [Sent(StopEngine, instance.pods, instance.pods <= acks.stop)]
  {
    if alarm.NonRecoverable? { ReportsOutcome(s, instance.id, alarm.codes); }
  }

  /** A recoverable code raises an alarm, unless one is open, and starts full recovery unless
      the instance is queued. */
  lemma AlarmWithRecovery(s: State, instance: Instance, acks: Acks, now: nat)
    ensures var t, i, pods := ProcessLLMEngineAlarm(s, instance, Recoverable(true), acks, now), instance.id, instance.pods;
            && (i in s.queue ==> t == s.(alarms := s.alarms + {i}, history := t.history))
            && (i !in s.queue ==> t.unavailable == s.unavailable + instance.nodes)
            && (i in t.queue <==> i in s.queue || (pods != {} && pods <= acks.pause && pods <= acks.reinit))
            && (i !in s.alarms ==> Extends(History(s, i) + [AlarmRaised], History(t, i)))
  {
    var mid := Raised(s, instance.id);
    if instance.id !in s.queue {
      FullRecoveryOutcome(mid, instance, acks, now);
      FullRecoveryHistory(mid, instance, acks, now);
    }
  }

  // ----- fault messages ----------------------------------------------------------------------------------------------

  /** One entry per instance, as in the map that the message is turned into. */
  ghost predicate DistinctFaults(faults: seq<Fault>) {
    forall j, k | 0 <= j < k < |faults| :: faults[j].instance.id != faults[k].instance.id
  }

  /** The entries before the k-th concern no instance that is queued already. */
  ghost predicate IsReached(s: State, faults: seq<Fault>, k: nat)
    requires k <= |faults|
  {
    forall j | 0 <= j < k :: IsSkipped(faults[j].instance) || faults[j].instance.id !in s.queue
  }

  /** What becomes of the instance of one entry that is handled. */
  ghost predicate FaultHandled(s: State, t: State, f: Fault) {
    var i, pods := f.instance.id, f.instance.pods;
    if i in s.queue then i !in t.queue && StoppedAndLeft(History(s, i), History(t, i), pods)
    else if f.isPrefill then SameFor(s, t, i) && f.faultNodes <= t.unavailable
    else
      && f.instance.nodes <= t.unavailable
      && if pods <= f.acks.pause && pods <= f.acks.reinit then i in t.queue && t.queue[i] == Info(pods, f.now)
         else i !in t.queue && StoppedAndLeft(History(s, i), History(t, i), pods)
  }

  lemma OneFaultOutcome(s: State, f: Fault)
    requires f.instance.nodes != {} && f.instance.pods != {}
    ensures FaultHandled(s, ProcessOneFault(s, f), f)
  {
    var i, h := f.instance.id, History(s, f.instance.id);
    if i in s.queue {
      var stop := Sent(StopEngine, f.instance.pods, f.instance.pods <= f.acks.stop);
      assert (h + [stop] + [Left])[..|h| + 1] == h + [stop];
    } else if !f.isPrefill {
      FullRecoveryOutcome(s, f.instance, f.acks, f.now);
    }
  }

  lemma OneFaultFrame(s: State, f: Fault)
    ensures forall j | j != f.instance.id :: SameFor(s, ProcessOneFault(s, f), j)
  {
    FullRecoveryFrame(s, f.instance, f.acks, f.now);
  }

  lemma {:induction false} FaultsFrame(s: State, faults: seq<Fault>, i: InstanceId)
    requires forall f | f in faults :: f.instance.id != i
    ensures SameFor(s, ProcessInstanceFaults(s, faults), i)
    decreases |faults|
  {
    if faults != [] {
      assert faults[0] in faults;
      OneFaultFrame(s, faults[0]);
      if !IsDoubleFault(s, faults[0]) { FaultsFrame(ProcessOneFault(s, faults[0]), faults[1..], i); }
    }
  }

  lemma HandledStays(s: State, mid: State, t: State, f: Fault)
    requires FaultHandled(s, mid, f) && SameFor(mid, t, f.instance.id) && mid.unavailable <= t.unavailable
    ensures FaultHandled(s, t, f)
  {
  }

  /** Each entry of a fault message is handled by itself: a queued instance is stopped and
      dequeued, a prefill one loses its fault nodes, any other enters full recovery. But the
      first queued instance ends the message: entries behind it, like those without nodes or
      pods, change nothing. */
  lemma {:induction false} FaultsOutcome(s: State, faults: seq<Fault>, k: nat)
    requires DistinctFaults(faults) && k < |faults|
    ensures var t, f := ProcessInstanceFaults(s, faults), faults[k];
            if IsReached(s, faults, k) && f.instance.nodes != {} && f.instance.pods != {} then FaultHandled(s, t, f)
            else SameFor(s, t, f.instance.id)
    decreases |faults|
  {
    var f, s1, rest := faults[k], ProcessOneFault(s, faults[0]), faults[1..];
    OneFaultFrame(s, faults[0]);
    if k == 0 {
      if f.instance.nodes != {} && f.instance.pods != {} { OneFaultOutcome(s, f); }
      if !IsDoubleFault(s, f) {
        FaultsFrame(s1, rest, f.instance.id);
        FaultsRestoreNothing(s1, rest);
        if f.instance.nodes != {} && f.instance.pods != {} {
          HandledStays(s, s1, ProcessInstanceFaults(s1, rest), f);
        }
      }
    } else if !IsDoubleFault(s, faults[0]) {
      assert SameFor(s, s1, f.instance.id);
      ReachedNext(s, faults, k);
      FaultsOutcome(s1, rest, k - 1);
    } else {
      assert !IsReached(s, faults, k);
    }
  }

  lemma ReachedNext(s: State, faults: seq<Fault>, k: nat)
    requires DistinctFaults(faults) && 0 < k < |faults| && !IsDoubleFault(s, faults[0])
    ensures IsReached(ProcessOneFault(s, faults[0]), faults[1..], k - 1) <==> IsReached(s, faults, k)
  {
    var s1 := ProcessOneFault(s, faults[0]);
    OneFaultFrame(s, faults[0]);
    forall j | 0 < j < k ensures faults[j].instance.id in s1.queue <==> faults[j].instance.id in s.queue {
      assert SameFor(s, s1, faults[j].instance.id);
    }
    assert forall j | 0 < j < k :: faults[j] == faults[1..][j - 1];
    assert forall j | 0 <= j < k - 1 :: faults[1..][j] == faults[j + 1];
  }

  // ----- restart and abort -------------------------------------------------------------------------------------------

  ghost predicate DistinctInstances(instances: seq<Instance>) {
    forall j, k | 0 <= j < k < |instances| :: instances[j].id != instances[k].id
  }

  /** A restart takes the nodes of all listed instances out of service, and nothing else. */
  lemma {:induction false} RestartOutcome(s: State, instances: seq<Instance>, acks: Acks)
    ensures var t := RestartInstance(s, instances, acks);
            && t == s.(unavailable := t.unavailable, history := t.history)
            && forall n :: n in t.unavailable <==>
                 n in s.unavailable || exists instance | instance in instances :: n in instance.nodes
  {
    if instances != [] {
      var rest, last := instances[..|instances| - 1], instances[|instances| - 1];
      assert instances == rest + [last];
      RestartOutcome(s, rest, acks);
    }
  }

  lemma {:induction false} RestartFrame(s: State, instances: seq<Instance>, acks: Acks, i: InstanceId)
    requires forall instance | instance in instances :: instance.id != i
    ensures History(RestartInstance(s, instances, acks), i) == History(s, i)
  {
    if instances != [] {
      assert instances[|instances| - 1] in instances;
      RestartFrame(s, instances[..|instances| - 1], acks, i);
    }
  }

  /** It sends STOP once to each listed instance with nodes and pods, and nothing else. */
  lemma {:induction false} RestartStops(s: State, instances: seq<Instance>, acks: Acks, k: nat)
    requires DistinctInstances(instances) && k < |instances|
    ensures var instance := instances[k];
            History(RestartInstance(s, instances, acks), instance.id) == History(s, instance.id) +
              if instance.nodes != {} && instance.pods != {}
              then [Sent(StopEngine, instance.pods, instance.pods <= acks.stop)] else []
  {
    var rest, last := instances[..|instances| - 1], instances[|instances| - 1];
    if k < |rest| { RestartStops(s, rest, acks, k); } else { RestartFrame(s, rest, acks, last.id); }
  }

  /** Aborting a recovery dequeues the instance, stops polling if it was the last one, takes its
      nodes out of service and sends STOP to its pods, if it has any left. */
  lemma AbortOutcome(s: State, instance: Instance, acks: Acks)
    ensures var t, i := AbortInstanceRecovery(s, instance, acks), instance.id;
            if i !in s.queue then t == s
            else
              && t.queue == s.queue - {i} && t.alarms == s.alarms - {i} && t.unavailable == s.unavailable + instance.nodes
              && (t.polling <==> s.polling && t.queue != map[])
              && History(t, i) == History(s, i) +
                   if instance.nodes != {} && instance.pods != {}
                   then [Left, Sent(StopEngine, instance.pods, instance.pods <= acks.stop)] else [Left]
  {
    var dropped := Drop(s, instance.id);
    var mid := if dropped.queue == map[] then dropped.(polling := false) else dropped;
    RestartOutcome(mid, [instance], acks);
    RestartStops(mid, [instance], acks, 0);
    assert RestartInstance(mid, [instance], acks).unavailable == s.unavailable + instance.nodes;
  }

  // ----- leaving the queue -------------------------------------------------------------------------------------------

  /** STOP_ENGINE is among the entries added. */
  predicate StopAdded(h: seq<Entry>, h': seq<Entry>) {
    Extends(h, h') && exists k | |h| <= k < |h'| :: h'[k].Sent? && h'[k].command == StopEngine
  }

  /** An instance that leaves the queue other than by a tick was sent STOP, unless its recovery
      is aborted when it has no nodes or no pods any more. */
  lemma LeavesByStopIff(s: State, e: Event, i: InstanceId)
    requires i in s.queue && i !in Next(s, e).queue && !e.Poll?
    requires e.Faults? ==> DistinctFaults(e.faults)
    ensures StopAdded(History(s, i), History(Next(s, e), i)) <==>
            !(e.Abort? && (e.instance.nodes == {} || e.instance.pods == {}))
  {
    match e
    case Alarm(instance, alarm, acks, now) => InfoOfAlarm(s, instance, alarm, acks, now);
    case Faults(faults) => FaultsStop(s, faults, i);
    case Restart(instances, acks) => RestartOutcome(s, instances, acks);
    case Abort(instance, acks) =>
      AbortOutcome(s, instance, acks);
      var h, h' := History(s, i), History(Next(s, e), i);
      assert h'[|h|] == Left;
      assert instance.nodes != {} && instance.pods != {} ==> h'[|h| + 1].Sent? && h'[|h| + 1].command == StopEngine;
    case Roce(_, _, _) =>
  }

  lemma InfoOfAlarm(s: State, instance: Instance, alarm: EngineAlarm, acks: Acks, now: nat)
    ensures s.queue.Keys <= ProcessLLMEngineAlarm(s, instance, alarm, acks, now).queue.Keys
  {
    if alarm == Recoverable(true) {
      AlarmWithRecovery(s, instance, acks, now);
      RaisedFrame(s, instance.id);
      FullRecoveryFrame(Raised(s, instance.id), instance, acks, now);
    } else {
      AlarmWithoutRecovery(s, instance, alarm, acks, now);
    }
  }

  lemma FaultsStop(s: State, faults: seq<Fault>, i: InstanceId)
    requires DistinctFaults(faults) && i in s.queue && i !in ProcessInstanceFaults(s, faults).queue
    ensures StopAdded(History(s, i), History(ProcessInstanceFaults(s, faults), i))
  {
    var h, h' := History(s, i), History(ProcessInstanceFaults(s, faults), i);
    if forall f | f in faults :: f.instance.id != i {
      FaultsFrame(s, faults, i);
    } else {
      var k :| 0 <= k < |faults| && faults[k].instance.id == i;
      FaultsOutcome(s, faults, k);
      assert StoppedAndLeft(h, h', faults[k].instance.pods);
      assert h'[|h'| - 2].Sent?;
    }
  }

  // ----- queued means out of service ---------------------------------------------------------------------------------

  /** As far as the event tells, the instance has these nodes and no other instance has one of
      them. */
  ghost predicate Owns(e: Event, i: InstanceId, nodes: set<NodeId>) {
    match e
    case Alarm(instance, _, _, _) => instance.id == i ==> instance.nodes == nodes
    case Faults(faults) => forall f | f in faults && f.instance.id == i :: f.instance.nodes == nodes
    case Roce(instance, _, _) => instance.id != i ==> instance.nodes !! nodes
    case Poll(_, _, members, _) => forall j | j in members && j != i :: members[j] !! nodes
    case _ => true
  }

  ghost predicate OutWhileQueued(s: State, i: InstanceId, nodes: set<NodeId>) {
    i in s.queue ==> nodes <= s.unavailable
  }

  lemma OneFaultKeepsOut(s: State, f: Fault, i: InstanceId, nodes: set<NodeId>)
    requires OutWhileQueued(s, i, nodes) && (f.instance.id == i ==> f.instance.nodes == nodes)
    ensures OutWhileQueued(ProcessOneFault(s, f), i, nodes)
  {
    OneFaultFrame(s, f);
    if f.instance.id != i { assert SameFor(s, ProcessOneFault(s, f), i); }
    if f.instance.id !in s.queue { FullRecoveryOutcome(s, f.instance, f.acks, f.now); }
  }

  lemma {:induction false} FaultsKeepOut(s: State, faults: seq<Fault>, i: InstanceId, nodes: set<NodeId>)
    requires OutWhileQueued(s, i, nodes) && Owns(Faults(faults), i, nodes)
    ensures OutWhileQueued(ProcessInstanceFaults(s, faults), i, nodes)
    decreases |faults|
  {
    if faults != [] {
      assert faults[0] in faults;
      OneFaultKeepsOut(s, faults[0], i, nodes);
      if !IsDoubleFault(s, faults[0]) { FaultsKeepOut(ProcessOneFault(s, faults[0]), faults[1..], i, nodes); }
    }
  }

  lemma TickKeepsOut(s: State, e: Event, i: InstanceId, nodes: set<NodeId>)
    requires e.Poll? && OutWhileQueued(s, i, nodes) && Owns(e, i, nodes)
    ensures OutWhileQueued(Next(s, e), i, nodes)
  {
    TickQueueIff(s, e.now, e.ready, e.members, e.acks);
    if i in Next(s, e).queue {
      forall n | n in nodes ensures n in Next(s, e).unavailable {
        TickRestoresIff(s, e.now, e.ready, e.members, e.acks, n);
      }
    }
  }

  lemma AlarmKeepsOut(s: State, e: Event, i: InstanceId, nodes: set<NodeId>)
    requires e.Alarm? && OutWhileQueued(s, i, nodes) && Owns(e, i, nodes)
    ensures OutWhileQueued(Next(s, e), i, nodes)
  {
    if e.alarm == Recoverable(true) {
      AlarmWithRecovery(s, e.instance, e.acks, e.now);
      RaisedFrame(s, e.instance.id);
      FullRecoveryFrame(Raised(s, e.instance.id), e.instance, e.acks, e.now);
      if i != e.instance.id { assert SameFor(Raised(s, e.instance.id), Next(s, e), i); }
    } else {
      AlarmWithoutRecovery(s, e.instance, e.alarm, e.acks, e.now);
    }
  }

  lemma StepKeepsOut(s: State, e: Event, i: InstanceId, nodes: set<NodeId>)
    requires OutWhileQueued(s, i, nodes) && Owns(e, i, nodes)
    ensures OutWhileQueued(Next(s, e), i, nodes)
  {
    match e
    case Alarm(_, _, _, _) => AlarmKeepsOut(s, e, i, nodes);
    case Faults(faults) => FaultsKeepOut(s, faults, i, nodes);
    case Restart(instances, acks) => RestartOutcome(s, instances, acks);
    case Abort(instance, acks) => AbortOutcome(s, instance, acks);
    case Roce(instance, relinked, acks) =>
      forall n | n in nodes && i in s.queue ensures n in Next(s, e).unavailable {
        RoceRestoresIff(s, instance, relinked, acks, n);
      }
    case Poll(_, _, _, _) => TickKeepsOut(s, e, i, nodes);
  }

  /** Over every run: as long as an instance has the same nodes, and shares them with no other,
      all of them are out of service whenever it is queued. */
  lemma {:induction false} QueuedIsOutOfService(events: seq<Event>, i: InstanceId, nodes: set<NodeId>)
    requires forall e | e in events :: Owns(e, i, nodes)
    ensures OutWhileQueued(Run(NpuRecovery.INITIAL, events), i, nodes)
  {
    if events != [] {
      QueuedIsOutOfService(events[..|events| - 1], i, nodes);
      assert events[|events| - 1] in events;
      StepKeepsOut(Run(NpuRecovery.INITIAL, events[..|events| - 1]), events[|events| - 1], i, nodes);
    }
  }
}
