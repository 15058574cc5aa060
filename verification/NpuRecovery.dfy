/** The NPU recovery protocol: PAUSE, REINIT, poll, START, with a deadline. A handler is one
    step; the outcomes of its requests to the pods are its inputs. */
module NpuRecovery {
  type InstanceId = nat
  type NodeId = nat
  type Pod = string

  datatype Command = PauseEngine | ReinitNpu | StartEngine | StopEngine | PauseEngineRoce

  /** What happened to one instance: a command sent to some pods and whether all of them
      acknowledged it; the alarm for a recoverable code; an alarm reported without a look at
      earlier ones; or the end of a stay in the queue. */
  datatype Entry = Sent(command: Command, pods: set<Pod>, acked: bool) | AlarmRaised | FaultReported | Left

  /** What an engine alarm asks for: nothing, as long as no coordinator is ready or the
      instance is unknown; a report for each of some non-recoverable codes; or the recovery of
      the first recoverable one, if that is enabled. */
  datatype EngineAlarm = Ignored | NonRecoverable(codes: nat) | Recoverable(enabled: bool)

  datatype Info = Info(pods: set<Pod>, startTime: nat)

  datatype State = State(
    queue: map<InstanceId, Info>, polling: bool, alarms: set<InstanceId>, unavailable: set<NodeId>,
    history: map<InstanceId, seq<Entry>>)

  /** An instance as the cluster lists it when a handler runs. */
  datatype Instance = Instance(id: InstanceId, nodes: set<NodeId>, pods: set<Pod>)

  /** The pods that acknowledge each command. */
  datatype Acks = Acks(pause: set<Pod>, reinit: set<Pod>, start: set<Pod>, stop: set<Pod>)

  datatype Fault = Fault(instance: Instance, isPrefill: bool, faultNodes: set<NodeId>, acks: Acks, now: nat)

  /** Milliseconds. */
  const NPU_STATUS_POLL_TIMEOUT: nat := 60_000

  ghost const INITIAL := State(map[], false, {}, {}, map[])

  // ----- the steps ---------------------------------------------------------------------------------------------------

  function History(s: State, i: InstanceId): seq<Entry> {
    if i in s.history then s.history[i] else []
  }

  function Log(s: State, i: InstanceId, e: Entry): State {
    s.(history := s.history[i := History(s, i) + [e]])
  }

  function Drop(s: State, i: InstanceId): State {
    Log(s.(queue := s.queue - {i}, alarms := s.alarms - {i}), i, Left)
  }

  function StopAndDrop(s: State, instance: Instance, acks: Acks): State {
    Drop(Log(s, instance.id, Sent(StopEngine, instance.pods, instance.pods <= acks.stop)), instance.id)
  }

  function ProcessFullNPURecovery(s: State, instance: Instance, acks: Acks, now: nat): State {
    var i, pods := instance.id, instance.pods;
    if i in s.queue then s
    else
      var s1 := s.(queue := s.queue[i := Info(pods, now)], unavailable := s.unavailable + instance.nodes);
      if pods == {} then StopAndDrop(s1, instance, acks)
      else if !(pods <= acks.pause) then StopAndDrop(Log(s1, i, Sent(PauseEngine, pods, false)), instance, acks)
      else
        var s2 := Log(s1, i, Sent(PauseEngine, pods, true));
        if !(pods <= acks.reinit) then StopAndDrop(Log(s2, i, Sent(ReinitNpu, pods, false)), instance, acks)
        else Log(s2, i, Sent(ReinitNpu, pods, true)).(polling := true)
  }

  function Raised(s: State, i: InstanceId): State {
    if i in s.alarms then s else Log(s.(alarms := s.alarms + {i}), i, AlarmRaised)
  }

  function Reported(s: State, i: InstanceId, codes: nat): State {
    if codes == 0 then s else Log(Reported(s, i, codes - 1), i, FaultReported)
  }

  function ProcessLLMEngineAlarm(s: State, instance: Instance, alarm: EngineAlarm, acks: Acks, now: nat): State {
    var i := instance.id;
    match alarm
    case Ignored => s
    case NonRecoverable(codes) => Reported(s, i, codes)
    case Recoverable(enabled) =>
      if !enabled then Log(s, i, Sent(StopEngine, instance.pods, instance.pods <= acks.stop))
      else ProcessFullNPURecovery(Raised(s, i), instance, acks, now)
  }

  /** The instance is skipped for having no nodes or pods. */
  predicate IsSkipped(instance: Instance) {
    instance.nodes == {} || instance.pods == {}
  }

  predicate IsDoubleFault(s: State, f: Fault) {
    !IsSkipped(f.instance) && f.instance.id in s.queue
  }

  function ProcessOneFault(s: State, f: Fault): State {
    if IsSkipped(f.instance) then s
    else if f.instance.id in s.queue then StopAndDrop(s, f.instance, f.acks)
    else if f.isPrefill then s.(unavailable := s.unavailable + f.faultNodes)
    else ProcessFullNPURecovery(s, f.instance, f.acks, f.now)
  }

  /** A double fault ends the handling of the whole message. */
  function ProcessInstanceFaults(s: State, faults: seq<Fault>): State
    decreases |faults|
  {
    if faults == [] then s
    else if IsDoubleFault(s, faults[0]) then ProcessOneFault(s, faults[0])
    else ProcessInstanceFaults(ProcessOneFault(s, faults[0]), faults[1..])
  }

  function RestartOne(s: State, instance: Instance, acks: Acks): State {
    var s1 := s.(unavailable := s.unavailable + instance.nodes);
    if instance.nodes == {} then s
    else if instance.pods == {} then s1
    else Log(s1, instance.id, Sent(StopEngine, instance.pods, instance.pods <= acks.stop))
  }

  function RestartInstance(s: State, instances: seq<Instance>, acks: Acks): State {
    if instances == [] then s
    else RestartOne(RestartInstance(s, instances[..|instances| - 1], acks), instances[|instances| - 1], acks)
  }

  function AbortInstanceRecovery(s: State, instance: Instance, acks: Acks): State {
    if instance.id !in s.queue then s
    else
      var dropped := Drop(s, instance.id);
      RestartInstance(if dropped.queue == map[] then dropped.(polling := false) else dropped, [instance], acks)
  }

  function StartEntries(pods: set<Pod>, acks: Acks): seq<Entry> {
    if pods <= acks.start then [Sent(StartEngine, pods, true)]
    else [Sent(StartEngine, pods, false), Sent(StopEngine, pods, pods <= acks.stop)]
  }

  function RecoverService(s: State, i: InstanceId, pods: set<Pod>, nodes: set<NodeId>, acks: Acks): State {
    s.(history := s.history[i := History(s, i) + StartEntries(pods, acks)],
       unavailable := if pods <= acks.start then s.unavailable - nodes else s.unavailable)
  }

  /** The RoCE path reports, and enters and leaves the queue, within the handler. */
  function ProcessRoCERecovery(s: State, instance: Instance, relinked: bool, acks: Acks): State {
    var i, pods := instance.id, instance.pods;
    var s1 := Log(s, i, FaultReported).(unavailable := s.unavailable + instance.nodes);
    var stop := Sent(StopEngine, pods, pods <= acks.stop);
    if i in s.queue || IsSkipped(instance) then s
    else if !(pods <= acks.pause) then Log(Log(s1, i, Sent(PauseEngineRoce, pods, false)), i, stop)
    else
      var s2 := Log(s1, i, Sent(PauseEngineRoce, pods, true));
      if !relinked then Log(s2, i, stop) else RecoverService(s2, i, pods, instance.nodes, acks)
  }

  // ----- the poll tick -----------------------------------------------------------------------------------------------

  /** Whole seconds are compared, as the duration is cast down to them. */
  predicate IsTimeout(info: Info, now: nat) {
    (now - info.startTime) / 1000 >= NPU_STATUS_POLL_TIMEOUT / 1000
  }

  function TimedOut(s: State, now: nat): set<InstanceId> {
    set i | i in s.queue && IsTimeout(s.queue[i], now)
  }

  function Recovered(s: State, now: nat, ready: set<Pod>): set<InstanceId> {
    set i | i in s.queue && !IsTimeout(s.queue[i], now) && s.queue[i].pods <= ready
  }

  function DropAll(s: State, gone: set<InstanceId>): State {
    s.(queue := s.queue - gone, alarms := s.alarms - gone,
       history := map i | i in s.history.Keys + gone :: if i in gone then History(s, i) + [Left] else s.history[i])
  }

  function StopAll(s: State, gone: set<InstanceId>, was: map<InstanceId, Info>, acks: Acks): State
    requires gone <= was.Keys
  {
    s.(history := map i | i in s.history.Keys + gone ::
      if i in gone then History(s, i) + [Sent(StopEngine, was[i].pods, was[i].pods <= acks.stop)] else s.history[i])
  }

  function NodesOf(members: map<InstanceId, set<NodeId>>, i: InstanceId): set<NodeId> {
    if i in members then members[i] else {}
  }

  function Restored(gone: set<InstanceId>, was: map<InstanceId, Info>, members: map<InstanceId, set<NodeId>>, acks: Acks)
    : set<NodeId>
    requires gone <= was.Keys
  {
    set i, n | i in gone && was[i].pods <= acks.start && n in NodesOf(members, i) :: n
  }

  function RecoverAll(s: State, gone: set<InstanceId>, was: map<InstanceId, Info>,
                      members: map<InstanceId, set<NodeId>>, acks: Acks): State
    requires gone <= was.Keys
  {
    s.(history := map i | i in s.history.Keys + gone ::
         if i in gone then History(s, i) + StartEntries(was[i].pods, acks) else s.history[i],
       unavailable := s.unavailable - Restored(gone, was, members, acks))
  }

  function Tick(s: State, now: nat, ready: set<Pod>, members: map<InstanceId, set<NodeId>>, acks: Acks): State {
    if s.queue == map[] then s.(polling := false)
    else
      var late, done := TimedOut(s, now), Recovered(s, now, ready);
      var dropped := DropAll(s, late + done);
      var sent := RecoverAll(StopAll(dropped, late, s.queue, acks), done, s.queue, members, acks);
      if dropped.queue == map[] then sent.(polling := false) else sent
  }

  // ----- the manager -------------------------------------------------------------------------------------------------

  class NPURecoveryManager {
    var instanceRecoveryInfo: map<InstanceId, Info>
    var globalNPUPolling: bool
    var errCodeAlarmExisted: set<InstanceId>
    var unavailable: set<NodeId>
    ghost var history: map<InstanceId, seq<Entry>>

    constructor ()
      ensures View() == INITIAL
    {
      instanceRecoveryInfo, globalNPUPolling, errCodeAlarmExisted, unavailable := map[], false, {}, {};
      history := map[];
    }

    ghost function View(): State reads this {
      State(instanceRecoveryInfo, globalNPUPolling, errCodeAlarmExisted, unavailable, history)
    }

    method SendCommand(i: InstanceId, command: Command, pods: set<Pod>, acks: set<Pod>) returns (acked: bool)
      modifies this`history
      ensures acked == (pods <= acks)
      ensures View() == Log(old(View()), i, Sent(command, pods, acked))
    {
      acked := pods <= acks;
      history := history[i := History(View(), i) + [Sent(command, pods, acked)]];
    }

    method Erase(i: InstanceId)
      modifies this
      ensures View() == Drop(old(View()), i)
    {
      instanceRecoveryInfo := instanceRecoveryInfo - {i};
      errCodeAlarmExisted := errCodeAlarmExisted - {i};
      history := history[i := History(View(), i) + [Left]];
    }

    method StopAndErase(instance: Instance, acks: Acks)
      modifies this
      ensures View() == StopAndDrop(old(View()), instance, acks)
    {
      var _ := SendCommand(instance.id, StopEngine, instance.pods, acks.stop);
      Erase(instance.id);
    }

    method FullNPURecovery(instance: Instance, acks: Acks, now: nat)
      modifies this
      ensures View() == ProcessFullNPURecovery(old(View()), instance, acks, now)
    {
      var i := instance.id;
      if i in instanceRecoveryInfo { return; }
      instanceRecoveryInfo := instanceRecoveryInfo[i := Info(instance.pods, now)];
      unavailable := unavailable + instance.nodes;
      var acked := false;
      if instance.pods != {} { acked := SendCommand(i, PauseEngine, instance.pods, acks.pause); }
      if !acked {
        StopAndErase(instance, acks);
        return;
      }
      acked := SendCommand(i, ReinitNpu, instance.pods, acks.reinit);
      if !acked {
        StopAndErase(instance, acks);
        return;
      }
      globalNPUPolling := true;
    }

    method ReportFault(i: InstanceId)
      modifies this`history
      ensures View() == Log(old(View()), i, FaultReported)
    {
      history := history[i := History(View(), i) + [FaultReported]];
    }

    method LLMEngineAlarm(instance: Instance, alarm: EngineAlarm, acks: Acks, now: nat)
      modifies this
      ensures View() == ProcessLLMEngineAlarm(old(View()), instance, alarm, acks, now)
    {
      var i := instance.id;
      if alarm.Ignored? { return; }
      if alarm.NonRecoverable? {
        for k := 0 to alarm.codes
          invariant View() == Reported(old(View()), i, k)
        {
          ReportFault(i);
        }
        return;
      }
      if !alarm.enabled {
        var _ := SendCommand(i, StopEngine, instance.pods, acks.stop);
        return;
      }
      if i !in errCodeAlarmExisted {
        errCodeAlarmExisted := errCodeAlarmExisted + {i};
        history := history[i := History(View(), i) + [AlarmRaised]];
      }
      FullNPURecovery(instance, acks, now);
    }

    method InstanceFaults(faults: seq<Fault>)
      modifies this
      ensures View() == ProcessInstanceFaults(old(View()), faults)
    {
      for k := 0 to |faults|
        invariant ProcessInstanceFaults(View(), faults[k..]) == ProcessInstanceFaults(old(View()), faults)
      {
        assert faults[k..][1..] == faults[k + 1..];
        var f := faults[k];
        if f.instance.nodes == {} || f.instance.pods == {} { continue; }
        if f.instance.id in instanceRecoveryInfo {
          StopAndErase(f.instance, f.acks);
          return;
        }
        if f.isPrefill {
          unavailable := unavailable + f.faultNodes;
        } else {
          FullNPURecovery(f.instance, f.acks, f.now);
        }
      }
    }

    method Restart(instances: seq<Instance>, acks: Acks)
      modifies this
      ensures View() == RestartInstance(old(View()), instances, acks)
    {
      for k := 0 to |instances|
        invariant View() == RestartInstance(old(View()), instances[..k], acks)
      {
        assert instances[..k + 1][..k] == instances[..k];
        var instance := instances[k];
        if instance.nodes == {} { continue; }
        unavailable := unavailable + instance.nodes;
        if instance.pods == {} { continue; }
        var _ := SendCommand(instance.id, StopEngine, instance.pods, acks.stop);
      }
      assert instances[..|instances|] == instances;
    }

    method Abort(instance: Instance, acks: Acks)
      modifies this
      ensures View() == AbortInstanceRecovery(old(View()), instance, acks)
    {
      if instance.id !in instanceRecoveryInfo { return; }
      Erase(instance.id);
      if instanceRecoveryInfo == map[] { globalNPUPolling := false; }
      Restart([instance], acks);
    }

    method RecoverInstanceService(i: InstanceId, pods: set<Pod>, nodes: set<NodeId>, acks: Acks)
      modifies this
      ensures View() == RecoverService(old(View()), i, pods, nodes, acks)
    {
      var started := SendCommand(i, StartEngine, pods, acks.start);
      if !started {
        var _ := SendCommand(i, StopEngine, pods, acks.stop);
        assert history[i] == History(old(View()), i) + StartEntries(pods, acks);
        return;
      }
      unavailable := unavailable - nodes;
    }

    method RoCERecovery(instance: Instance, relinked: bool, acks: Acks)
      modifies this
      ensures View() == ProcessRoCERecovery(old(View()), instance, relinked, acks)
    {
      var i := instance.id;
      if i in instanceRecoveryInfo || instance.nodes == {} || instance.pods == {} { return; }
      ReportFault(i);
      var before := instanceRecoveryInfo;
      instanceRecoveryInfo := instanceRecoveryInfo[i := Info(instance.pods, 0)];
      unavailable := unavailable + instance.nodes;
      var acked := SendCommand(i, PauseEngineRoce, instance.pods, acks.pause);
      if !acked || !relinked {
        var _ := SendCommand(i, StopEngine, instance.pods, acks.stop);
      } else {
        RecoverInstanceService(i, instance.pods, instance.nodes, acks);
      }
      instanceRecoveryInfo := instanceRecoveryInfo - {i};
      assert instanceRecoveryInfo == before;
    }

    method CheckInstancesRecoveryStatus(now: nat, ready: set<Pod>) returns (recovered: set<InstanceId>, late: set<InstanceId>)
      ensures recovered == Recovered(View(), now, ready) && late == TimedOut(View(), now)
    {
      recovered, late := {}, {};
      var todo := instanceRecoveryInfo.Keys;
      while todo != {}
        invariant todo <= instanceRecoveryInfo.Keys
        invariant recovered == Recovered(View(), now, ready) - todo && late == TimedOut(View(), now) - todo
      {
        var i :| i in todo;
        if IsTimeout(instanceRecoveryInfo[i], now) {
          late := late + {i};
        } else if instanceRecoveryInfo[i].pods <= ready {
          recovered := recovered + {i};
        }
        todo := todo - {i};
      }
    }

    method EraseAll(gone: set<InstanceId>)
      modifies this
      ensures View() == DropAll(old(View()), gone)
    {
      var todo := gone;
      DropNone(View());
      while todo != {}
        invariant todo <= gone && View() == DropAll(old(View()), gone - todo)
      {
        var i :| i in todo;
        DropOneMore(old(View()), gone - todo, i);
        Erase(i);
        assert gone - todo + {i} == gone - (todo - {i});
        todo := todo - {i};
      }
      assert gone - todo == gone;
    }

    method SendStops(late: set<InstanceId>, was: map<InstanceId, Info>, acks: Acks)
      requires late <= was.Keys
      modifies this`history
      ensures View() == StopAll(old(View()), late, was, acks)
    {
      var todo := late;
      StopNone(View(), was, acks);
      while todo != {}
        invariant todo <= late && View() == StopAll(old(View()), late - todo, was, acks)
      {
        var i :| i in todo;
        StopOneMore(old(View()), late - todo, i, was, acks);
        var _ := SendCommand(i, StopEngine, was[i].pods, acks.stop);
        assert late - todo + {i} == late - (todo - {i});
        todo := todo - {i};
      }
      assert late - todo == late;
    }

    method RecoverServices(done: set<InstanceId>, was: map<InstanceId, Info>, members: map<InstanceId, set<NodeId>>, acks: Acks)
      requires done <= was.Keys
      modifies this
      ensures View() == RecoverAll(old(View()), done, was, members, acks)
    {
      var todo := done;
      RecoverNone(View(), was, members, acks);
      while todo != {}
        invariant todo <= done && View() == RecoverAll(old(View()), done - todo, was, members, acks)
      {
        var i :| i in todo;
        RecoverOneMore(old(View()), done - todo, i, was, members, acks);
        RecoverInstanceService(i, was[i].pods, NodesOf(members, i), acks);
        assert done - todo + {i} == done - (todo - {i});
        todo := todo - {i};
      }
      assert done - todo == done;
    }

    method OnGlobalNPUPollTimerExpired(now: nat, ready: set<Pod>, members: map<InstanceId, set<NodeId>>, acks: Acks)
      modifies this
      ensures View() == Tick(old(View()), now, ready, members, acks)
    {
      if instanceRecoveryInfo == map[] {
        globalNPUPolling := false;
        return;
      }
      var was := instanceRecoveryInfo;
      var recovered, late := CheckInstancesRecoveryStatus(now, ready);
      EraseAll(late + recovered);
      var shouldStopPolling := instanceRecoveryInfo == map[];
      SendStops(late, was, acks);
      RecoverServices(recovered, was, members, acks);
      if shouldStopPolling { globalNPUPolling := false; }
    }
  }

  lemma DropNone(s: State)
    ensures DropAll(s, {}) == s
  {
    assert DropAll(s, {}).history == s.history;
    assert s.queue - {} == s.queue;
  }

  lemma DropOneMore(s: State, gone: set<InstanceId>, i: InstanceId)
    requires i !in gone
    ensures Drop(DropAll(s, gone), i) == DropAll(s, gone + {i})
  {
    var a, b := Drop(DropAll(s, gone), i), DropAll(s, gone + {i});
    assert a.history == b.history;
    assert a.queue == b.queue;
  }

  lemma StopNone(s: State, was: map<InstanceId, Info>, acks: Acks)
    ensures StopAll(s, {}, was, acks) == s
  {
    assert StopAll(s, {}, was, acks).history == s.history;
  }

  lemma StopOneMore(s: State, gone: set<InstanceId>, i: InstanceId, was: map<InstanceId, Info>, acks: Acks)
    requires i !in gone && gone + {i} <= was.Keys
    ensures Log(StopAll(s, gone, was, acks), i, Sent(StopEngine, was[i].pods, was[i].pods <= acks.stop)) ==
            StopAll(s, gone + {i}, was, acks)
  {
    var a := Log(StopAll(s, gone, was, acks), i, Sent(StopEngine, was[i].pods, was[i].pods <= acks.stop));
    assert a.history == StopAll(s, gone + {i}, was, acks).history;
  }

  lemma RecoverNone(s: State, was: map<InstanceId, Info>, members: map<InstanceId, set<NodeId>>, acks: Acks)
    ensures RecoverAll(s, {}, was, members, acks) == s
  {
    assert RecoverAll(s, {}, was, members, acks).history == s.history;
  }

  lemma RecoverOneMore(s: State, gone: set<InstanceId>, i: InstanceId, was: map<InstanceId, Info>,
                       members: map<InstanceId, set<NodeId>>, acks: Acks)
    requires i !in gone && gone + {i} <= was.Keys
    ensures RecoverService(RecoverAll(s, gone, was, members, acks), i, was[i].pods, NodesOf(members, i), acks) ==
            RecoverAll(s, gone + {i}, was, members, acks)
  {
    RecoverHistory(s, gone, i, was, members, acks);
    RestoredOneMore(gone, i, was, members, acks);
  }

  lemma RecoverHistory(s: State, gone: set<InstanceId>, i: InstanceId, was: map<InstanceId, Info>,
                       members: map<InstanceId, set<NodeId>>, acks: Acks)
    requires i !in gone && gone + {i} <= was.Keys
    ensures RecoverService(RecoverAll(s, gone, was, members, acks), i, was[i].pods, NodesOf(members, i), acks).history ==
            RecoverAll(s, gone + {i}, was, members, acks).history
  {
    assert History(RecoverAll(s, gone, was, members, acks), i) == History(s, i);
  }

  lemma RestoredOneMore(gone: set<InstanceId>, i: InstanceId, was: map<InstanceId, Info>,
                        members: map<InstanceId, set<NodeId>>, acks: Acks)
    requires gone + {i} <= was.Keys
    ensures Restored(gone + {i}, was, members, acks) ==
            Restored(gone, was, members, acks) + if was[i].pods <= acks.start then NodesOf(members, i) else {}
  {
  }
}
