/** The memory of handled switch faults: what a fault message adds to it, how it is saved
    and reloaded, and that no fault id is acted on twice. */
module SwitchFaults {
  import opened FaultClassify

  /** Where ids are saved: the local file, whose save adds to what the file holds, or the
      etcd key, whose save replaces it. */
  datatype Backend = LocalFile | EtcdKey

  datatype State = State(
    processed: set<string>, seenNotReady: set<string>, readyChecked: bool, loaded: bool, store: set<string>)

  datatype Report = Report(
    nodes: seq<NodeFault>, instanceOf: map<string, InstanceId>, recovering: bool, enabled: bool, coordinatorReady: bool)

  /** Reports arrive with the outcome of the save they may cause; a crash forgets all but the
      store; a reload may fail to read it. */
  datatype Event = Message(report: Report, saved: bool) | Crash | Reload(readable: bool)

  ghost const INITIAL := State({}, {}, false, true, {})

  function ContextOf(s: State, report: Report): Context {
    Context(report.instanceOf, report.recovering, s.processed, s.seenNotReady)
  }

  /** The report reaches classification. */
  predicate Classifies(s: State, report: Report) {
    report.enabled && (s.readyChecked || report.coordinatorReady)
  }

  function Ids(faults: seq<SwitchFault>): set<string> {
    set f | f in faults :: UniqueId(f)
  }

  /** Ids of all recordable faults of a report. */
  function ReportedIds(nodes: seq<NodeFault>): set<string> {
    set node, device, f | node in nodes && device in node.devices && f in device.switchFaults && IsRecorded(f) :: UniqueId(f)
  }

  function Saved(backend: Backend, store: set<string>, processed: set<string>): set<string> {
    match backend
    case LocalFile => store + processed
    case EtcdKey => processed
  }

  ghost function Next(backend: Backend, s: State, e: Event): State {
    match e
    case Message(report, saved) =>
      if !report.enabled then s
      else if !Classifies(s, report) then s.(seenNotReady := s.seenNotReady + ReportedIds(report.nodes))
      else
        var faults := Remembered(ContextOf(s, report), report.nodes);
        var ready := s.(readyChecked := true);
        if faults == [] then ready
        else
          var processed := s.processed + Ids(faults);
          ready.(processed := processed, store := if saved then Saved(backend, s.store, processed) else s.store)
    case Crash => State({}, {}, false, false, s.store)
    case Reload(readable) => if readable then s.(processed := s.processed + s.store, loaded := true) else s
  }

  ghost function Run(backend: Backend, s: State, events: seq<Event>): State {
    if events == [] then s else Next(backend, Run(backend, s, events[..|events| - 1]), events[|events| - 1])
  }

  /** The assumption of at-most-once handling, on each event alone: saves succeed, and after a
      crash the saved ids are read back before a report is classified. */
  predicate Faithful(s: State, e: Event) {
    e.Message? && Classifies(s, e.report) ==> s.loaded && e.saved
  }

  ghost predicate FaithfulRun(backend: Backend, s: State, events: seq<Event>) {
    forall k | 0 <= k < |events| :: Faithful(Run(backend, s, events[..k]), events[k])
  }

  /** The report makes an instance qualify with a fault of this id. */
  ghost predicate ActsOn(s: State, report: Report, id: string) {
    && Classifies(s, report)
    && exists i, node, f ::
         && Qualifies(ContextOf(s, report), report.nodes, i)
         && node in report.nodes && BelongsTo(ContextOf(s, report), node, i)
         && f in ValidFaults(ContextOf(s, report), node) && UniqueId(f) == id
  }

  // ----- the manager's fields ----------------------------------------------------------------------------------------

  class NPURecoveryManager {
    const backend: Backend
    var processedSwitchFaults: set<string>
    var coordinatorNotReadyFaults: set<string>
    var coordinatorReadyChecked: bool
    var store: set<string>
    ghost var loaded: bool

    constructor (backend: Backend)
      ensures View() == INITIAL && this.backend == backend
    {
      this.backend := backend;
      processedSwitchFaults, coordinatorNotReadyFaults, coordinatorReadyChecked, store := {}, {}, false, {};
      loaded := true;
    }

    ghost function View(): State reads this {
      State(processedSwitchFaults, coordinatorNotReadyFaults, coordinatorReadyChecked, loaded, store)
    }

    method RecordDevices(devices: seq<FaultDevice>)
      modifies this`coordinatorNotReadyFaults
      ensures coordinatorNotReadyFaults == old(coordinatorNotReadyFaults) + DeviceIds(devices)
    {
      for d := 0 to |devices|
        invariant coordinatorNotReadyFaults == old(coordinatorNotReadyFaults) + DeviceIds(devices[..d])
      {
        var faults := devices[d].switchFaults;
        ghost var before := coordinatorNotReadyFaults;
        for i := 0 to |faults|
          invariant coordinatorNotReadyFaults == before + FaultIds(faults[..i])
        {
          FaultIdsStep(faults, i);
          if faults[i].faultCode != "" && IsFaultCodeInWhitelist(faults[i].faultCode) {
            coordinatorNotReadyFaults := coordinatorNotReadyFaults + {UniqueId(faults[i])};
          }
        }
        assert faults[..|faults|] == faults;
        DeviceIdsStep(devices, d);
      }
      assert devices[..|devices|] == devices;
    }

    method RecordWhileNotReady(nodes: seq<NodeFault>)
      modifies this`coordinatorNotReadyFaults
      ensures coordinatorNotReadyFaults == old(coordinatorNotReadyFaults) + ReportedIds(nodes)
    {
      for n := 0 to |nodes|
        invariant coordinatorNotReadyFaults == old(coordinatorNotReadyFaults) + ReportedIds(nodes[..n])
      {
        RecordDevices(nodes[n].devices);
        ReportedIdsStep(nodes, n);
      }
      assert nodes[..|nodes|] == nodes;
    }

    method UpdateProcessedSwitchFaults(faults: seq<SwitchFault>, saved: bool)
      modifies this`processedSwitchFaults, this`store
      ensures processedSwitchFaults == old(processedSwitchFaults) + Ids(faults)
      ensures store == if saved then Saved(backend, old(store), processedSwitchFaults) else old(store)
    {
      for i := 0 to |faults|
        invariant processedSwitchFaults == old(processedSwitchFaults) + Ids(faults[..i]) && store == old(store)
      {
        assert faults[..i + 1] == faults[..i] + [faults[i]];
        processedSwitchFaults := processedSwitchFaults + {UniqueId(faults[i])};
      }
      assert faults[..|faults|] == faults;
      if saved { store := Saved(backend, store, processedSwitchFaults); }
    }

    method ProcessFaultMessage(report: Report, saved: bool) returns (faulty: map<InstanceId, seq<NodeFault>>, restart: bool)
      modifies this
      ensures View() == Next(backend, old(View()), Message(report, saved))
      ensures forall i :: i in faulty <==>
                old(Classifies(View(), report)) && Qualifies(old(ContextOf(View(), report)), report.nodes, i)
      ensures restart <==>
              old(Classifies(View(), report)) && exists i :: Blacklisted(old(ContextOf(View(), report)), report.nodes, i)
    {
      faulty, restart := map[], false;
      if !report.enabled { return; }
      if !coordinatorReadyChecked && !report.coordinatorReady {
        RecordWhileNotReady(report.nodes);
        return;
      }
      coordinatorReadyChecked := true;
      var ctx := Context(report.instanceOf, report.recovering, processedSwitchFaults, coordinatorNotReadyFaults);
      var recorded;
      faulty, restart, recorded := FindFaultyInstances(ctx, report.nodes);
      assert faulty != map[] <==> exists i :: i in faulty;
      if faulty != map[] && recorded != [] {
        UpdateProcessedSwitchFaults(recorded, saved);
      }
    }

    method RecoveryNPUFaultID(readable: bool) returns (ok: bool)
      modifies this`processedSwitchFaults, this`loaded
      ensures View() == Next(backend, old(View()), Reload(readable)) && ok == readable
    {
      ok := readable;
      if readable {
        processedSwitchFaults := processedSwitchFaults + store;
        loaded := true;
      }
    }
  }

  function FaultIds(faults: seq<SwitchFault>): set<string> {
    set f | f in faults && IsRecorded(f) :: UniqueId(f)
  }

  function DeviceIds(devices: seq<FaultDevice>): set<string> {
    set device, f | device in devices && f in device.switchFaults && IsRecorded(f) :: UniqueId(f)
  }

  lemma FaultIdsStep(faults: seq<SwitchFault>, i: nat)
    requires i < |faults|
    ensures FaultIds(faults[..i + 1]) == FaultIds(faults[..i]) + if IsRecorded(faults[i]) then {UniqueId(faults[i])} else {}
  {
    assert faults[..i + 1] == faults[..i] + [faults[i]];
  }

  lemma DeviceIdsStep(devices: seq<FaultDevice>, d: nat)
    requires d < |devices|
    ensures DeviceIds(devices[..d + 1]) == DeviceIds(devices[..d]) + FaultIds(devices[d].switchFaults)
  {
    assert devices[..d + 1] == devices[..d] + [devices[d]];
  }

  lemma ReportedIdsStep(nodes: seq<NodeFault>, n: nat)
    requires n < |nodes|
    ensures ReportedIds(nodes[..n + 1]) == ReportedIds(nodes[..n]) + DeviceIds(nodes[n].devices)
  {
    assert nodes[..n + 1] == nodes[..n] + [nodes[n]];
  }

  // ----- at most once ------------------------------------------------------------------------------------------------

  /** An id that is acted on is one that was neither processed nor seen before. */
  lemma ActsOnlyOnNew(s: State, report: Report, id: string)
    requires ActsOn(s, report, id)
    ensures id !in s.processed && id !in s.seenNotReady
  {
    var ctx := ContextOf(s, report);
    var i, node, f :| Qualifies(ctx, report.nodes, i) && node in report.nodes && BelongsTo(ctx, node, i)
                      && f in ValidFaults(ctx, node) && UniqueId(f) == id;
    ValidInMembers(ctx, node.devices);
  }

  lemma ActedOnIsRecorded(backend: Backend, s: State, report: Report, saved: bool, id: string)
    requires ActsOn(s, report, id)
    ensures id in Next(backend, s, Message(report, saved)).processed
    ensures saved ==> id in Next(backend, s, Message(report, saved)).store
  {
    var ctx := ContextOf(s, report);
    var i, node, f :| Qualifies(ctx, report.nodes, i) && node in report.nodes && BelongsTo(ctx, node, i)
                      && f in ValidFaults(ctx, node) && UniqueId(f) == id;
    QualifyingFaultsAreRemembered(ctx, report.nodes, i, node, f);
    assert id in Ids(Remembered(ctx, report.nodes));
  }

  /** What holds of a state from which faithful steps lose no saved id. */
  predicate StoreKept(s: State) {
    s.loaded ==> s.store <= s.processed
  }

  lemma FaithfulStep(backend: Backend, s: State, e: Event)
    requires StoreKept(s) && Faithful(s, e)
    ensures StoreKept(Next(backend, s, e)) && s.store <= Next(backend, s, e).store
  {
  }

  lemma {:induction false} FaithfulRunKeepsStore(backend: Backend, s: State, events: seq<Event>)
    requires StoreKept(s) && FaithfulRun(backend, s, events)
    ensures StoreKept(Run(backend, s, events)) && s.store <= Run(backend, s, events).store
  {
    if events != [] {
      var n := |events| - 1;
      assert forall k | 0 <= k < n :: events[..n][..k] == events[..k] && events[..n][k] == events[k];
      FaithfulRunKeepsStore(backend, s, events[..n]);
      FaithfulStep(backend, Run(backend, s, events[..n]), events[n]);
    }
  }

  lemma RunSuffix(backend: Backend, s: State, before: seq<Event>, after: seq<Event>)
    ensures Run(backend, s, before + after) == Run(backend, Run(backend, s, before), after)
    decreases |after|
  {
    if after == [] {
      assert before + after == before;
    } else {
      var n := |after| - 1;
      RunSuffix(backend, s, before, after[..n]);
      assert (before + after)[..|before| + n] == before + after[..n];
    }
  }

  lemma RunPart(backend: Backend, events: seq<Event>, from: nat, to: nat)
    requires from <= to <= |events|
    ensures Run(backend, Run(backend, INITIAL, events[..from]), events[from..to]) == Run(backend, INITIAL, events[..to])
  {
    assert events[..to] == events[..from] + events[from..to];
    RunSuffix(backend, INITIAL, events[..from], events[from..to]);
  }

  lemma FaithfulAt(backend: Backend, events: seq<Event>, from: nat, to: nat, n: nat)
    requires FaithfulRun(backend, INITIAL, events) && from + n < to <= |events|
    ensures Faithful(Run(backend, Run(backend, INITIAL, events[..from]), events[from..to][..n]), events[from..to][n])
  {
    assert events[from..to][..n] == events[from..from + n];
    RunPart(backend, events, from, from + n);
    assert Faithful(Run(backend, INITIAL, events[..from + n]), events[from + n]);
  }

  lemma PartFaithful(backend: Backend, events: seq<Event>, from: nat, to: nat)
    requires FaithfulRun(backend, INITIAL, events) && from <= to <= |events|
    ensures FaithfulRun(backend, Run(backend, INITIAL, events[..from]), events[from..to])
    ensures Run(backend, Run(backend, INITIAL, events[..from]), events[from..to]) == Run(backend, INITIAL, events[..to])
  {
    var part, s := events[from..to], Run(backend, INITIAL, events[..from]);
    RunPart(backend, events, from, to);
    forall n | 0 <= n < |part| ensures Faithful(Run(backend, s, part[..n]), part[n]) {
      FaithfulAt(backend, events, from, to, n);
    }
  }

  /** At most once: over any faithful run of reports, crashes and reloads from the start, an
      id acted on at one position is acted on at no later one. */
  lemma NeverActedOnTwice(backend: Backend, events: seq<Event>, j: nat, k: nat, id: string)
    requires FaithfulRun(backend, INITIAL, events) && j < k < |events|
    requires events[j].Message? && events[k].Message?
    requires ActsOn(Run(backend, INITIAL, events[..j]), events[j].report, id)
    ensures !ActsOn(Run(backend, INITIAL, events[..k]), events[k].report, id)
  {
    var s, t, u := Run(backend, INITIAL, events[..j]), Run(backend, INITIAL, events[..j + 1]), Run(backend, INITIAL, events[..k]);
    assert t == Next(backend, s, events[j]) && id in t.store by {
      assert events[..j + 1][..j] == events[..j];
      ActedOnIsRecorded(backend, s, events[j].report, events[j].saved, id);
      assert Faithful(s, events[j]);
    }
    assert StoreKept(t) by {
      PartFaithful(backend, events, 0, j + 1);
      FaithfulRunKeepsStore(backend, INITIAL, events[0..j + 1]);
    }
    PartFaithful(backend, events, j + 1, k);
    FaithfulRunKeepsStore(backend, t, events[j + 1..k]);
    assert Faithful(u, events[k]);
    if ActsOn(u, events[k].report, id) { ActsOnlyOnNew(u, events[k].report, id); }
  }

  // ----- ids seen before the coordinator was ready -------------------------------------------------------------------

  lemma {:induction false} NotReadyIdsStay(backend: Backend, s: State, events: seq<Event>, id: string)
    requires id in s.seenNotReady && forall e | e in events :: !e.Crash?
    ensures id in Run(backend, s, events).seenNotReady
  {
    if events != [] {
      NotReadyIdsStay(backend, s, events[..|events| - 1], id);
      assert events[|events| - 1] in events;
    }
  }

  /** A recordable fault reported while the coordinator is not ready is never acted on in that
      lifetime of the process, saved or not. */
  lemma NotReadyIdsNeverActedOn(backend: Backend, s: State, early: Report, saved: bool, events: seq<Event>,
                                later: Report, id: string)
    requires early.enabled && !s.readyChecked && !early.coordinatorReady
    requires exists node, device, f ::
               && node in early.nodes && device in node.devices && f in device.switchFaults
               && IsRecorded(f) && UniqueId(f) == id
    requires forall e | e in events :: !e.Crash?
    ensures !ActsOn(Run(backend, Next(backend, s, Message(early, saved)), events), later, id)
  {
    var t := Run(backend, Next(backend, s, Message(early, saved)), events);
    NotReadyIdsStay(backend, Next(backend, s, Message(early, saved)), events, id);
    if ActsOn(t, later, id) { ActsOnlyOnNew(t, later, id); }
  }

  /** A report that is not enabled leaves no trace and is never acted on. */
  lemma DisabledIsIgnored(backend: Backend, s: State, report: Report, saved: bool, id: string)
    requires !report.enabled
    ensures Next(backend, s, Message(report, saved)) == s && !ActsOn(s, report, id)
  {
  }

  /** A coordinator that was ready once counts as ready for the rest of that lifetime. */
  lemma {:induction false} ReadyLatches(backend: Backend, s: State, first: Report, saved: bool, events: seq<Event>)
    requires first.enabled && first.coordinatorReady && forall e | e in events :: !e.Crash?
    ensures Run(backend, Next(backend, s, Message(first, saved)), events).readyChecked
  {
    if events != [] {
      ReadyLatches(backend, s, first, saved, events[..|events| - 1]);
      assert events[|events| - 1] in events;
    }
  }

  // ----- the two stores ----------------------------------------------------------------------------------------------

  /** The file never loses an id, even if a report is handled before the ids are read back. */
  lemma {:induction false} FileNeverForgets(s: State, events: seq<Event>)
    ensures s.store <= Run(LocalFile, s, events).store
  {
    if events != [] { FileNeverForgets(s, events[..|events| - 1]); }
  }

  /** The etcd key does: exactly the ids that are not among the processed ones of a save. */
  lemma KeyForgetsIff(s: State, report: Report, id: string)
    requires id in s.store && Classifies(s, report)
    ensures id !in Next(EtcdKey, s, Message(report, true)).store <==>
            id !in s.processed && Remembered(ContextOf(s, report), report.nodes) != []
            && id !in Ids(Remembered(ContextOf(s, report), report.nodes))
  {
  }

  // ----- exactly when an id can be acted on --------------------------------------------------------------------------

  /** Without the assumption: an id can be acted on next exactly when neither set holds it. */
  lemma CanActIff(s: State, f: SwitchFault)
    requires IsRecorded(f)
    ensures (exists report :: ActsOn(s, report, UniqueId(f))) <==>
            UniqueId(f) !in s.processed && UniqueId(f) !in s.seenNotReady
  {
    if exists report :: ActsOn(s, report, UniqueId(f)) {
      var report :| ActsOn(s, report, UniqueId(f));
      ActsOnlyOnNew(s, report, UniqueId(f));
    }
    if UniqueId(f) !in s.processed && UniqueId(f) !in s.seenNotReady {
      var report := LoneReport(f);
      LoneReportActs(s, f);
    }
  }

  /** A report of one fault on one healthy node. */
  ghost function LoneReport(f: SwitchFault): Report {
    Report([NodeFault("ip", "sn", "", [FaultDevice("", [], [], [f])])], map["ip" := 0], false, true, true)
  }

  lemma LoneReportActs(s: State, f: SwitchFault)
    requires IsRecorded(f) && UniqueId(f) !in s.processed && UniqueId(f) !in s.seenNotReady
    ensures ActsOn(s, LoneReport(f), UniqueId(f))
  {
    var report := LoneReport(f);
    var node, ctx := report.nodes[0], ContextOf(s, report);
    ValidInMembers(ctx, node.devices);
    assert node.devices[0] in node.devices && f in node.devices[0].switchFaults;
    assert f in ValidFaults(ctx, node) && node in report.nodes && BelongsTo(ctx, node, 0);
    assert Qualifies(ctx, report.nodes, 0);
  }

  /** Both halves of the assumption are needed: after a failed save, or without the reload, a
      crash makes the same report act on the same id again. */
  lemma CrashRepeats(backend: Backend, f: SwitchFault, saved: bool, reloaded: bool)
    requires IsRecorded(f) && !(saved && reloaded)
    ensures var events := [Message(LoneReport(f), saved), Crash, Reload(reloaded)];
            && ActsOn(INITIAL, LoneReport(f), UniqueId(f))
            && ActsOn(Run(backend, INITIAL, events), LoneReport(f), UniqueId(f))
  {
    var m := Message(LoneReport(f), saved);
    LoneReportActs(INITIAL, f);
    var s1 := Next(backend, INITIAL, m);
    assert !saved ==> s1.store == {};
    var events := [m, Crash, Reload(reloaded)];
    assert events[..2] == [m, Crash] && [m, Crash][..1] == [m] && [m][..0] == [];
    assert Run(backend, INITIAL, [m]) == s1;
    assert Run(backend, INITIAL, [m, Crash]) == State({}, {}, false, false, s1.store);
    var s3 := Run(backend, INITIAL, events);
    assert s3.processed == {} && s3.seenNotReady == {};
    LoneReportActs(s3, f);
  }
}
