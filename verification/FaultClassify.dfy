/** Classification of a fault message (`FindFaultyInstances`): which instances qualify for
    recovery, in one pass with a blacklist built on the way. */
module FaultClassify {
  type InstanceId = nat

  datatype SwitchFault = SwitchFault(faultCode: string, switchChipId: string, switchPortId: string, faultTime: string)

  datatype FaultDevice = FaultDevice(
    faultLevel: string, faultCodes: seq<string>, faultLevels: seq<string>, switchFaults: seq<SwitchFault>)

  datatype NodeFault = NodeFault(nodeIP: string, nodeSN: string, faultLevel: string, devices: seq<FaultDevice>)

  /** What classification reads besides the message: which instance a node IP belongs to,
      whether some instance is in recovery, and the ids of faults not to act on. */
  datatype Context = Context(
    instanceOf: map<string, InstanceId>, recovering: bool, processed: set<string>, seenNotReady: set<string>)

  const FAULT_CODE_WHITELIST: set<string> := {"[0x08520003,na,L2,na]"}
  const RECOVERING_CODE_WHITELIST: set<string> := {"80CB8009", "80CB800A", "80E01801", "80E18404", "81078603"}

  // ----- single faults and single nodes -----------------------------------------------------------------------

  predicate StartsAt(s: string, part: string, i: nat) {
    i + |part| <= |s| && s[i..i + |part|] == part
  }

  predicate Contains(s: string, part: string) {
    exists i | 0 <= i <= |s| :: StartsAt(s, part, i)
  }

  predicate IsFaultCodeInWhitelist(code: string) {
    exists listed | listed in FAULT_CODE_WHITELIST :: Contains(code, listed)
  }

  function UniqueId(f: SwitchFault): string {
    f.faultCode + "|" + f.switchChipId + "|" + f.switchPortId + "|" + f.faultTime
  }

  predicate IsRecorded(f: SwitchFault) {
    f.faultCode != "" && IsFaultCodeInWhitelist(f.faultCode)
  }

  predicate IsValid(ctx: Context, f: SwitchFault) {
    IsRecorded(f) && UniqueId(f) !in ctx.seenNotReady && UniqueId(f) !in ctx.processed
  }

  /** A device entry that leaves no doubt: malformed code lists, or a code of more than the
      lowest level that recovery does not itself cause. */
  predicate DeviceIsCritical(device: FaultDevice) {
    && device.faultLevel == "UnHealthy"
    && (|| |device.faultCodes| != |device.faultLevels| || device.faultCodes == []
        || exists i | 0 <= i < |device.faultCodes| ::
             device.faultLevels[i] != "NotHandleFault" && device.faultCodes[i] !in RECOVERING_CODE_WHITELIST)
  }

  predicate IsCritical(ctx: Context, node: NodeFault) {
    && node.faultLevel == "UnHealthy"
    && (!ctx.recovering || node.devices == [] || exists device | device in node.devices :: DeviceIsCritical(device))
  }

  method HasCriticalFaultLevel(ctx: Context, node: NodeFault) returns (critical: bool)
    ensures critical <==>
            !ctx.recovering || node.devices == [] || exists device | device in node.devices :: DeviceIsCritical(device)
  {
    if !ctx.recovering || node.devices == [] { return true; }
    for i := 0 to |node.devices|
      invariant forall k | 0 <= k < i :: !DeviceIsCritical(node.devices[k])
    {
      var device := node.devices[i];
      assert device in node.devices;
      if device.faultLevel == "UnHealthy" {
        if |device.faultCodes| != |device.faultLevels| || device.faultCodes == [] { return true; }
        for j := 0 to |device.faultCodes|
          invariant forall k | 0 <= k < j ::
                      device.faultLevels[k] == "NotHandleFault" || device.faultCodes[k] in RECOVERING_CODE_WHITELIST
        {
          if device.faultLevels[j] != "NotHandleFault" && device.faultCodes[j] !in RECOVERING_CODE_WHITELIST {
            return true;
          }
        }
      }
    }
    return false;
  }

  function KeepValid(ctx: Context, faults: seq<SwitchFault>): seq<SwitchFault> {
    if faults == [] then []
    else KeepValid(ctx, faults[..|faults| - 1])
           + if IsValid(ctx, faults[|faults| - 1]) then [faults[|faults| - 1]] else []
  }

  function ValidIn(ctx: Context, devices: seq<FaultDevice>): seq<SwitchFault> {
    if devices == [] then []
    else ValidIn(ctx, devices[..|devices| - 1]) + KeepValid(ctx, devices[|devices| - 1].switchFaults)
  }

  function ValidFaults(ctx: Context, node: NodeFault): seq<SwitchFault> {
    ValidIn(ctx, node.devices)
  }

  method AppendValid(ctx: Context, reported: seq<SwitchFault>, before: seq<SwitchFault>) returns (faults: seq<SwitchFault>)
    ensures faults == before + KeepValid(ctx, reported)
  {
    faults := before;
    for j := 0 to |reported|
      invariant faults == before + KeepValid(ctx, reported[..j])
    {
      assert reported[..j + 1][..j] == reported[..j];
      var f := reported[j];
      if f.faultCode == "" || !IsFaultCodeInWhitelist(f.faultCode) { continue; }
      var uniqueId := UniqueId(f);
      if uniqueId in ctx.seenNotReady { continue; }
      if uniqueId in ctx.processed { continue; }
      faults := faults + [f];
    }
    assert reported[..|reported|] == reported;
  }

  method ExtractValidSwitchFaults(ctx: Context, node: NodeFault) returns (has: bool, faults: seq<SwitchFault>)
    ensures faults == ValidFaults(ctx, node) && has == (faults != [])
  {
    faults := [];
    for i := 0 to |node.devices|
      invariant faults == ValidIn(ctx, node.devices[..i])
    {
      assert node.devices[..i + 1][..i] == node.devices[..i];
      faults := AppendValid(ctx, node.devices[i].switchFaults, faults);
    }
    assert node.devices[..|node.devices|] == node.devices;
    has := faults != [];
  }

  lemma {:induction false} KeepValidMembers(ctx: Context, faults: seq<SwitchFault>)
    ensures forall f :: f in KeepValid(ctx, faults) <==> f in faults && IsValid(ctx, f)
  {
    if faults != [] {
      assert faults == faults[..|faults| - 1] + [faults[|faults| - 1]];
      KeepValidMembers(ctx, faults[..|faults| - 1]);
    }
  }

  lemma {:induction false} ValidInMembers(ctx: Context, devices: seq<FaultDevice>)
    ensures forall f :: f in ValidIn(ctx, devices) <==>
              IsValid(ctx, f) && exists device | device in devices :: f in device.switchFaults
  {
    if devices != [] {
      var rest, last := devices[..|devices| - 1], devices[|devices| - 1];
      assert devices == rest + [last];
      ValidInMembers(ctx, rest);
      KeepValidMembers(ctx, last.switchFaults);
    }
  }

  // ----- the two-pass specification --------------------------------------------------------------------------------

  predicate BelongsTo(ctx: Context, node: NodeFault, i: InstanceId) {
    node.nodeIP in ctx.instanceOf && ctx.instanceOf[node.nodeIP] == i
  }

  /** First pass: instances with a critically unhealthy node anywhere in the message. */
  ghost predicate Blacklisted(ctx: Context, msg: seq<NodeFault>, i: InstanceId) {
    exists node | node in msg :: BelongsTo(ctx, node, i) && IsCritical(ctx, node)
  }

  /** Second pass: the others that have a valid fault somewhere. */
  ghost predicate Qualifies(ctx: Context, msg: seq<NodeFault>, i: InstanceId) {
    && !Blacklisted(ctx, msg, i)
    && exists node | node in msg :: BelongsTo(ctx, node, i) && ValidFaults(ctx, node) != []
  }

  /** The nodes of an instance with a valid fault, in message order. */
  function FaultyNodes(ctx: Context, msg: seq<NodeFault>, i: InstanceId): seq<NodeFault> {
    if msg == [] then []
    else
      var last := msg[|msg| - 1];
      FaultyNodes(ctx, msg[..|msg| - 1], i)
        + if BelongsTo(ctx, last, i) && ValidFaults(ctx, last) != [] then [last] else []
  }

  /** The faults that the pass gathers: those of every node met before its instance was found
      blacklisted. */
  ghost function Recorded(ctx: Context, msg: seq<NodeFault>): seq<SwitchFault> {
    if msg == [] then []
    else
      var last := msg[|msg| - 1];
      Recorded(ctx, msg[..|msg| - 1])
        + if last.nodeIP in ctx.instanceOf && !Blacklisted(ctx, msg, ctx.instanceOf[last.nodeIP])
          then ValidFaults(ctx, last) else []
  }

  /** What is then remembered as processed: nothing, unless some instance qualifies. */
  ghost function Remembered(ctx: Context, msg: seq<NodeFault>): seq<SwitchFault> {
    if exists i :: Qualifies(ctx, msg, i) then Recorded(ctx, msg) else []
  }

  lemma {:induction false} FaultyNodesMembers(ctx: Context, msg: seq<NodeFault>, i: InstanceId)
    ensures forall node :: node in FaultyNodes(ctx, msg, i) <==>
              node in msg && BelongsTo(ctx, node, i) && ValidFaults(ctx, node) != []
  {
    if msg != [] {
      assert msg == msg[..|msg| - 1] + [msg[|msg| - 1]];
      FaultyNodesMembers(ctx, msg[..|msg| - 1], i);
    }
  }

  /** What the pass has collected after some nodes. */
  ghost predicate Collected(ctx: Context, msg: seq<NodeFault>, blacklist: set<InstanceId>,
                            faulty: map<InstanceId, seq<NodeFault>>, recorded: seq<SwitchFault>) {
    && (forall i :: i in blacklist <==> Blacklisted(ctx, msg, i))
    && (forall i :: i in faulty <==> Qualifies(ctx, msg, i))
    && (forall i | i in faulty :: faulty[i] == FaultyNodes(ctx, msg, i))
    && recorded == Recorded(ctx, msg)
  }

  lemma CollectedCritical(ctx: Context, msg: seq<NodeFault>, blacklist: set<InstanceId>,
                          faulty: map<InstanceId, seq<NodeFault>>, recorded: seq<SwitchFault>, node: NodeFault, i: InstanceId)
    requires Collected(ctx, msg, blacklist, faulty, recorded) && BelongsTo(ctx, node, i) && IsCritical(ctx, node)
    ensures Collected(ctx, msg + [node], blacklist + {i}, faulty - {i}, recorded)
  {
    PassStep(ctx, msg, node);
  }

  lemma CollectedNothing(ctx: Context, msg: seq<NodeFault>, blacklist: set<InstanceId>,
                         faulty: map<InstanceId, seq<NodeFault>>, recorded: seq<SwitchFault>, node: NodeFault)
    requires Collected(ctx, msg, blacklist, faulty, recorded)
    requires node.nodeIP !in ctx.instanceOf
             || (!IsCritical(ctx, node) && (ValidFaults(ctx, node) == [] || ctx.instanceOf[node.nodeIP] in blacklist))
    ensures Collected(ctx, msg + [node], blacklist, faulty, recorded)
  {
    PassStep(ctx, msg, node);
  }

  lemma CollectedFaulty(ctx: Context, msg: seq<NodeFault>, blacklist: set<InstanceId>,
                        faulty: map<InstanceId, seq<NodeFault>>, recorded: seq<SwitchFault>, node: NodeFault, i: InstanceId)
    requires Collected(ctx, msg, blacklist, faulty, recorded) && BelongsTo(ctx, node, i)
    requires !IsCritical(ctx, node) && ValidFaults(ctx, node) != [] && i !in blacklist
    ensures Collected(ctx, msg + [node], blacklist, faulty[i := (if i in faulty then faulty[i] else []) + [node]],
                      recorded + ValidFaults(ctx, node))
  {
    PassStep(ctx, msg, node);
  }

  /** The single pass of the source, with its erase-on-blacklist. */
  method FindFaultyInstances(ctx: Context, msg: seq<NodeFault>)
    returns (faulty: map<InstanceId, seq<NodeFault>>, restart: bool, recorded: seq<SwitchFault>)
    ensures forall i :: i in faulty <==> Qualifies(ctx, msg, i)
    ensures forall i | i in faulty :: faulty[i] == FaultyNodes(ctx, msg, i)
    ensures restart <==> exists i :: Blacklisted(ctx, msg, i)
    ensures recorded == Recorded(ctx, msg)
  {
    faulty, recorded := map[], [];
    var blacklist: set<InstanceId> := {};
    for k := 0 to |msg|
      invariant Collected(ctx, msg[..k], blacklist, faulty, recorded)
    {
      var node := msg[k];
      assert msg[..k + 1] == msg[..k] + [node];
      if node.nodeIP !in ctx.instanceOf {
        CollectedNothing(ctx, msg[..k], blacklist, faulty, recorded, node);
        continue;
      }
      var i := ctx.instanceOf[node.nodeIP];
      var critical := HasCriticalFaultLevel(ctx, node);
      if node.faultLevel == "UnHealthy" && critical {
        CollectedCritical(ctx, msg[..k], blacklist, faulty, recorded, node, i);
        blacklist := blacklist + {i};
        faulty := faulty - {i};
        continue;
      }
      if i in blacklist {
        CollectedNothing(ctx, msg[..k], blacklist, faulty, recorded, node);
        continue;
      }
      var has, faults := ExtractValidSwitchFaults(ctx, node);
      if has {
        CollectedFaulty(ctx, msg[..k], blacklist, faulty, recorded, node, i);
        faulty := faulty[i := (if i in faulty then faulty[i] else []) + [node]];
        recorded := recorded + faults;
      } else {
        CollectedNothing(ctx, msg[..k], blacklist, faulty, recorded, node);
      }
    }
    assert msg[..|msg|] == msg;
    restart := blacklist != {};
    assert restart ==> exists i :: i in blacklist;
  }

  /** How one more node changes the two-pass answers. */
  lemma PassStep(ctx: Context, msg: seq<NodeFault>, node: NodeFault)
    ensures forall i :: Blacklisted(ctx, msg + [node], i) <==>
              Blacklisted(ctx, msg, i) || (BelongsTo(ctx, node, i) && IsCritical(ctx, node))
    ensures forall i :: Qualifies(ctx, msg + [node], i) <==>
              && !Blacklisted(ctx, msg + [node], i)
              && (Qualifies(ctx, msg, i) || (BelongsTo(ctx, node, i) && ValidFaults(ctx, node) != []))
    ensures forall i :: FaultyNodes(ctx, msg + [node], i) == FaultyNodes(ctx, msg, i)
              + if BelongsTo(ctx, node, i) && ValidFaults(ctx, node) != [] then [node] else []
    ensures forall i :: FaultyNodes(ctx, msg, i) == [] <==>
              !exists n | n in msg :: BelongsTo(ctx, n, i) && ValidFaults(ctx, n) != []
    ensures Recorded(ctx, msg + [node]) == Recorded(ctx, msg)
              + if node.nodeIP in ctx.instanceOf && !Blacklisted(ctx, msg + [node], ctx.instanceOf[node.nodeIP])
                then ValidFaults(ctx, node) else []
  {
    var all := msg + [node];
    assert all[..|msg|] == msg;
    forall i ensures FaultyNodes(ctx, msg, i) == [] <==>
                     !exists n | n in msg :: BelongsTo(ctx, n, i) && ValidFaults(ctx, n) != []
    {
      FaultyNodesMembers(ctx, msg, i);
      if FaultyNodes(ctx, msg, i) != [] {
        assert FaultyNodes(ctx, msg, i)[0] in FaultyNodes(ctx, msg, i);
      }
    }
  }

  // ----- what does, and what does not, depend on the order of the message -----------------------------------------

  /** Two messages with the same nodes, each as often, qualify the same instances, with the
      same faulty nodes up to order, and agree on the need to restart. */
  lemma OrderDoesNotMatter(ctx: Context, a: seq<NodeFault>, b: seq<NodeFault>)
    requires multiset(a) == multiset(b)
    ensures forall i :: Qualifies(ctx, a, i) <==> Qualifies(ctx, b, i)
    ensures forall i :: Blacklisted(ctx, a, i) <==> Blacklisted(ctx, b, i)
    ensures forall i :: multiset(FaultyNodes(ctx, a, i)) == multiset(FaultyNodes(ctx, b, i))
  {
    assert forall node :: node in a <==> node in multiset(a);
    assert forall node :: node in b <==> node in multiset(b);
    forall i ensures multiset(FaultyNodes(ctx, a, i)) == multiset(FaultyNodes(ctx, b, i)) {
      forall node ensures multiset(FaultyNodes(ctx, a, i))[node] == multiset(FaultyNodes(ctx, b, i))[node] {
        FaultyNodesCount(ctx, a, i, node);
        FaultyNodesCount(ctx, b, i, node);
      }
    }
  }

  lemma {:induction false} FaultyNodesCount(ctx: Context, msg: seq<NodeFault>, i: InstanceId, node: NodeFault)
    ensures multiset(FaultyNodes(ctx, msg, i))[node] ==
            if BelongsTo(ctx, node, i) && ValidFaults(ctx, node) != [] then multiset(msg)[node] else 0
  {
    if msg != [] {
      var rest, last := msg[..|msg| - 1], msg[|msg| - 1];
      assert msg == rest + [last];
      FaultyNodesCount(ctx, rest, i, node);
    }
  }

  ghost predicate RecordedAt(ctx: Context, msg: seq<NodeFault>, f: SwitchFault, k: nat)
    requires k < |msg|
  {
    && msg[k].nodeIP in ctx.instanceOf && f in ValidFaults(ctx, msg[k])
    && !Blacklisted(ctx, msg[..k + 1], ctx.instanceOf[msg[k].nodeIP])
  }

  lemma RecordedNext(ctx: Context, msg: seq<NodeFault>, f: SwitchFault, n: nat)
    requires n < |msg|
    ensures f in Recorded(ctx, msg[..n + 1]) <==> f in Recorded(ctx, msg[..n]) || RecordedAt(ctx, msg, f, n)
  {
    assert msg[..n + 1][..n] == msg[..n];
  }

  lemma {:induction false} RecordedUpTo(ctx: Context, msg: seq<NodeFault>, f: SwitchFault, n: nat)
    requires n <= |msg|
    ensures f in Recorded(ctx, msg[..n]) <==> exists k: nat | k < n :: RecordedAt(ctx, msg, f, k)
  {
    if n > 0 {
      RecordedUpTo(ctx, msg, f, n - 1);
      RecordedNext(ctx, msg, f, n - 1);
      var earlier := exists k: nat | k < n - 1 :: RecordedAt(ctx, msg, f, k);
      assert (exists k: nat | k < n :: RecordedAt(ctx, msg, f, k)) <==> earlier || RecordedAt(ctx, msg, f, n - 1);
    }
  }

  /** A fault is gathered exactly when it is valid on some node whose instance has no critical
      node up to and including that one. */
  lemma RecordedIff(ctx: Context, msg: seq<NodeFault>, f: SwitchFault)
    ensures f in Recorded(ctx, msg) <==> exists k: nat | k < |msg| :: RecordedAt(ctx, msg, f, k)
  {
    RecordedUpTo(ctx, msg, f, |msg|);
    assert msg[..|msg|] == msg;
  }

  /** And it is remembered exactly when, in addition, some instance qualifies. */
  lemma RememberedIff(ctx: Context, msg: seq<NodeFault>, f: SwitchFault)
    ensures f in Remembered(ctx, msg) <==>
            (exists i :: Qualifies(ctx, msg, i)) && exists k: nat | k < |msg| :: RecordedAt(ctx, msg, f, k)
  {
    RecordedIff(ctx, msg, f);
  }

  /** So every fault that helps an instance qualify is remembered. */
  lemma QualifyingFaultsAreRemembered(ctx: Context, msg: seq<NodeFault>, i: InstanceId, node: NodeFault, f: SwitchFault)
    requires Qualifies(ctx, msg, i) && node in msg && BelongsTo(ctx, node, i) && f in ValidFaults(ctx, node)
    ensures f in Remembered(ctx, msg)
  {
    var k :| 0 <= k < |msg| && msg[k] == node;
    assert forall n | n in msg[..k + 1] :: n in msg;
    assert RecordedAt(ctx, msg, f, k);
    RecordedIff(ctx, msg, f);
  }

  /** A fault of the first node, if that is not critical, is gathered, and remembered if any
      is. */
  lemma GatheredFirst(ctx: Context, msg: seq<NodeFault>, f: SwitchFault, other: InstanceId)
    requires msg != [] && msg[0].nodeIP in ctx.instanceOf && !IsCritical(ctx, msg[0]) && f in ValidFaults(ctx, msg[0])
    requires Qualifies(ctx, msg, other)
    ensures f in Remembered(ctx, msg)
  {
    assert msg[..1] == [msg[0]];
    assert RecordedAt(ctx, msg, f, 0);
    RecordedIff(ctx, msg, f);
  }

  /** One of the second node only, behind a critical node of the same instance, is not. */
  lemma NotGatheredSecond(ctx: Context, msg: seq<NodeFault>, f: SwitchFault, i: InstanceId)
    requires |msg| >= 2 && BelongsTo(ctx, msg[0], i) && BelongsTo(ctx, msg[1], i) && IsCritical(ctx, msg[0])
    requires forall k | 2 <= k < |msg| :: f !in ValidFaults(ctx, msg[k])
    ensures f !in Remembered(ctx, msg)
  {
    forall k: nat | k < |msg| ensures !RecordedAt(ctx, msg, f, k) {
      if k < 2 {
        assert msg[..k + 1][0] == msg[0];
        assert Blacklisted(ctx, msg[..k + 1], i);
      }
    }
    RecordedIff(ctx, msg, f);
  }

  lemma SwapTwo(x: NodeFault, y: NodeFault, rest: seq<NodeFault>)
    ensures multiset([x, y] + rest) == multiset([y, x] + rest)
  {
  }

  lemma SecondBlacklists(ctx: Context, msg: seq<NodeFault>, i: InstanceId)
    requires |msg| >= 2 && BelongsTo(ctx, msg[1], i) && IsCritical(ctx, msg[1])
    ensures !Qualifies(ctx, msg, i)
  {
  }

  /** What is remembered does depend on the order, as long as another instance qualifies: a
      valid fault of a node listed before the critical node of its instance is remembered
      without ever being acted on, and the same two nodes the other way round leave it
      unremembered. */
  lemma RememberedDependsOnOrder(ctx: Context, faulty: NodeFault, critical: NodeFault, rest: seq<NodeFault>, f: SwitchFault,
                                 i: InstanceId, other: InstanceId)
    requires BelongsTo(ctx, faulty, i) && BelongsTo(ctx, critical, i)
    requires IsCritical(ctx, critical) && !IsCritical(ctx, faulty) && f in ValidFaults(ctx, faulty)
    requires forall node | node in rest :: f !in ValidFaults(ctx, node)
    requires Qualifies(ctx, [faulty, critical] + rest, other)
    ensures multiset([faulty, critical] + rest) == multiset([critical, faulty] + rest)
    ensures !Qualifies(ctx, [faulty, critical] + rest, i)
    ensures f in Remembered(ctx, [faulty, critical] + rest)
    ensures f !in Remembered(ctx, [critical, faulty] + rest)
  {
    var a, b := [faulty, critical] + rest, [critical, faulty] + rest;
    SwapTwo(faulty, critical, rest);
    SecondBlacklists(ctx, a, i);
    GatheredFirst(ctx, a, f, other);
    forall k | 2 <= k < |b| ensures f !in ValidFaults(ctx, b[k]) { assert b[k] == rest[k - 2]; }
    NotGatheredSecond(ctx, b, f, i);
  }

  // ----- fault ids ------------------------------------------------------------------------------------------------

  lemma FirstBarSplits(a: string, b: string, c: string, d: string)
    requires a + "|" + b == c + "|" + d && '|' !in a && '|' !in c
    ensures a == c && b == d
  {
    var s, t := a + "|" + b, c + "|" + d;
    assert s[|a|] == '|' && t[|c|] == '|';
    assert forall k | 0 <= k < |a| :: s[k] == a[k] && a[k] in a;
    assert forall k | 0 <= k < |c| :: t[k] == c[k] && c[k] in c;
    assert |a| == |c|;
    assert a == s[..|a|] && c == t[..|c|];
    assert b == s[|a| + 1..] && d == t[|c| + 1..];
  }

  /** Separators in a text. */
  function Bars(s: string): nat {
    if s == "" then 0 else Bars(s[..|s| - 1]) + if s[|s| - 1] == '|' then 1 else 0
  }

  lemma {:induction false} BarsOfSum(s: string, t: string)
    ensures Bars(s + t) == Bars(s) + Bars(t)
    decreases |t|
  {
    if t == "" {
      assert s + t == s;
    } else {
      assert (s + t)[..|s + t| - 1] == s + t[..|t| - 1];
      BarsOfSum(s, t[..|t| - 1]);
    }
  }

  lemma {:induction false} NoBars(s: string)
    ensures Bars(s) == 0 <==> '|' !in s
  {
    if s != "" {
      assert s == s[..|s| - 1] + [s[|s| - 1]];
      NoBars(s[..|s| - 1]);
    }
  }

  predicate TailBarFree(f: SwitchFault) {
    '|' !in f.switchChipId && '|' !in f.switchPortId && '|' !in f.faultTime
  }

  predicate BarFree(f: SwitchFault) {
    '|' !in f.faultCode && TailBarFree(f)
  }

  lemma BarsOfId(f: SwitchFault)
    ensures Bars(UniqueId(f)) == 3 + Bars(f.faultCode) + Bars(f.switchChipId) + Bars(f.switchPortId) + Bars(f.faultTime)
    ensures BarFree(f) <==> Bars(UniqueId(f)) == 3
  {
    var a, b, c, d := f.faultCode, f.switchChipId, f.switchPortId, f.faultTime;
    assert "|"[..0] == "";
    assert Bars("|") == 1;
    BarsOfSum(a, "|");
    BarsOfSum(a + "|", b);
    BarsOfSum(a + "|" + b, "|");
    BarsOfSum(a + "|" + b + "|", c);
    BarsOfSum(a + "|" + b + "|" + c, "|");
    BarsOfSum(a + "|" + b + "|" + c + "|", d);
    NoBars(a);
    NoBars(b);
    NoBars(c);
    NoBars(d);
  }

  lemma SplitAtBar(s: string) returns (before: string, after: string)
    requires '|' in s
    ensures s == before + "|" + after && |before| < |s|
  {
    var i :| 0 <= i < |s| && s[i] == '|';
    before, after := s[..i], s[i + 1..];
  }

  /** A separator behind the code: a different fault with the same id and the same code. */
  lemma CollisionBehindCode(f: SwitchFault) returns (g: SwitchFault)
    requires !TailBarFree(f)
    ensures g != f && UniqueId(g) == UniqueId(f) && g.faultCode == f.faultCode
  {
    if '|' in f.switchChipId {
      var a, b := SplitAtBar(f.switchChipId);
      g := f.(switchChipId := a, switchPortId := b + "|" + f.switchPortId);
      assert UniqueId(g) == UniqueId(f);
    } else if '|' in f.switchPortId {
      var a, b := SplitAtBar(f.switchPortId);
      g := f.(switchPortId := a, faultTime := b + "|" + f.faultTime);
      assert UniqueId(g) == UniqueId(f);
    } else {
      var a, b := SplitAtBar(f.faultTime);
      g := f.(switchPortId := f.switchPortId + "|" + a, faultTime := b);
      assert |g.switchPortId| > |f.switchPortId|;
      assert UniqueId(g) == UniqueId(f);
    }
  }

  /** A separator in the code: a different fault with the same id whose code stops there. */
  lemma CollisionInCode(f: SwitchFault, i: nat) returns (g: SwitchFault)
    requires i < |f.faultCode| && f.faultCode[i] == '|'
    ensures g != f && UniqueId(g) == UniqueId(f) && g.faultCode == f.faultCode[..i]
  {
    var a, b := f.faultCode[..i], f.faultCode[i + 1..];
    assert f.faultCode == a + "|" + b;
    g := SwitchFault(a, b, f.switchChipId + "|" + f.switchPortId, f.faultTime);
    assert UniqueId(g) == UniqueId(f);
  }

  /** The id of a fault is its own, shared with no other fault, if and only if none of its four
      fields holds the separator. */
  lemma IdIsUniqueIff(f: SwitchFault)
    ensures (forall g :: UniqueId(g) == UniqueId(f) ==> g == f) <==> BarFree(f)
  {
    if BarFree(f) {
      forall g | UniqueId(g) == UniqueId(f) ensures g == f {
        BarsOfId(f);
        BarsOfId(g);
        IdIsCodeAndTail(f);
        IdIsCodeAndTail(g);
        FirstBarSplits(f.faultCode, Tail(f), g.faultCode, Tail(g));
        EqualTails(f, g);
      }
    } else if TailBarFree(f) {
      var i :| 0 <= i < |f.faultCode| && f.faultCode[i] == '|';
      var g := CollisionInCode(f, i);
    } else {
      var g := CollisionBehindCode(f);
    }
  }

  /** The text behind the code and its separator. */
  function Tail(f: SwitchFault): string {
    f.switchChipId + "|" + (f.switchPortId + "|" + f.faultTime)
  }

  lemma IdIsCodeAndTail(f: SwitchFault)
    ensures UniqueId(f) == f.faultCode + "|" + Tail(f)
  {
  }

  lemma TailBars(f: SwitchFault)
    ensures TailBarFree(f) <==> Bars(f.switchChipId) + Bars(f.switchPortId) + Bars(f.faultTime) == 0
  {
    NoBars(f.switchChipId);
    NoBars(f.switchPortId);
    NoBars(f.faultTime);
  }

  lemma EqualTails(f: SwitchFault, g: SwitchFault)
    requires TailBarFree(f) && TailBarFree(g) && Tail(f) == Tail(g) && f.faultCode == g.faultCode
    ensures f == g
  {
    FirstBarSplits(f.switchChipId, f.switchPortId + "|" + f.faultTime, g.switchChipId, g.switchPortId + "|" + g.faultTime);
    FirstBarSplits(f.switchPortId, f.faultTime, g.switchPortId, g.faultTime);
  }

  lemma SameCodeSameFault(f: SwitchFault, g: SwitchFault)
    requires TailBarFree(f) && UniqueId(f) == UniqueId(g) && f.faultCode == g.faultCode
    ensures f == g
  {
    BarsOfId(f);
    BarsOfId(g);
    TailBars(f);
    TailBars(g);
    IdIsCodeAndTail(f);
    IdIsCodeAndTail(g);
    var n := |f.faultCode| + 1;
    assert UniqueId(f)[n..] == Tail(f) && UniqueId(g)[n..] == Tail(g);
    EqualTails(f, g);
  }

  lemma LongerCodeHasMoreBars(f: SwitchFault, g: SwitchFault)
    requires UniqueId(f) == UniqueId(g) && |f.faultCode| < |g.faultCode|
    ensures Bars(g.faultCode) > Bars(f.faultCode)
  {
    var n, code, id := |f.faultCode|, g.faultCode, UniqueId(f);
    IdIsCodeAndTail(f);
    IdIsCodeAndTail(g);
    assert id[..n] == f.faultCode && id[n] == '|' && id[..|code|] == code;
    assert code == f.faultCode + "|" + code[n + 1..];
    assert "|"[..0] == "" && Bars("|") == 1;
    BarsOfSum(f.faultCode, "|");
    BarsOfSum(f.faultCode + "|", code[n + 1..]);
  }

  /** A code that goes beyond that of a fault with no separator behind its code leaves too few
      separators for the other fields. */
  lemma CodeNotLonger(f: SwitchFault, g: SwitchFault)
    requires TailBarFree(f) && UniqueId(f) == UniqueId(g)
    ensures |g.faultCode| <= |f.faultCode|
  {
    BarsOfId(f);
    BarsOfId(g);
    TailBars(f);
    if |f.faultCode| < |g.faultCode| {
      LongerCodeHasMoreBars(f, g);
      assert false;
    }
  }

  /** A shorter code is a part of the fault's code up to a separator in it. */
  lemma CodeShorter(f: SwitchFault, g: SwitchFault)
    requires UniqueId(f) == UniqueId(g) && |g.faultCode| < |f.faultCode|
    ensures f.faultCode[|g.faultCode|] == '|' && g.faultCode == f.faultCode[..|g.faultCode|]
  {
    var n, id := |g.faultCode|, UniqueId(f);
    assert id[..|f.faultCode|] == f.faultCode && id[..n] == g.faultCode && UniqueId(g)[n] == '|';
    assert id[n] == f.faultCode[n] && id[..n] == f.faultCode[..n];
  }

  /** No part of the code up to a separator is on the whitelist by itself. */
  predicate CodeIsWhole(code: string) {
    forall i | 0 <= i < |code| && code[i] == '|' :: !IsFaultCodeInWhitelist(code[..i])
  }

  /** Among the faults that are looked at at all, those with a code that contains a whitelisted
      one, the id of a fault is its own if and only if no field behind the code holds the
      separator and the code cannot be cut at one. */
  lemma RecordedIdIsUniqueIff(f: SwitchFault)
    requires IsRecorded(f)
    ensures (forall g | IsRecorded(g) :: UniqueId(g) == UniqueId(f) ==> g == f) <==>
            TailBarFree(f) && CodeIsWhole(f.faultCode)
  {
    if TailBarFree(f) && CodeIsWhole(f.faultCode) {
      forall g | IsRecorded(g) && UniqueId(g) == UniqueId(f) ensures g == f {
        CodeNotLonger(f, g);
        CodeNotShorter(f, g);
        SameCodeSameFault(f, g);
      }
    } else if !TailBarFree(f) {
      var g := CollisionBehindCode(f);
      assert IsRecorded(g);
    } else {
      var i :| 0 <= i < |f.faultCode| && f.faultCode[i] == '|' && IsFaultCodeInWhitelist(f.faultCode[..i]);
      var g := CollisionInCode(f, i);
      WhitelistedNotEmpty(g.faultCode);
      assert IsRecorded(g);
    }
  }

  lemma CodeNotShorter(f: SwitchFault, g: SwitchFault)
    requires TailBarFree(f) && CodeIsWhole(f.faultCode) && IsRecorded(g) && UniqueId(g) == UniqueId(f)
    requires |g.faultCode| <= |f.faultCode|
    ensures g.faultCode == f.faultCode
  {
    if |g.faultCode| == |f.faultCode| {
      assert UniqueId(f)[..|f.faultCode|] == f.faultCode && UniqueId(g)[..|g.faultCode|] == g.faultCode;
    } else {
      CodeShorter(f, g);
      assert false;
    }
  }

  lemma WhitelistedNotEmpty(code: string)
    requires IsFaultCodeInWhitelist(code)
    ensures code != ""
  {
    var listed :| listed in FAULT_CODE_WHITELIST && Contains(code, listed);
    assert listed == "[0x08520003,na,L2,na]";
    var i :| 0 <= i <= |code| && StartsAt(code, listed, i);
  }

  /** At an input: two whitelisted faults on different ports share an id, and once the first is
      processed the second is no longer valid. */
  lemma SeparatorHidesFault(ctx: Context)
    ensures var code := "[0x08520003,na,L2,na]";
            var f, g := SwitchFault(code, "1|2", "3", "t"), SwitchFault(code, "1", "2|3", "t");
            && IsRecorded(f) && IsRecorded(g) && f != g && UniqueId(f) == UniqueId(g)
            && (UniqueId(f) in ctx.processed ==> !IsValid(ctx, g))
  {
    var code := "[0x08520003,na,L2,na]";
    assert StartsAt(code, code, 0);
    assert Contains(code, code);
    var f, g := SwitchFault(code, "1|2", "3", "t"), SwitchFault(code, "1", "2|3", "t");
    assert UniqueId(f) == code + "|1|2|3|t" && UniqueId(g) == code + "|1|2|3|t";
    assert |f.switchChipId| != |g.switchChipId|;
  }
}
