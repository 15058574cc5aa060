/** Classification told on the fields of the message alone: which nodes rule their instance
    out, which faults qualify one, and when a restart is asked for. */
module FaultCriteria {
  import opened FaultClassify

  /** An unhealthy device with nothing but faults of the lowest level and those that a running
      recovery causes itself. */
  predicate OnlyExpectedCodes(device: FaultDevice) {
    && 0 < |device.faultCodes| == |device.faultLevels|
    && forall k | 0 <= k < |device.faultCodes| ::
         || device.faultLevels[k] == "NotHandleFault"
         || device.faultCodes[k] in ["80CB8009", "80CB800A", "80E01801", "80E18404", "81078603"]
  }

  /** What a recovery in progress puts up with in an unhealthy node. */
  predicate ExplainedByRecovery(node: NodeFault) {
    && node.devices != []
    && forall device | device in node.devices :: device.faultLevel == "UnHealthy" ==> OnlyExpectedCodes(device)
  }

  ghost predicate HasUnhealthyNode(ctx: Context, msg: seq<NodeFault>, i: InstanceId) {
    exists node | node in msg :: BelongsTo(ctx, node, i) && node.faultLevel == "UnHealthy"
  }

  lemma CriticalDevice(device: FaultDevice)
    ensures DeviceIsCritical(device) <==> device.faultLevel == "UnHealthy" && !OnlyExpectedCodes(device)
  {
    assert RECOVERING_CODE_WHITELIST == {"80CB8009", "80CB800A", "80E01801", "80E18404", "81078603"};
  }

  /** An instance is ruled out exactly by an unhealthy node of its own, unless some recovery is
      running that explains all of it. */
  lemma BlacklistedIff(ctx: Context, msg: seq<NodeFault>, i: InstanceId)
    ensures Blacklisted(ctx, msg, i) <==>
            exists node | node in msg ::
              BelongsTo(ctx, node, i) && node.faultLevel == "UnHealthy" && !(ctx.recovering && ExplainedByRecovery(node))
  {
    forall device ensures DeviceIsCritical(device) <==> device.faultLevel == "UnHealthy" && !OnlyExpectedCodes(device) {
      CriticalDevice(device);
    }
    forall node ensures IsCritical(ctx, node) <==>
                        node.faultLevel == "UnHealthy" && !(ctx.recovering && ExplainedByRecovery(node))
    {
    }
  }

  /** While no recovery runs, a restart is asked for exactly when a node of a known instance is
      unhealthy, and the instances without unhealthy nodes are the ones not ruled out. */
  lemma RestartWithoutRecoveryIff(ctx: Context, msg: seq<NodeFault>)
    requires !ctx.recovering
    ensures (exists i :: Blacklisted(ctx, msg, i)) <==>
            exists node | node in msg :: node.nodeIP in ctx.instanceOf && node.faultLevel == "UnHealthy"
    ensures forall i :: Blacklisted(ctx, msg, i) <==> HasUnhealthyNode(ctx, msg, i)
    ensures forall i | HasUnhealthyNode(ctx, msg, i) :: !Qualifies(ctx, msg, i)
  {
    forall i ensures Blacklisted(ctx, msg, i) <==> HasUnhealthyNode(ctx, msg, i) { BlacklistedIff(ctx, msg, i); }
    if node :| node in msg && node.nodeIP in ctx.instanceOf && node.faultLevel == "UnHealthy" {
      assert BelongsTo(ctx, node, ctx.instanceOf[node.nodeIP]);
      assert HasUnhealthyNode(ctx, msg, ctx.instanceOf[node.nodeIP]);
    }
  }

  /** No node of any other level rules its instance out, recovery or not. */
  lemma OtherLevelsAreHarmless(ctx: Context, msg: seq<NodeFault>, i: InstanceId)
    requires !HasUnhealthyNode(ctx, msg, i)
    ensures !Blacklisted(ctx, msg, i)
  {
    BlacklistedIff(ctx, msg, i);
  }

  /** During a recovery an instance is spared exactly when each of its unhealthy nodes lists
      devices, and each unhealthy device as many codes as levels, at least one, and only codes of
      the lowest level or the five expected ones. */
  lemma SparedDuringRecoveryIff(ctx: Context, msg: seq<NodeFault>, i: InstanceId)
    requires ctx.recovering
    ensures !Blacklisted(ctx, msg, i) <==>
            forall node | node in msg && BelongsTo(ctx, node, i) && node.faultLevel == "UnHealthy" ::
              && node.devices != []
              && forall device | device in node.devices && device.faultLevel == "UnHealthy" ::
                   && 0 < |device.faultCodes| == |device.faultLevels|
                   && forall k | 0 <= k < |device.faultCodes| ::
                        || device.faultLevels[k] == "NotHandleFault"
                        || device.faultCodes[k] in ["80CB8009", "80CB800A", "80E01801", "80E18404", "81078603"]
  {
    BlacklistedIff(ctx, msg, i);
  }

  // ----- faults ------------------------------------------------------------------------------------------------------

  /** The code of the one switch fault that is acted on occurs in the given one. */
  ghost predicate MentionsSwitchFault(code: string) {
    exists before, after :: code == before + "[0x08520003,na,L2,na]" + after
  }

  /** A fault to act on, not met before in this or another state of the controller. */
  ghost predicate IsFresh(ctx: Context, f: SwitchFault) {
    var id := f.faultCode + "|" + f.switchChipId + "|" + f.switchPortId + "|" + f.faultTime;
    MentionsSwitchFault(f.faultCode) && id !in ctx.processed && id !in ctx.seenNotReady
  }

  lemma ContainsIff(s: string, part: string)
    ensures Contains(s, part) <==> exists before, after :: s == before + part + after
  {
    if before, after :| s == before + part + after {
      assert StartsAt(s, part, |before|);
    }
    if k :| 0 <= k <= |s| && StartsAt(s, part, k) {
      assert s == s[..k] + part + s[k + |part|..];
    }
  }

  lemma WhitelistedIff(code: string)
    ensures IsFaultCodeInWhitelist(code) <==> MentionsSwitchFault(code)
  {
    ContainsIff(code, "[0x08520003,na,L2,na]");
    assert IsFaultCodeInWhitelist(code) <==> Contains(code, "[0x08520003,na,L2,na]");
  }

  lemma FreshIsValid(ctx: Context, f: SwitchFault)
    ensures IsValid(ctx, f) <==> IsFresh(ctx, f)
  {
    WhitelistedIff(f.faultCode);
  }

  /** An instance is recovered exactly when no node rules it out and some device of one of its
      nodes has a fresh switch fault. */
  lemma QualifiesIff(ctx: Context, msg: seq<NodeFault>, i: InstanceId)
    ensures Qualifies(ctx, msg, i) <==>
            && (forall node | node in msg && BelongsTo(ctx, node, i) && node.faultLevel == "UnHealthy" ::
                  ctx.recovering && ExplainedByRecovery(node))
            && exists node, device, f ::
                 && node in msg && BelongsTo(ctx, node, i)
                 && device in node.devices && f in device.switchFaults && IsFresh(ctx, f)
  {
    BlacklistedIff(ctx, msg, i);
    forall node ensures ValidFaults(ctx, node) != [] <==>
                        exists device, f :: device in node.devices && f in device.switchFaults && IsFresh(ctx, f)
    {
      HasFresh(ctx, node);
    }
  }

  lemma HasFresh(ctx: Context, node: NodeFault)
    ensures ValidFaults(ctx, node) != [] <==>
            exists device, f :: device in node.devices && f in device.switchFaults && IsFresh(ctx, f)
  {
    ValidInMembers(ctx, node.devices);
    if ValidFaults(ctx, node) != [] {
      var f := ValidFaults(ctx, node)[0];
      assert f in ValidFaults(ctx, node);
      FreshIsValid(ctx, f);
    }
    if device, f :| device in node.devices && f in device.switchFaults && IsFresh(ctx, f) {
      FreshIsValid(ctx, f);
      assert f in ValidFaults(ctx, node);
    }
  }
}
