/** Which faults of a message are remembered whatever the order of its nodes, and which only in
    some order. */
module FaultOrder {
  import opened FaultClassify

  predicate IsKnown(ctx: Context, node: NodeFault) {
    node.nodeIP in ctx.instanceOf
  }

  /** A node of a known instance that is not critical itself has the fault. */
  ghost predicate OnHealthyNode(ctx: Context, msg: seq<NodeFault>, f: SwitchFault) {
    exists node | node in msg :: IsKnown(ctx, node) && !IsCritical(ctx, node) && f in ValidFaults(ctx, node)
  }

  /** A node of a known instance that has no critical node in the message has the fault. */
  ghost predicate OnHealthyInstance(ctx: Context, msg: seq<NodeFault>, f: SwitchFault) {
    exists node | node in msg ::
      IsKnown(ctx, node) && !Blacklisted(ctx, msg, ctx.instanceOf[node.nodeIP]) && f in ValidFaults(ctx, node)
  }

  // ----- two telling orders -----------------------------------------------------------------------------------

  function CriticalOnly(ctx: Context, msg: seq<NodeFault>, critical: bool): seq<NodeFault> {
    if msg == [] then []
    else
      CriticalOnly(ctx, msg[..|msg| - 1], critical)
      + if IsCritical(ctx, msg[|msg| - 1]) == critical then [msg[|msg| - 1]] else []
  }

  lemma {:induction false} CriticalOnlyMembers(ctx: Context, msg: seq<NodeFault>, critical: bool)
    ensures forall node :: node in CriticalOnly(ctx, msg, critical) <==> node in msg && IsCritical(ctx, node) == critical
  {
    if msg != [] {
      assert msg == msg[..|msg| - 1] + [msg[|msg| - 1]];
      CriticalOnlyMembers(ctx, msg[..|msg| - 1], critical);
    }
  }

  function CriticalFirst(ctx: Context, msg: seq<NodeFault>): seq<NodeFault> {
    CriticalOnly(ctx, msg, true) + CriticalOnly(ctx, msg, false)
  }

  lemma {:induction false} CriticalFirstPermutes(ctx: Context, msg: seq<NodeFault>)
    ensures multiset(CriticalFirst(ctx, msg)) == multiset(msg)
  {
    if msg != [] {
      CriticalFirstPermutes(ctx, msg[..|msg| - 1]);
      assert msg == msg[..|msg| - 1] + [msg[|msg| - 1]];
    }
  }

  /** With the critical nodes first, only faults of instances without one are remembered. */
  lemma CriticalFirstRemembersLeast(ctx: Context, msg: seq<NodeFault>, f: SwitchFault)
    requires f in Recorded(ctx, CriticalFirst(ctx, msg))
    ensures OnHealthyInstance(ctx, msg, f)
  {
    var first, all := CriticalOnly(ctx, msg, true), CriticalFirst(ctx, msg);
    CriticalOnlyMembers(ctx, msg, true);
    CriticalOnlyMembers(ctx, msg, false);
    RecordedIff(ctx, all, f);
    var k: nat :| k < |all| && RecordedAt(ctx, all, f, k);
    var node, i := all[k], ctx.instanceOf[all[k].nodeIP];
    assert node in all[..k + 1];
    assert BelongsTo(ctx, node, i) && !IsCritical(ctx, node);
    assert forall q | 0 <= q < |first| :: all[q] == first[q] && first[q] in first;
    assert k >= |first|;
    forall other | other in msg ensures !(BelongsTo(ctx, other, i) && IsCritical(ctx, other)) {
      if IsCritical(ctx, other) { assert other in first && other in all[..k + 1]; }
    }
    assert node in msg;
  }

  /** With a healthy node first, its faults are remembered. */
  lemma HealthyFirst(ctx: Context, msg: seq<NodeFault>, node: NodeFault, f: SwitchFault) returns (other: seq<NodeFault>)
    requires node in msg && IsKnown(ctx, node) && !IsCritical(ctx, node) && f in ValidFaults(ctx, node)
    ensures multiset(other) == multiset(msg) && f in Recorded(ctx, other)
  {
    var j :| 0 <= j < |msg| && msg[j] == node;
    other := [node] + (msg[..j] + msg[j + 1..]);
    assert msg == msg[..j] + [node] + msg[j + 1..];
    assert other[..1] == [node];
    assert RecordedAt(ctx, other, f, 0);
    RecordedIff(ctx, other, f);
  }

  // ----- the exact conditions ---------------------------------------------------------------------------------

  ghost predicate Permutes(other: seq<NodeFault>, msg: seq<NodeFault>) {
    multiset(other) == multiset(msg)
  }

  lemma PermutedMembers(other: seq<NodeFault>, msg: seq<NodeFault>)
    requires Permutes(other, msg)
    ensures forall node :: node in other <==> node in msg
  {
    assert forall node :: node in other <==> node in multiset(other);
    assert forall node :: node in msg <==> node in multiset(msg);
  }

  lemma QualifyingInEveryOrder(ctx: Context, other: seq<NodeFault>, msg: seq<NodeFault>)
    requires Permutes(other, msg)
    ensures (exists i :: Qualifies(ctx, other, i)) <==> exists i :: Qualifies(ctx, msg, i)
  {
    OrderDoesNotMatter(ctx, other, msg);
  }

  /** A healthy instance with a valid fault qualifies. */
  lemma HealthyInstanceQualifies(ctx: Context, msg: seq<NodeFault>, f: SwitchFault)
    requires OnHealthyInstance(ctx, msg, f)
    ensures exists i :: Qualifies(ctx, msg, i)
  {
    var node :| node in msg && IsKnown(ctx, node) && !Blacklisted(ctx, msg, ctx.instanceOf[node.nodeIP])
                && f in ValidFaults(ctx, node);
    assert BelongsTo(ctx, node, ctx.instanceOf[node.nodeIP]);
    assert Qualifies(ctx, msg, ctx.instanceOf[node.nodeIP]);
  }

  lemma HealthyInstanceRecorded(ctx: Context, msg: seq<NodeFault>, f: SwitchFault, other: seq<NodeFault>)
    requires OnHealthyInstance(ctx, msg, f) && Permutes(other, msg)
    ensures f in Recorded(ctx, other)
  {
    var node :| node in msg && IsKnown(ctx, node) && !Blacklisted(ctx, msg, ctx.instanceOf[node.nodeIP])
                && f in ValidFaults(ctx, node);
    PermutedMembers(other, msg);
    var k :| 0 <= k < |other| && other[k] == node;
    assert forall n | n in other[..k + 1] :: n in other;
    assert RecordedAt(ctx, other, f, k);
    RecordedIff(ctx, other, f);
  }

  /** A fault is remembered in every order of the message if and only if it is on an instance
      without critical node. */
  lemma RememberedInEveryOrderIff(ctx: Context, msg: seq<NodeFault>, f: SwitchFault)
    ensures (forall other | Permutes(other, msg) :: f in Remembered(ctx, other)) <==> OnHealthyInstance(ctx, msg, f)
  {
    if forall other | Permutes(other, msg) :: f in Remembered(ctx, other) {
      CriticalFirstPermutes(ctx, msg);
      assert Permutes(CriticalFirst(ctx, msg), msg);
      CriticalFirstRemembersLeast(ctx, msg, f);
    }
    if OnHealthyInstance(ctx, msg, f) {
      HealthyInstanceQualifies(ctx, msg, f);
      forall other | Permutes(other, msg) ensures f in Remembered(ctx, other) {
        HealthyInstanceRecorded(ctx, msg, f, other);
        QualifyingInEveryOrder(ctx, other, msg);
      }
    }
  }

  /** It is remembered in some order if and only if it is on a healthy node and some instance
      of the message qualifies. */
  lemma RememberedInSomeOrderIff(ctx: Context, msg: seq<NodeFault>, f: SwitchFault)
    ensures (exists other | Permutes(other, msg) :: f in Remembered(ctx, other)) <==>
            OnHealthyNode(ctx, msg, f) && exists i :: Qualifies(ctx, msg, i)
  {
    if other: seq<NodeFault> :| Permutes(other, msg) && f in Remembered(ctx, other) {
      QualifyingInEveryOrder(ctx, other, msg);
      RecordedOnHealthyNode(ctx, msg, f, other);
    }
    if OnHealthyNode(ctx, msg, f) && exists i :: Qualifies(ctx, msg, i) {
      var node :| node in msg && IsKnown(ctx, node) && !IsCritical(ctx, node) && f in ValidFaults(ctx, node);
      var other := HealthyFirst(ctx, msg, node, f);
      assert Permutes(other, msg);
      QualifyingInEveryOrder(ctx, other, msg);
    }
  }

  lemma RecordedOnHealthyNode(ctx: Context, msg: seq<NodeFault>, f: SwitchFault, other: seq<NodeFault>)
    requires Permutes(other, msg) && f in Recorded(ctx, other)
    ensures OnHealthyNode(ctx, msg, f)
  {
    PermutedMembers(other, msg);
    RecordedIff(ctx, other, f);
    var k: nat :| k < |other| && RecordedAt(ctx, other, f, k);
    assert other[k] in other[..k + 1] && other[k] in msg;
    assert BelongsTo(ctx, other[k], ctx.instanceOf[other[k].nodeIP]);
  }

  ghost predicate OrderIrrelevant(ctx: Context, msg: seq<NodeFault>) {
    forall a, b, f | Permutes(a, msg) && Permutes(b, msg) :: f in Remembered(ctx, a) ==> f in Remembered(ctx, b)
  }

  /** So the order of a message is irrelevant to what is remembered of it if and only if no
      instance qualifies, or every fault of a healthy node is also on an instance without
      critical node. */
  lemma OrderIrrelevantIff(ctx: Context, msg: seq<NodeFault>)
    ensures OrderIrrelevant(ctx, msg) <==>
            || !(exists i :: Qualifies(ctx, msg, i))
            || forall f :: OnHealthyNode(ctx, msg, f) ==> OnHealthyInstance(ctx, msg, f)
  {
    if OrderIrrelevant(ctx, msg) && exists i :: Qualifies(ctx, msg, i) {
      forall f | OnHealthyNode(ctx, msg, f) ensures OnHealthyInstance(ctx, msg, f) {
        RememberedInSomeOrderIff(ctx, msg, f);
        var a :| Permutes(a, msg) && f in Remembered(ctx, a);
        assert forall b | Permutes(b, msg) :: f in Remembered(ctx, b);
        RememberedInEveryOrderIff(ctx, msg, f);
      }
    }
    if !(exists i :: Qualifies(ctx, msg, i)) || forall f :: OnHealthyNode(ctx, msg, f) ==> OnHealthyInstance(ctx, msg, f) {
      forall a, b, f | Permutes(a, msg) && Permutes(b, msg) && f in Remembered(ctx, a) ensures f in Remembered(ctx, b) {
        RememberedInSomeOrderIff(ctx, msg, f);
        RememberedInEveryOrderIff(ctx, msg, f);
      }
    }
  }
}
