/** The scaling code of `FaultManager` as it runs: loops that edit a `NodeStatus` object,
    proved to have exactly the effect of the functions of module `Scaling`. */
module FaultManagement {
  import opened Basics
  import opened Sequences
  import opened Cluster
  import opened Scaling
  import opened Rounds

  class FaultManager {
    const nodeStatus: NodeStatus

    constructor (nodeStatus: NodeStatus)
      ensures this.nodeStatus == nodeStatus
    {
      this.nodeStatus := nodeStatus;
    }

    method BuildGroupUpdateMsg(g: GroupId, mode: Mode, changes: seq<Change>) returns (msg: GroupUpdateMsg)
      ensures msg == BuildMsg(GetGroup(nodeStatus.View(), g), mode, changes)
    {
      var group := GetGroup(nodeStatus.View(), g);
      var pNodes, dNodes := group.prefill, group.decode;
      var hasPrefill, hasDecode := false, false;
      for i := 0 to |changes|
        invariant GroupUpdateMsg(pNodes, dNodes, hasPrefill, hasDecode) == BuildMsg(group, mode, changes[..i])
      {
        assert changes[..i + 1][..i] == changes[..i];
        var nodeId, role := changes[i].id, changes[i].role;
        if role == Decode {
          dNodes := if mode == ScaleIn then RemoveFirst(dNodes, nodeId) else AppendNew(dNodes, nodeId);
          hasDecode := true;
        } else if role == Prefill {
          pNodes := if mode == ScaleIn then RemoveFirst(pNodes, nodeId) else AppendNew(pNodes, nodeId);
          hasPrefill := true;
        }
      }
      assert changes[..|changes|] == changes;
      msg := GroupUpdateMsg(pNodes, dNodes, hasPrefill, hasDecode);
    }

    /** Answers whether the node is unscalable, and if so drops it from its list. */
    method IsAllPeersUnAvailable(id: Id, node: NodeInfo, msg: GroupUpdateMsg) returns (unavailable: bool, msg': GroupUpdateMsg)
      requires id in nodeStatus.nodes && nodeStatus.nodes[id] == node
      ensures unavailable == Unscalable(nodeStatus.View(), node, msg)
      ensures msg' == PruneOne(nodeStatus.View(), msg, id)
    {
      msg' := msg;
      var group := GetGroup(nodeStatus.View(), node.groupId);
      if group.prefill == [] && group.decode == [] { return false, msg; }
      unavailable := true;
      for i := 0 to |node.peers|
        invariant unavailable <==> AllPeersGone(nodeStatus.View(), node.peers[..i])
        invariant unavailable
      {
        var peer := node.peers[i];
        if peer in nodeStatus.nodes && nodeStatus.nodes[peer].deleteTime == 0 {
          unavailable := false;
          assert peer in node.peers;
          break;
        }
      }
      assert unavailable <==> AllPeersGone(nodeStatus.View(), node.peers);
      if unavailable && node.role == Decode {
        if msg.hasPrefillNode {
          unavailable := false;
        } else {
          msg' := msg.(dNodes := RemoveFirst(msg.dNodes, id));
        }
      }
      if unavailable && node.role == Prefill {
        if msg.hasDecodeNode {
          unavailable := false;
        } else {
          msg' := msg.(pNodes := RemoveFirst(msg.pNodes, id));
        }
      }
    }

    method FilterUnscalableInstances(changes: seq<Change>, msg: GroupUpdateMsg) returns (pruned: GroupUpdateMsg)
      ensures pruned == Prune(nodeStatus.View(), msg, changes)
    {
      pruned := msg;
      for i := 0 to |changes|
        invariant pruned == Prune(nodeStatus.View(), msg, changes[..i])
      {
        assert changes[..i + 1][..i] == changes[..i];
        if changes[i].id in nodeStatus.nodes {
          var _, shorter := IsAllPeersUnAvailable(changes[i].id, nodeStatus.nodes[changes[i].id], pruned);
          pruned := shorter;
        }
      }
      assert changes[..|changes|] == changes;
    }

    method UpdateGroupRoleStateAndPeers(g: GroupId, msg: GroupUpdateMsg)
      modifies nodeStatus
      ensures nodeStatus.View() == Publish(old(nodeStatus.View()), g, msg)
    {
      nodeStatus.UpdateGroup(g, Group(msg.pNodes, msg.dNodes));
      ghost var listed := nodeStatus.View();
      if msg.hasDecodeNode { nodeStatus.LinkNodes(msg.pNodes, msg.dNodes); }
      if msg.hasPrefillNode { nodeStatus.LinkNodes(msg.dNodes, msg.pNodes); }
      assert nodeStatus.View() == listed.(nodes := nodeStatus.nodes);
    }

    /** `ScalingUpdateAllGroups`. When the rank table changes while a scale-out waits for old
        processes to exit, it stops after `interruptAfter` groups (0 for never). */
    method ScalingUpdateAllGroups(changed: Changes, mode: Mode, interruptAfter: nat) returns (order: seq<GroupId>)
      modifies nodeStatus
      ensures NoDup(order) && (forall g | g in order :: g in changed)
      ensures mode == ScaleIn ==> Enumerates(order, changed.Keys)
      ensures interruptAfter == 0 || |order| < interruptAfter ==> Enumerates(order, changed.Keys)
      ensures nodeStatus.View() == UpdateGroups(old(nodeStatus.View()), mode, changed, order)
    {
      order := [];
      var left := changed.Keys;
      while left != {}
        invariant left <= changed.Keys && NoDup(order)
        invariant forall g :: g in order <==> g in changed.Keys - left
        invariant nodeStatus.View() == UpdateGroups(old(nodeStatus.View()), mode, changed, order)
        decreases left
      {
        var g :| g in left;
        var msg := BuildGroupUpdateMsg(g, mode, changed[g]);
        if mode == ScaleOut {
          msg := FilterUnscalableInstances(changed[g], msg);
        }
        UpdateGroupRoleStateAndPeers(g, msg);
        assert (order + [g])[..|order|] == order && g !in order;
        order := AppendNew(order, g);
        left := left - {g};
        assert NoDup(order);
        if mode == ScaleOut && |order| == interruptAfter { return; }
      }
    }

    method ProcessScaleIn(removedIDs: seq<Id>, now: nat) returns (order: seq<GroupId>)
      modifies nodeStatus
      ensures Enumerates(order, RemoveAll(old(nodeStatus.View()), removedIDs).changed.Keys)
      ensures (forall g | g in order :: g in RemoveAll(old(nodeStatus.View()), removedIDs).changed)
      ensures nodeStatus.View() ==
              ScaledIn(old(nodeStatus.View()), NodeChanges([], removedIDs, []), order)
    {
      var changed: Changes := map[];
      for i := 0 to |removedIDs|
        invariant Pending(nodeStatus.View(), changed) == RemoveAll(old(nodeStatus.View()), removedIDs[..i])
      {
        assert removedIDs[..i + 1][..i] == removedIDs[..i];
        var id := removedIDs[i];
        ghost var before := nodeStatus.View();
        nodeStatus.UpdateNodeDeleteTime(id, now);
        if id in nodeStatus.nodes {
          var node := nodeStatus.nodes[id];
          changed := NoteChange(changed, node.groupId, Change(id, node.role));
          nodeStatus.RemoveExpiredNode(id);
          nodeStatus.RemoveNode(id);
          assert nodeStatus.nodes == before.nodes - {id};
        }
      }
      assert removedIDs[..|removedIDs|] == removedIDs;
      order := ScalingUpdateAllGroups(changed, ScaleIn, 0);
    }

    method SelectBestGroup(role: Role, ids: seq<GroupId>) returns (g: GroupId)
      ensures g == TargetGroup(nodeStatus.View(), role, ids)
    {
      var leastPrefillNum: nat, leastDecodeNum: nat := UINT64_MAX, UINT64_MAX;
      g := 0;
      for i := 0 to |ids|
        invariant role == Prefill ==> Best(leastPrefillNum, g) == BestGroup(nodeStatus.View(), role, ids[..i])
        invariant role == Decode ==> Best(leastDecodeNum, g) == BestGroup(nodeStatus.View(), role, ids[..i])
        invariant role == Undefined ==> Best(UINT64_MAX, g) == BestGroup(nodeStatus.View(), role, ids[..i])
      {
        assert ids[..i + 1][..i] == ids[..i];
        var group := GetGroup(nodeStatus.View(), ids[i]);
        if role == Prefill {
          if |group.prefill| < leastPrefillNum {
            leastPrefillNum := |group.decode|;
            g := ids[i];
          }
        } else if role == Decode {
          if |group.decode| < leastDecodeNum {
            leastDecodeNum := |group.prefill|;
            g := ids[i];
          }
        }
      }
      assert ids[..|ids|] == ids;
    }

    method PreAddAvailableServers2Group(ids: seq<GroupId>, available: seq<ServerNode>)
      returns (counts: map<GroupId, Counts>)
      ensures counts == PreAdd(nodeStatus.View(), ids, available)
    {
      counts := map[];
      for i := 0 to |ids|
        invariant forall g :: g in counts <==> g in ids[..i]
        invariant forall g | g in counts :: counts[g] ==
                    Counts(|GetGroup(nodeStatus.View(), g).prefill|, |GetGroup(nodeStatus.View(), g).decode|)
      {
        var group := GetGroup(nodeStatus.View(), ids[i]);
        counts := counts[ids[i] := Counts(|group.prefill|, |group.decode|)];
      }
      assert ids[..|ids|] == ids;
      assert counts == PreAdd(nodeStatus.View(), ids, available[..0]);
      for i := 0 to |available|
        invariant counts == PreAdd(nodeStatus.View(), ids, available[..i])
      {
        assert available[..i + 1][..i] == available[..i];
        var role := available[i].role;
        var g := SelectBestGroup(role, ids);
        var was := if g in counts then counts[g] else Counts(0, 0);
        if role == Decode {
          counts := counts[g := Counts(was.prefill, was.decode + 1)];
        } else {
          counts := counts[g := Counts(was.prefill + 1, was.decode)];
        }
      }
      assert available[..|available|] == available;
    }

    /** `AddInstance2Group`: the group to join, or `NOT_SCALE_OUT`, and the node as joined. */
    method AddInstance2Group(row: ServerNode, ids: seq<GroupId>, counts: map<GroupId, Counts>)
      returns (answer: GroupId, node: NodeInfo)
      ensures var r := nodeStatus.View();
              var g := TargetGroup(r, row.role, ids);
              answer == Verdict(r, counts, g) && node == Joined(r, row, g)
    {
      var g := SelectBestGroup(row.role, ids);
      var group := GetGroup(nodeStatus.View(), g);
      var role, peers := row.role, group.decode;
      if row.role == Decode {
        peers := group.prefill;
      } else if row.role == Undefined {
        role := Prefill;
      }
      node := NodeInfo(role, g, peers, {}, 0, row.dpGroupPeers, row.servers);
      if group.prefill == [] && group.decode == [] { return g, node; }
      if g !in counts { return NOT_SCALE_OUT, node; }
      answer := if counts[g].prefill > 0 && counts[g].decode > 0 then g else NOT_SCALE_OUT;
    }

    method ProcessScaleOut(available: seq<ServerNode>, grouped: set<Id>, ids: seq<GroupId>, interruptAfter: nat)
      returns (order: seq<GroupId>)
      modifies nodeStatus
      ensures NoDup(order)
      ensures forall g | g in order :: g in Admission(old(nodeStatus.View()), ids, grouped, available).changed
      ensures interruptAfter == 0 || |order| < interruptAfter ==>
                Enumerates(order, Admission(old(nodeStatus.View()), ids, grouped, available).changed.Keys)
      ensures nodeStatus.View() ==
              ScaledOut(old(nodeStatus.View()), Choices(Some(available), grouped, ids, [], order))
    {
      var counts := PreAddAvailableServers2Group(ids, available);
      var changed: Changes := map[];
      for i := 0 to |available|
        invariant Pending(nodeStatus.View(), changed) ==
                  AdmitAll(old(nodeStatus.View()), ids, counts, grouped, available[..i])
      {
        assert available[..i + 1][..i] == available[..i];
        var row := available[i];
        var g, node := AddInstance2Group(row, ids, counts);
        if g == NOT_SCALE_OUT {
          nodeStatus.AddExpiredNode(row.id);
        } else if row.id in grouped {
          changed := NoteChange(changed, g, Change(row.id, node.role));
          nodeStatus.AddNode(row.id, node);
        }
      }
      assert available[..|available|] == available;
      order := ScalingUpdateAllGroups(changed, ScaleOut, interruptAfter);
    }

    method GetAllGroupIds() returns (ids: seq<GroupId>)
      ensures Enumerates(ids, nodeStatus.groups.Keys)
    {
      ids := [];
      var left := nodeStatus.groups.Keys;
      while left != {}
        invariant left <= nodeStatus.groups.Keys && NoDup(ids)
        invariant forall g :: g in ids <==> g in nodeStatus.groups.Keys - left
        decreases left
      {
        var g :| g in left;
        assert g !in ids;
        ids := AppendNew(ids, g);
        left := left - {g};
      }
    }

    /** One reconciliation round; `available` is None when the rank table changes before the
        new servers are up. */
    method ScalingInstance(table: seq<ServerNode>, changes: NodeChanges, available: Option<seq<ServerNode>>,
                           grouped: set<Id>, interruptAfter: nat, now: nat)
      returns (choices: Choices)
      requires DistinctRows(table) && IsDiff(nodeStatus.View(), table, changes)
      requires available.Some? ==> AvailableFrom(available.value, table, changes.newIDs)
      modifies nodeStatus
      ensures ValidRound(old(nodeStatus.View()), table, changes, choices)
      ensures nodeStatus.View() == RoundResult(old(nodeStatus.View()), table, changes, choices)
    {
      choices := Choices(None, grouped, [], [], []);
      if changes.removedIDs != [] {
        var inOrder := ProcessScaleIn(changes.removedIDs, now);
        choices := choices.(inOrder := inOrder);
      }
      assert nodeStatus.View() == ScaledIn(old(nodeStatus.View()), changes, choices.inOrder);
      if (changes.newIDs != [] || changes.reappearIDs != []) && available.Some? {
        var ids := GetAllGroupIds();
        var outOrder := ProcessScaleOut(available.value, grouped, ids, interruptAfter);
        choices := choices.(available := available, groupIds := ids, outOrder := outOrder);
      }
    }
  }
}
