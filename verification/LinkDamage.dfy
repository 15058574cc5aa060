/** Link recoveries that fail on the way: which groups they leave damaged, exactly. */
module LinkDamage {
  import opened Sequences
  import opened Cluster
  import opened Scaling
  import opened PeerGraph
  import opened Links

  /** Unlinking the node leaves the peers of the group as they should be: it is not listed
      there, or it is a D node of a group without P nodes. */
  predicate Harmless(group: Group, id: Id) {
    id !in group.prefill && (id in group.decode ==> group.prefill == [])
  }

  /** The groups that an unlink of these nodes leaves damaged unless links are rebuilt. */
  function Damaged(groups: map<GroupId, Group>, done: seq<Id>): set<GroupId> {
    set g | g in groups && exists id | id in done :: !Harmless(groups[g], id)
  }

  // ----- peers only shrink --------------------------------------------------------------------------------

  ghost predicate Shrinks(nodes: map<Id, NodeInfo>, nodes': map<Id, NodeInfo>) {
    && nodes'.Keys == nodes.Keys
    && (forall x | x in nodes :: Same(nodes[x], nodes'[x]))
    && (forall x, p | x in nodes && p in nodes'[x].peers :: p in nodes[x].peers)
  }

  lemma {:induction false} DropEdgesShrink(nodes: map<Id, NodeInfo>, id: Id, peers: seq<Id>)
    ensures Shrinks(nodes, DropEdges(nodes, id, peers))
  {
    if peers != [] {
      DropEdgesShrink(nodes, id, peers[..|peers| - 1]);
      var before, last := DropEdges(nodes, id, peers[..|peers| - 1]), peers[|peers| - 1];
      if last in before { RemoveFirstMembers(before[last].peers, id); }
    }
  }

  lemma {:induction false} UnlinkAllShrinks(nodes: map<Id, NodeInfo>, ids: seq<Id>)
    ensures Shrinks(nodes, UnlinkAll(nodes, ids))
  {
    if ids != [] {
      var rest, last := ids[..|ids| - 1], ids[|ids| - 1];
      UnlinkAllShrinks(nodes, rest);
      var before := UnlinkAll(nodes, rest);
      if last in before { DropEdgesShrink(before, last, before[last].peers); }
    }
  }

  lemma NoPeersStay(nodes: map<Id, NodeInfo>, nodes': map<Id, NodeInfo>, x: Id)
    requires Shrinks(nodes, nodes') && x in nodes && nodes[x].peers == []
    ensures nodes'[x].peers == []
  {
    SomeMember(nodes'[x].peers);
  }

  lemma {:induction false} UnlinkedHaveNoPeers(nodes: map<Id, NodeInfo>, ids: seq<Id>, id: Id)
    requires id in ids && id in nodes
    ensures id in UnlinkAll(nodes, ids) && UnlinkAll(nodes, ids)[id].peers == []
  {
    var rest, last := ids[..|ids| - 1], ids[|ids| - 1];
    assert ids == rest + [last];
    UnlinkAllShrinks(nodes, rest);
    var before := UnlinkAll(nodes, rest);
    if last in before { DropEdgesShrink(before, last, before[last].peers); }
    if id != last {
      UnlinkedHaveNoPeers(nodes, rest, id);
      if last in before { NoPeersStay(before, DropEdges(before, last, before[last].peers), id); }
    }
  }

  // ----- harmless nodes -----------------------------------------------------------------------------------

  lemma ListedPartWithout(peers: seq<Id>, list: seq<Id>, id: Id)
    requires id !in list
    ensures ListedPart(Without(peers, {id}), list) == ListedPart(peers, list)
  {
    var extra := ToSet(peers) - ToSet(list);
    WithoutMembers(peers, {id});
    var shorter := Without(peers, {id});
    WithoutSameOn(shorter, ToSet(shorter) - ToSet(list), extra);
    WithoutTwice(peers, {id}, extra);
    WithoutSameOn(peers, {id} + extra, extra);
  }

  lemma DropEdgeKeepsGroupOk(r: Record, g: GroupId, group: Group, id: Id, peer: Id)
    requires GroupOk(r, g, group) && Harmless(group, id)
    ensures GroupOk(r.(nodes := DropEdge(r.nodes, id, peer)), g, group)
  {
    var r' := r.(nodes := DropEdge(r.nodes, id, peer));
    forall x | x in group.prefill ensures PrefillOk(r', g, group, x) {
      assert PrefillOk(r, g, group, x);
    }
    forall x | x in group.decode ensures DecodeOk(r', g, group, x) {
      assert DecodeOk(r, g, group, x);
      if x == peer && id in r.nodes[x].peers {
        RemoveFirstIsWithout(r.nodes[x].peers, id);
        ListedPartWithout(r.nodes[x].peers, group.prefill, id);
        WithoutMembers(r.nodes[x].peers, {id});
      }
      forall p | p in r'.nodes[x].peers ensures p in group.prefill || Released(r', g, p) {
        assert p in r.nodes[x].peers;
      }
    }
  }

  lemma {:induction false} DropEdgesKeepGroupOk(r: Record, g: GroupId, group: Group, id: Id, peers: seq<Id>)
    requires GroupOk(r, g, group) && Harmless(group, id)
    ensures GroupOk(r.(nodes := DropEdges(r.nodes, id, peers)), g, group)
  {
    if peers != [] {
      var rest := peers[..|peers| - 1];
      DropEdgesKeepGroupOk(r, g, group, id, rest);
      DropEdgeKeepsGroupOk(r.(nodes := DropEdges(r.nodes, id, rest)), g, group, id, peers[|peers| - 1]);
    }
  }

  lemma ClearKeepsGroupOk(r: Record, g: GroupId, group: Group, id: Id)
    requires GroupOk(r, g, group) && Harmless(group, id)
    ensures GroupOk(SetPeers(r, id, []), g, group)
  {
    var r' := SetPeers(r, id, []);
    forall x | x in group.prefill ensures PrefillOk(r', g, group, x) {
      assert PrefillOk(r, g, group, x);
    }
    forall x | x in group.decode ensures DecodeOk(r', g, group, x) {
      assert DecodeOk(r, g, group, x);
      assert x == id ==> ListedPart([], group.prefill) == [];
    }
  }

  lemma {:induction false} UnlinkKeepsGroupOk(r: Record, g: GroupId, group: Group, ids: seq<Id>)
    requires GroupOk(r, g, group) && forall id | id in ids :: Harmless(group, id)
    ensures GroupOk(r.(nodes := UnlinkAll(r.nodes, ids)), g, group)
  {
    if ids != [] {
      var rest, last := ids[..|ids| - 1], ids[|ids| - 1];
      assert ids == rest + [last];
      UnlinkKeepsGroupOk(r, g, group, rest);
      var before := r.(nodes := UnlinkAll(r.nodes, rest));
      if last in before.nodes {
        var peers := before.nodes[last].peers;
        DropEdgesKeepGroupOk(before, g, group, last, peers);
        ClearKeepsGroupOk(before.(nodes := DropEdges(before.nodes, last, peers)), g, group, last);
      }
    }
  }

  // ----- nodes that are not -------------------------------------------------------------------------------

  /** A listed node that was unlinked had peers, so that without any its group is damaged. */
  lemma {:induction false} HadPeers(nodes: map<Id, NodeInfo>, ids: seq<Id>, id: Id)
    requires AllUnlinkable(nodes, ids) && id in ids
    ensures id in nodes && nodes[id].peers != []
  {
    var rest, last := ids[..|ids| - 1], ids[|ids| - 1];
    assert ids == rest + [last];
    if id == last {
      UnlinkAllShrinks(nodes, rest);
      if last in nodes && nodes[last].peers == [] { NoPeersStay(nodes, UnlinkAll(nodes, rest), last); }
    } else {
      HadPeers(nodes, rest, id);
    }
  }

  lemma WithoutPeersDamaged(r: Record, r': Record, g: GroupId, id: Id)
    requires g in r.groups && GroupOk(r, g, r.groups[g]) && !Harmless(r.groups[g], id)
    requires id in r.nodes && r.nodes[id].peers != [] && id in r'.nodes && r'.nodes[id].peers == []
    ensures !GroupOk(r', g, r.groups[g])
  {
    var group := r.groups[g];
    assert ListedPart([], group.prefill) == [];
    if id in group.prefill {
      assert PrefillOk(r, g, group, id);
      assert !PrefillOk(r', g, group, id);
    } else {
      assert !DecodeOk(r', g, group, id);
    }
  }

  /** A listed node all of whose peers exist makes an unlink fail only by having none, and then
      no edge is dropped on its behalf. */
  lemma ListedDropsNothing(r: Record, g: GroupId, nodes: map<Id, NodeInfo>, id: Id)
    requires g in r.groups && GroupOk(r, g, r.groups[g]) && !Harmless(r.groups[g], id)
    requires Shrinks(r.nodes, nodes) && !CanUnlink(nodes, id)
    ensures DropSome(nodes, id) == nodes
  {
    var group := r.groups[g];
    if id in group.prefill {
      assert PrefillOk(r, g, group, id);
      assert forall d | d in group.decode :: DecodeOk(r, g, group, d);
    } else {
      assert DecodeOk(r, g, group, id);
      assert forall p | p in r.nodes[id].peers :: PrefillOk(r, g, group, p) || Released(r, g, p);
    }
    assert forall p | p in nodes[id].peers :: p in nodes;
    assert nodes[id].peers == [];
  }

  // ----- the exact condition ------------------------------------------------------------------------------

  /** The nodes an unlink call gets to. */
  function Done(nodes: map<Id, NodeInfo>, ids: seq<Id>): seq<Id> {
    ids[..UnlinkableCount(nodes, ids)]
  }

  lemma UnlinkedShrinks(nodes: map<Id, NodeInfo>, ids: seq<Id>)
    ensures Shrinks(nodes, Unlinked(nodes, ids))
    ensures Shrinks(UnlinkAll(nodes, Done(nodes, ids)), Unlinked(nodes, ids))
  {
    var k := UnlinkableCount(nodes, ids);
    var before := UnlinkAll(nodes, ids[..k]);
    UnlinkAllShrinks(nodes, ids[..k]);
    if k == |ids| {
      assert ids[..k] == ids;
    } else if ids[k] in before {
      DropEdgesShrink(before, ids[k], ExistingPeers(before, before[ids[k]].peers));
    }
  }

  /** A consistent group survives an unlink without a following link, got through or not, if
      and only if every node the call got to is harmless to it. */
  lemma UnlinkDamagesIff(r: Record, ids: seq<Id>, g: GroupId)
    requires g in r.groups && GroupOk(r, g, r.groups[g])
    ensures GroupOk(r.(nodes := Unlinked(r.nodes, ids)), g, r.groups[g]) <==> g !in Damaged(r.groups, Done(r.nodes, ids))
  {
    var done, group := Done(r.nodes, ids), r.groups[g];
    UnlinkedShrinks(r.nodes, ids);
    if id :| id in done && !Harmless(group, id) {
      HadPeers(r.nodes, done, id);
      UnlinkedHaveNoPeers(r.nodes, done, id);
      NoPeersStay(UnlinkAll(r.nodes, done), Unlinked(r.nodes, ids), id);
      WithoutPeersDamaged(r, r.(nodes := Unlinked(r.nodes, ids)), g, id);
    } else {
      HarmlessUnlink(r, ids, g);
    }
  }

  lemma HarmlessUnlink(r: Record, ids: seq<Id>, g: GroupId)
    requires g in r.groups && GroupOk(r, g, r.groups[g])
    requires forall id | id in Done(r.nodes, ids) :: Harmless(r.groups[g], id)
    ensures GroupOk(r.(nodes := Unlinked(r.nodes, ids)), g, r.groups[g])
  {
    var k, group := UnlinkableCount(r.nodes, ids), r.groups[g];
    var before := r.(nodes := UnlinkAll(r.nodes, ids[..k]));
    UnlinkKeepsGroupOk(r, g, group, ids[..k]);
    UnlinkAllShrinks(r.nodes, ids[..k]);
    if k == |ids| {
      assert ids[..k] == ids;
    } else {
      StopsHere(r.nodes, ids);
      if !Harmless(group, ids[k]) {
        ListedDropsNothing(r, g, before.nodes, ids[k]);
      } else if ids[k] in before.nodes {
        DropEdgesKeepGroupOk(before, g, group, ids[k], ExistingPeers(before.nodes, before.nodes[ids[k]].peers));
      }
    }
  }

  lemma {:induction false} StopsHere(nodes: map<Id, NodeInfo>, ids: seq<Id>)
    requires UnlinkableCount(nodes, ids) < |ids|
    ensures var k := UnlinkableCount(nodes, ids); !CanUnlink(UnlinkAll(nodes, ids[..k]), ids[k])
  {
    var rest, k := ids[..|ids| - 1], UnlinkableCount(nodes, ids);
    assert rest[..k] == ids[..k];
    if k < |rest| {
      StopsHere(nodes, rest);
      assert rest[k] == ids[k];
    } else {
      assert rest[..k] == rest;
    }
  }

  /** What a failed recovery does to the whole graph: it damages exactly those groups. */
  lemma FailedRecovery(r: Record, damaged: set<GroupId>, ids: seq<Id>)
    requires GraphInvBut(r, damaged)
    ensures var r' := r.(nodes := Unlinked(r.nodes, ids));
            && GraphInvBut(r', damaged + Damaged(r.groups, Done(r.nodes, ids)))
            && forall g | g in r.groups && g !in damaged ::
                 GroupOk(r', g, r.groups[g]) <==> g !in Damaged(r.groups, Done(r.nodes, ids))
  {
    var r', more := r.(nodes := Unlinked(r.nodes, ids)), Damaged(r.groups, Done(r.nodes, ids));
    UnlinkedShrinks(r.nodes, ids);
    forall g | g in r.groups
      ensures GroupGood(r', g, g in damaged + more)
      ensures g !in damaged ==> (GroupOk(r', g, r.groups[g]) <==> g !in more)
    {
      assert GroupGood(r, g, g in damaged);
      if g !in damaged { UnlinkDamagesIff(r, ids, g); }
    }
  }

  /** Trying the same recovery again neither gets through nor changes anything: its first node
      has no peers any more. */
  lemma RetryDoesNothing(nodes: map<Id, NodeInfo>, ids: seq<Id>)
    requires Done(nodes, ids) != []
    ensures var nodes' := Unlinked(nodes, ids); !AllUnlinkable(nodes', ids) && Unlinked(nodes', ids) == nodes'
  {
    var nodes', done := Unlinked(nodes, ids), Done(nodes, ids);
    assert ids[0] == done[0] && done[0] in done;
    HadPeers(nodes, done, ids[0]);
    UnlinkedHaveNoPeers(nodes, done, ids[0]);
    UnlinkedShrinks(nodes, ids);
    NoPeersStay(UnlinkAll(nodes, done), nodes', ids[0]);
    assert ids[..1][..0] == [] && ids[..1][0] == ids[0] && ids[..0] == [];
    assert !AllUnlinkable(nodes', ids[..1]);
    StopsAt(nodes', ids, 0);
  }

  /** At an input: a P and a D node linked to each other, and a recovery of the P node whose
      role message is refused. */
  lemma RefusedPostDamages(p: NodeInfo, d: NodeInfo)
    requires p.role == Prefill && p.groupId == 0 && p.peers == [2]
    requires d.role == Decode && d.groupId == 0 && d.peers == [1]
    ensures var r := Record(map[1 := p, 2 := d], map[0 := Group([1], [2])], {});
            GraphInv(r) && AllUnlinkable(r.nodes, [1]) && !GraphInv(Recovered(r, [1], false, []))
  {
    var r := Record(map[1 := p, 2 := d], map[0 := Group([1], [2])], {});
    ListedPartOfItself([1]);
    assert PrefillOk(r, 0, r.groups[0], 1) && DecodeOk(r, 0, r.groups[0], 2);
    assert GroupOk(r, 0, r.groups[0]);
    assert [1][..0] == [];
    assert CanUnlink(r.nodes, 1) by { assert 2 in p.peers; }
    assert AllUnlinkable(r.nodes, [1]);
    assert Done(r.nodes, [1]) == [1];
    assert !Harmless(r.groups[0], 1) && 1 in Done(r.nodes, [1]);
    UnlinkDamagesIff(r, [1], 0);
  }
}
