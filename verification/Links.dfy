/** RoCE recovery of an instance (`BatchUnlinkNodes`, `BatchLinkNodes`): take its nodes out
    of the peer graph, then rebuild the links of their groups from the group lists. */
module Links {
  import opened Sequences
  import opened Cluster
  import opened Scaling
  import opened PeerGraph

  // ----- unlink -------------------------------------------------------------------------------------------

  function DropEdge(nodes: map<Id, NodeInfo>, id: Id, peer: Id): map<Id, NodeInfo> {
    if peer in nodes && id in nodes[peer].peers
    then nodes[peer := LinkTo(nodes[peer], RemoveFirst(nodes[peer].peers, id))]
    else nodes
  }

  function DropEdges(nodes: map<Id, NodeInfo>, id: Id, peers: seq<Id>): map<Id, NodeInfo> {
    if peers == [] then nodes
    else DropEdge(DropEdges(nodes, id, peers[..|peers| - 1]), id, peers[|peers| - 1])
  }

  /** Drop the edges from its peers to the node, then its own. */
  function UnlinkOne(nodes: map<Id, NodeInfo>, id: Id): map<Id, NodeInfo> {
    if id !in nodes then nodes
    else SetPeers(Record(DropEdges(nodes, id, nodes[id].peers), map[], {}), id, []).nodes
  }

  function UnlinkAll(nodes: map<Id, NodeInfo>, ids: seq<Id>): map<Id, NodeInfo> {
    if ids == [] then nodes else UnlinkOne(UnlinkAll(nodes, ids[..|ids| - 1]), ids[|ids| - 1])
  }

  /** A node without peers, or with a peer that is gone, makes the whole call fail. */
  predicate CanUnlink(nodes: map<Id, NodeInfo>, id: Id) {
    id in nodes && nodes[id].peers != [] && forall p | p in nodes[id].peers :: p in nodes
  }

  predicate AllUnlinkable(nodes: map<Id, NodeInfo>, ids: seq<Id>) {
    ids == [] || (
      && AllUnlinkable(nodes, ids[..|ids| - 1])
      && CanUnlink(UnlinkAll(nodes, ids[..|ids| - 1]), ids[|ids| - 1]))
  }

  /** How many of the ids are unlinked before the first that cannot be. */
  function UnlinkableCount(nodes: map<Id, NodeInfo>, ids: seq<Id>): (k: nat)
    ensures k <= |ids| && AllUnlinkable(nodes, ids[..k])
    ensures k < |ids| ==> !AllUnlinkable(nodes, ids)
  {
    if AllUnlinkable(nodes, ids) then assert ids[..|ids|] == ids; |ids|
    else
      var k := UnlinkableCount(nodes, ids[..|ids| - 1]);
      assert ids[..|ids| - 1][..k] == ids[..k];
      k
  }

  /** The peers before the first that does not exist. */
  function ExistingPeers(nodes: map<Id, NodeInfo>, peers: seq<Id>): seq<Id> {
    if peers == [] || peers[0] !in nodes then [] else [peers[0]] + ExistingPeers(nodes, peers[1..])
  }

  /** Edges dropped for a node that cannot be unlinked, up to the peer that is missing. */
  function DropSome(nodes: map<Id, NodeInfo>, id: Id): map<Id, NodeInfo> {
    if id !in nodes then nodes else DropEdges(nodes, id, ExistingPeers(nodes, nodes[id].peers))
  }

  /** The stored links after an unlink call, whether or not it gets through. */
  function Unlinked(nodes: map<Id, NodeInfo>, ids: seq<Id>): map<Id, NodeInfo> {
    var k := UnlinkableCount(nodes, ids);
    if k == |ids| then UnlinkAll(nodes, ids) else DropSome(UnlinkAll(nodes, ids[..k]), ids[k])
  }

  // ----- link ---------------------------------------------------------------------------------------------

  function LinkGroup(r: Record, g: GroupId): Record {
    var group := GetGroup(r, g);
    Publish(r, g, GroupUpdateMsg(group.prefill, group.decode, true, true))
  }

  function LinkGroups(r: Record, order: seq<GroupId>): Record {
    if order == [] then r else LinkGroup(LinkGroups(r, order[..|order| - 1]), order[|order| - 1])
  }

  function GroupsOf(nodes: map<Id, NodeInfo>, ids: seq<Id>): set<GroupId> {
    set id | id in ids && id in nodes :: nodes[id].groupId
  }

  class NodeScheduler {
    const nodeStatus: NodeStatus

    constructor (nodeStatus: NodeStatus)
      ensures this.nodeStatus == nodeStatus
    {
      this.nodeStatus := nodeStatus;
    }

    /** Takes the node out of its peers' lists, up to the first peer that does not exist. */
    method DropFromPeers(id: Id) returns (ok: bool)
      requires id in nodeStatus.nodes
      modifies nodeStatus`nodes
      ensures ok <==> forall p | p in old(nodeStatus.nodes)[id].peers :: p in old(nodeStatus.nodes)
      ensures ok ==> nodeStatus.nodes == DropEdges(old(nodeStatus.nodes), id, old(nodeStatus.nodes)[id].peers)
      ensures !ok ==> nodeStatus.nodes == DropSome(old(nodeStatus.nodes), id)
    {
      var peers := nodeStatus.nodes[id].peers;
      ghost var start := nodeStatus.nodes;
      for j := 0 to |peers|
        invariant nodeStatus.nodes == DropEdges(start, id, peers[..j])
        invariant forall k | 0 <= k < j :: peers[k] in start
      {
        assert peers[..j + 1][..j] == peers[..j];
        DropEdgesFrame(start, id, peers[..j]);
        var peer := peers[j];
        if peer !in nodeStatus.nodes {
          assert peer in peers;
          ExistingUpTo(start, peers, j);
          return false;
        }
        if id in nodeStatus.nodes[peer].peers {
          nodeStatus.UpdateRoleStateAndPeers(peer, RemoveFirst(nodeStatus.nodes[peer].peers, id));
        }
        assert nodeStatus.View().nodes == DropEdges(start, id, peers[..j + 1]);
      }
      assert peers[..|peers|] == peers;
      return true;
    }

    /** `posted` says whether every node concerned accepted its new role message. A failing
        call has already edited the links of the nodes before the one it fails at. */
    method BatchUnlinkNodes(ids: seq<Id>, posted: bool) returns (ok: bool)
      modifies nodeStatus`nodes
      ensures ok <==> AllUnlinkable(old(nodeStatus.nodes), ids) && posted
      ensures nodeStatus.nodes == Unlinked(old(nodeStatus.nodes), ids)
    {
      ghost var before := nodeStatus.nodes;
      for i := 0 to |ids|
        invariant AllUnlinkable(before, ids[..i])
        invariant nodeStatus.nodes == UnlinkAll(before, ids[..i])
      {
        assert ids[..i + 1][..i] == ids[..i];
        var id := ids[i];
        if id !in nodeStatus.nodes || nodeStatus.nodes[id].peers == [] {
          StopsAt(before, ids, i);
          return false;
        }
        ghost var start := nodeStatus.nodes;
        var dropped := DropFromPeers(id);
        if !dropped {
          StopsAt(before, ids, i);
          return false;
        }
        nodeStatus.UpdateRoleStateAndPeers(id, []);
        assert nodeStatus.View().nodes == UnlinkOne(start, id);
      }
      assert ids[..|ids|] == ids;
      ok := posted;
    }

    /** The stored links after the call, whether or not the nodes accept and report ready. */
    method BatchLinkNodes(ids: seq<Id>, posted: bool, ready: bool) returns (ok: bool, order: seq<GroupId>)
      modifies nodeStatus
      ensures ok <==> (forall id | id in ids :: id in old(nodeStatus.nodes)) && posted && ready
      ensures (forall id | id in ids :: id in old(nodeStatus.nodes)) ==>
                && Enumerates(order, GroupsOf(old(nodeStatus.nodes), ids))
                && nodeStatus.View() == LinkGroups(old(nodeStatus.View()), order)
      ensures !(forall id | id in ids :: id in old(nodeStatus.nodes)) ==> nodeStatus.View() == old(nodeStatus.View())
    {
      ok, order := false, [];
      var left: set<GroupId> := {};
      for i := 0 to |ids|
        invariant left == GroupsOf(nodeStatus.nodes, ids[..i])
        invariant forall k | 0 <= k < i :: ids[k] in nodeStatus.nodes
      {
        if ids[i] !in nodeStatus.nodes { return; }
        assert ids[..i + 1] == ids[..i] + [ids[i]];
        left := left + {nodeStatus.nodes[ids[i]].groupId};
      }
      assert ids[..|ids|] == ids;
      ghost var all := left;
      while left != {}
        invariant left <= all && NoDup(order)
        invariant forall g :: g in order <==> g in all - left
        invariant nodeStatus.View() == LinkGroups(old(nodeStatus.View()), order)
        decreases left
      {
        var g :| g in left;
        var group := GetGroup(nodeStatus.View(), g);
        ghost var start := nodeStatus.View();
        nodeStatus.LinkNodes(group.prefill, group.decode);
        nodeStatus.LinkNodes(group.decode, group.prefill);
        assert nodeStatus.View() == LinkGroup(start, g);
        assert (order + [g])[..|order|] == order && g !in order;
        order := AppendNew(order, g);
        left := left - {g};
      }
      ok := posted && ready;
    }

    /** `ProcessBatchUnlinkAndLink`: links are rebuilt only after an unlink that got through. */
    method ProcessBatchUnlinkAndLink(ids: seq<Id>, unlinkPosted: bool, linkPosted: bool, ready: bool)
      returns (ok: bool, order: seq<GroupId>)
      modifies nodeStatus
      ensures ok <==> ids == [] || (AllUnlinkable(old(nodeStatus.nodes), ids) && unlinkPosted && linkPosted && ready)
      ensures AllUnlinkable(old(nodeStatus.nodes), ids) && unlinkPosted ==>
                Enumerates(order, GroupsOf(old(nodeStatus.nodes), ids))
      ensures nodeStatus.View() == Recovered(old(nodeStatus.View()), ids, unlinkPosted, order)
    {
      ghost var before := nodeStatus.View();
      if ids == [] { return true, []; }
      var unlinked := BatchUnlinkNodes(ids, unlinkPosted);
      assert nodeStatus.View() == before.(nodes := Unlinked(before.nodes, ids));
      if !unlinked { return false, []; }
      UnlinkedAreStored(before.nodes, ids);
      UnlinkFrame(before.nodes, ids);
      assert GroupsOf(before.nodes, ids) == GroupsOf(nodeStatus.nodes, ids);
      ok, order := BatchLinkNodes(ids, linkPosted, ready);
    }
  }

  /** The record after a recovery call. */
  function Recovered(r: Record, ids: seq<Id>, unlinkPosted: bool, order: seq<GroupId>): Record {
    var r1 := r.(nodes := Unlinked(r.nodes, ids));
    if AllUnlinkable(r.nodes, ids) && unlinkPosted then LinkGroups(r1, order) else r1
  }

  lemma {:induction false} ExistingUpTo(nodes: map<Id, NodeInfo>, peers: seq<Id>, j: nat)
    requires j < |peers| && peers[j] !in nodes && forall k | 0 <= k < j :: peers[k] in nodes
    ensures ExistingPeers(nodes, peers) == peers[..j]
  {
    if j > 0 {
      ExistingUpTo(nodes, peers[1..], j - 1);
      assert peers[..j] == [peers[0]] + peers[1..][..j - 1];
    }
  }

  lemma {:induction false} StopsAt(nodes: map<Id, NodeInfo>, ids: seq<Id>, i: nat)
    requires i < |ids| && AllUnlinkable(nodes, ids[..i]) && !AllUnlinkable(nodes, ids[..i + 1])
    ensures !AllUnlinkable(nodes, ids) && UnlinkableCount(nodes, ids) == i
  {
    UnlinkablePrefix(nodes, ids, i + 1);
    if i == |ids| - 1 {
      assert ids[..i + 1] == ids;
    } else {
      var rest := ids[..|ids| - 1];
      assert rest[..i] == ids[..i] && rest[..i + 1] == ids[..i + 1];
      StopsAt(nodes, rest, i);
    }
  }

  lemma {:induction false} UnlinkedAreStored(nodes: map<Id, NodeInfo>, ids: seq<Id>)
    requires AllUnlinkable(nodes, ids)
    ensures forall id | id in ids :: id in nodes
  {
    if ids != [] {
      var rest, last := ids[..|ids| - 1], ids[|ids| - 1];
      assert ids == rest + [last];
      UnlinkedAreStored(nodes, rest);
      UnlinkFrame(nodes, rest);
    }
  }

  lemma {:induction false} UnlinkablePrefix(nodes: map<Id, NodeInfo>, ids: seq<Id>, k: nat)
    requires k <= |ids| && !AllUnlinkable(nodes, ids[..k])
    ensures !AllUnlinkable(nodes, ids)
    decreases |ids| - k
  {
    if k == |ids| {
      assert ids[..k] == ids;
    } else {
      assert ids[..k + 1][..k] == ids[..k];
      UnlinkablePrefix(nodes, ids, k + 1);
    }
  }

  // ----- what unlinking leaves alone --------------------------------------------------------------------------

  /** Only peers change, and only those of nodes that are unlinked or name one that is. */
  ghost predicate UnlinkedFrom(nodes: map<Id, NodeInfo>, nodes': map<Id, NodeInfo>, ids: seq<Id>) {
    && nodes'.Keys == nodes.Keys
    && (forall x | x in nodes :: Same(nodes[x], nodes'[x]))
    && (forall x | x in nodes && x !in ids && (forall id | id in ids :: id !in nodes[x].peers) ::
          nodes'[x] == nodes[x])
  }

  lemma {:induction false} DropEdgesFrame(nodes: map<Id, NodeInfo>, id: Id, peers: seq<Id>)
    ensures var nodes' := DropEdges(nodes, id, peers);
            && nodes'.Keys == nodes.Keys
            && (forall x | x in nodes :: Same(nodes[x], nodes'[x]))
            && (forall x | x in nodes && id !in nodes[x].peers :: nodes'[x] == nodes[x])
  {
    if peers != [] {
      DropEdgesFrame(nodes, id, peers[..|peers| - 1]);
    }
  }

  lemma {:induction false} UnlinkFrame(nodes: map<Id, NodeInfo>, ids: seq<Id>)
    ensures UnlinkedFrom(nodes, UnlinkAll(nodes, ids), ids)
  {
    if ids != [] {
      var rest, last := ids[..|ids| - 1], ids[|ids| - 1];
      assert ids == rest + [last];
      UnlinkFrame(nodes, rest);
      var before := UnlinkAll(nodes, rest);
      if last in before {
        DropEdgesFrame(before, last, before[last].peers);
      }
    }
  }

  // ----- linking repairs a group --------------------------------------------------------------------------------

  /** Whatever peers were stored before, linking makes the group consistent and all its peers
      active. */
  lemma LinkRepairs(r: Record, g: GroupId)
    requires g in r.groups && ListingOk(r, g, r.groups[g])
    ensures LinkGroup(r, g).groups == r.groups && GroupOk(LinkGroup(r, g), g, r.groups[g])
    ensures SameOutside(r, LinkGroup(r, g), g)
    ensures forall id | id in r.groups[g].decode :: LinkGroup(r, g).nodes[id].peers == r.groups[g].prefill
    ensures forall id | id in r.groups[g].prefill || id in r.groups[g].decode ::
              LinkGroup(r, g).nodes[id].activePeers == ToSet(LinkGroup(r, g).nodes[id].peers)
    ensures forall x | x in r.nodes && x !in r.groups[g].prefill && x !in r.groups[g].decode ::
              LinkGroup(r, g).nodes[x] == r.nodes[x]
  {
    ListedPartOfItself(r.groups[g].prefill);
  }

  /** The groups in `order` are repaired, everything else is untouched. */
  ghost predicate Relinked(r: Record, r': Record, order: seq<GroupId>) {
    && SameIdentity(r, r') && r'.groups == r.groups
    && (forall g | g in r.groups && g in order :: GroupOk(r', g, r.groups[g]) && DecodeExact(r', r.groups[g]))
    && (forall g | g !in order :: AgreesOn(r, r', g))
    && (forall x | x in r.nodes && !ListedIn(r, order, x) :: r'.nodes[x] == r.nodes[x])
  }

  lemma RelinkedOneMore(r: Record, before: Record, after: Record, rest: seq<GroupId>, last: GroupId)
    requires last !in rest && last in r.groups && forall g | g in r.groups :: ListingOk(r, g, r.groups[g])
    requires Relinked(r, before, rest) && after.groups == before.groups && SameOutside(before, after, last)
    requires GroupOk(after, last, r.groups[last]) && DecodeExact(after, r.groups[last])
    requires forall x | x in before.nodes && x !in r.groups[last].prefill && x !in r.groups[last].decode ::
               after.nodes[x] == before.nodes[x]
    ensures Relinked(r, after, rest + [last])
  {
    var order := rest + [last];
    forall g | g in r.groups && g in rest ensures GroupOk(after, g, r.groups[g]) && DecodeExact(after, r.groups[g]) {
      assert ListingOk(r, g, r.groups[g]);
      SameOutsideKeepsGroupOk(before, after, last, g, r.groups[g]);
    }
    forall g | g !in order ensures AgreesOn(r, after, g) {
      assert AgreesOn(r, before, g);
    }
    forall x | x in r.nodes && !ListedIn(r, order, x) ensures after.nodes[x] == r.nodes[x] {
      assert last in order && !ListedIn(r, rest, x);
    }
  }

  lemma RelinkedUnknown(r: Record, before: Record, rest: seq<GroupId>, last: GroupId)
    requires last !in r.groups && Relinked(r, before, rest)
    ensures Relinked(r, LinkGroup(before, last), rest + [last])
  {
    assert LinkGroup(before, last) == before;
    forall x | x in r.nodes && !ListedIn(r, rest + [last], x) ensures before.nodes[x] == r.nodes[x] {
      assert !ListedIn(r, rest, x);
    }
  }

  lemma LinkOneMore(r: Record, before: Record, rest: seq<GroupId>, last: GroupId)
    requires last !in rest && last in r.groups && forall g | g in r.groups :: ListingOk(r, g, r.groups[g])
    requires Relinked(r, before, rest)
    ensures Relinked(r, LinkGroup(before, last), rest + [last])
  {
    assert ListingOk(before, last, r.groups[last]) by { assert ListingOk(r, last, r.groups[last]); }
    LinkRepairs(before, last);
    RelinkedOneMore(r, before, LinkGroup(before, last), rest, last);
  }

  /** Groups linked in turn, whatever their nodes' peers were. */
  lemma {:induction false} LinkChain(r: Record, order: seq<GroupId>)
    requires NoDup(order) && forall g | g in r.groups :: ListingOk(r, g, r.groups[g])
    ensures Relinked(r, LinkGroups(r, order), order)
    decreases |order|
  {
    if order != [] {
      var rest, last := order[..|order| - 1], order[|order| - 1];
      assert order == rest + [last];
      LinkChain(r, rest);
      var before := LinkGroups(r, rest);
      if last in r.groups {
        LinkOneMore(r, before, rest, last);
      } else {
        RelinkedUnknown(r, before, rest, last);
      }
    }
  }

  ghost predicate DecodeExact(r: Record, group: Group) {
    forall id | id in group.decode :: id in r.nodes && r.nodes[id].peers == group.prefill
  }

  ghost predicate ListedIn(r: Record, order: seq<GroupId>, x: Id) {
    exists g | g in order && g in r.groups :: x in r.groups[g].prefill || x in r.groups[g].decode
  }

  // ----- the round trip ---------------------------------------------------------------------------------------

  /** Distinct nodes of one role, each on the list of its group. */
  ghost predicate ListedSameRole(r: Record, ids: seq<Id>, role: Role) {
    && NoDup(ids) && role != Undefined
    && forall id | id in ids ::
         && id in r.nodes && r.nodes[id].role == role && r.nodes[id].groupId in r.groups
         && var group := r.groups[r.nodes[id].groupId];
            id in if role == Prefill then group.prefill else group.decode
  }

  ghost predicate NothingReleased(r: Record, groups: set<GroupId>) {
    forall g, p | g in groups :: !Released(r, g, p)
  }

  ghost predicate Listed(r: Record, x: Id) {
    exists g | g in r.groups :: x in r.groups[g].prefill || x in r.groups[g].decode
  }

  function Opposite(group: Group, role: Role): seq<Id> {
    if role == Prefill then group.decode else group.prefill
  }

  /** In a consistent group with nothing released, every listed node's peers are exactly the
      opposite list. */
  lemma ExactPeers(r: Record, g: GroupId, x: Id)
    requires GraphInv(r) && g in r.groups && NothingReleased(r, {g})
    requires x in r.groups[g].prefill || x in r.groups[g].decode
    ensures x in r.nodes && r.nodes[x].groupId == g && r.nodes[x].role != Undefined
    ensures r.nodes[x].peers == Opposite(r.groups[g], r.nodes[x].role)
  {
    assert GroupOk(r, g, r.groups[g]);
    if x in r.groups[g].decode {
      assert DecodeOk(r, g, r.groups[g], x);
      var peers, list := r.nodes[x].peers, r.groups[g].prefill;
      assert forall p | p in peers :: !Released(r, g, p);
      WithoutNothing(peers, ToSet(peers) - ToSet(list));
    } else {
      assert PrefillOk(r, g, r.groups[g], x);
    }
  }

  /** A listed node names a node of the unlinked kind only within that node's group. */
  lemma NamedOnlyByOpposite(r: Record, ids: seq<Id>, role: Role, id: Id, x: Id)
    requires GraphInv(r) && ListedSameRole(r, ids, role) && NothingReleased(r, GroupsOf(r.nodes, ids))
    requires id in ids && Listed(r, x) && x in r.nodes
    ensures id in r.nodes[x].peers <==> x in r.nodes[id].peers
    ensures id in r.nodes[x].peers ==> x !in ids
  {
    var g := r.nodes[id].groupId;
    assert g in GroupsOf(r.nodes, ids);
    ExactPeers(r, g, id);
    var h :| h in r.groups && (x in r.groups[h].prefill || x in r.groups[h].decode);
    assert GroupOk(r, h, r.groups[h]) && GroupOk(r, g, r.groups[g]);
    assert r.nodes[x].groupId == h && r.nodes[x].role != Undefined;
    if h == g {
      ExactPeers(r, g, x);
      assert r.nodes[x].peers == Opposite(r.groups[g], r.nodes[x].role);
    } else if r.nodes[x].role == Prefill {
      assert PrefillOk(r, h, r.groups[h], x);
    } else {
      assert DecodeOk(r, h, r.groups[h], x);
    }
  }

  lemma {:induction false} DropEdgesClosed(nodes: map<Id, NodeInfo>, id: Id, peers: seq<Id>)
    requires NoDup(peers)
    ensures var nodes' := DropEdges(nodes, id, peers);
            && nodes'.Keys == nodes.Keys
            && forall x | x in nodes ::
                 nodes'[x].peers == if x in peers then RemoveFirst(nodes[x].peers, id) else nodes[x].peers
  {
    if peers != [] {
      var rest, last := peers[..|peers| - 1], peers[|peers| - 1];
      assert peers == rest + [last];
      DropEdgesClosed(nodes, id, rest);
      if last in nodes && id !in nodes[last].peers {
        RemoveAbsent(nodes[last].peers, id);
      }
    }
  }

  lemma {:induction false} RemoveAbsent(s: seq<Id>, x: Id)
    requires x !in s
    ensures RemoveFirst(s, x) == s
  {
    if s != [] { RemoveAbsent(s[1..], x); }
  }

  /** The peers of every node once `ids` are unlinked. */
  ghost predicate PeersAfterUnlink(r: Record, nodes': map<Id, NodeInfo>, ids: seq<Id>) {
    && nodes'.Keys == r.nodes.Keys
    && forall x | x in r.nodes :: nodes'[x].peers == ExpectedPeers(r, ids, x)
  }

  ghost function ExpectedPeers(r: Record, ids: seq<Id>, x: Id): seq<Id>
    requires x in r.nodes
  {
    if x in ids then []
    else if Listed(r, x) then Without(r.nodes[x].peers, ToSet(ids))
    else r.nodes[x].peers
  }

  ghost predicate UnlinkContext(r: Record, ids: seq<Id>, role: Role) {
    GraphInv(r) && ListedSameRole(r, ids, role) && NothingReleased(r, GroupsOf(r.nodes, ids))
  }

  /** The peers of a node about to be unlinked are other nodes, listed and of the other role. */
  lemma PeersOfUnlinked(r: Record, ids: seq<Id>, role: Role, id: Id)
    requires UnlinkContext(r, ids, role) && id in ids
    ensures NoDup(r.nodes[id].peers) && Listed(r, id)
    ensures forall x | x in r.nodes[id].peers ::
              && x in r.nodes && x !in ids && Listed(r, x)
              && NoDup(r.nodes[x].peers) && id in r.nodes[x].peers
  {
    var g := r.nodes[id].groupId;
    assert g in GroupsOf(r.nodes, ids);
    ExactPeers(r, g, id);
    assert GroupOk(r, g, r.groups[g]);
    forall x | x in r.nodes[id].peers
      ensures x in r.nodes && x !in ids && Listed(r, x) && NoDup(r.nodes[x].peers) && id in r.nodes[x].peers
    {
      ExactPeers(r, g, x);
      ListsDisjoint(r, g, r.groups[g]);
    }
  }

  lemma DropNext(list: seq<Id>, done: seq<Id>, id: Id)
    requires NoDup(list)
    ensures RemoveFirst(Without(list, ToSet(done)), id) == Without(list, ToSet(done + [id]))
  {
    assert ToSet(done + [id]) == ToSet(done) + {id};
    WithoutMembers(list, ToSet(done));
    RemoveFirstIsWithout(Without(list, ToSet(done)), id);
    WithoutTwice(list, ToSet(done), {id});
  }

  lemma ExpectedNext(r: Record, ids: seq<Id>, role: Role, done: seq<Id>, id: Id, x: Id)
    requires UnlinkContext(r, ids, role) && id in ids && id !in done && (forall y | y in done :: y in ids) && x in r.nodes
    ensures ExpectedPeers(r, done + [id], x) ==
            if x == id then []
            else if x in r.nodes[id].peers then RemoveFirst(ExpectedPeers(r, done, x), id)
            else ExpectedPeers(r, done, x)
  {
    PeersOfUnlinked(r, ids, role, id);
    assert ToSet(done + [id]) == ToSet(done) + {id};
    if x in r.nodes[id].peers {
      DropNext(r.nodes[x].peers, done, id);
    } else if Listed(r, x) && x != id && x !in done {
      NamedOnlyByOpposite(r, ids, role, id, x);
      WithoutSameOn(r.nodes[x].peers, ToSet(done), ToSet(done + [id]));
    }
  }

  /** One more node unlinked, on top of a prefix already done. */
  lemma UnlinkOneMore(r: Record, ids: seq<Id>, role: Role, done: seq<Id>, nodes: map<Id, NodeInfo>, id: Id)
    requires UnlinkContext(r, ids, role) && id in ids && id !in done && (forall x | x in done :: x in ids)
    requires PeersAfterUnlink(r, nodes, done)
    ensures PeersAfterUnlink(r, UnlinkOne(nodes, id), done + [id])
  {
    PeersOfUnlinked(r, ids, role, id);
    var peers := r.nodes[id].peers;
    WithoutNothing(peers, ToSet(done));
    assert nodes[id].peers == ExpectedPeers(r, done, id) == peers;
    DropEdgesClosed(nodes, id, peers);
    var nodes' := UnlinkOne(nodes, id);
    forall x | x in r.nodes ensures nodes'[x].peers == ExpectedPeers(r, done + [id], x) {
      ExpectedNext(r, ids, role, done, id, x);
    }
  }

  lemma {:induction false} UnlinkPrefix(r: Record, ids: seq<Id>, role: Role, k: nat)
    requires UnlinkContext(r, ids, role) && k <= |ids|
    ensures PeersAfterUnlink(r, UnlinkAll(r.nodes, ids[..k]), ids[..k])
  {
    if k == 0 {
      forall x | x in r.nodes ensures r.nodes[x].peers == ExpectedPeers(r, [], x) {
        WithoutNothing(r.nodes[x].peers, ToSet<Id>([]));
      }
    } else {
      UnlinkPrefix(r, ids, role, k - 1);
      assert ids[..k][..k - 1] == ids[..k - 1] && ids[..k] == ids[..k - 1] + [ids[k - 1]];
      UnlinkOneMore(r, ids, role, ids[..k - 1], UnlinkAll(r.nodes, ids[..k - 1]), ids[k - 1]);
    }
  }

  /** The node to unlink next still has all its peers, and they exist. */
  lemma NextIsUntouched(r: Record, ids: seq<Id>, role: Role, k: nat)
    requires UnlinkContext(r, ids, role) && k < |ids|
    ensures CanUnlink(UnlinkAll(r.nodes, ids[..k]), ids[k]) <==> r.nodes[ids[k]].peers != []
  {
    var done, id := ids[..k], ids[k];
    UnlinkPrefix(r, ids, role, k);
    PeersOfUnlinked(r, ids, role, id);
    WithoutNothing(r.nodes[id].peers, ToSet(done));
    assert UnlinkAll(r.nodes, done)[id].peers == ExpectedPeers(r, done, id) == r.nodes[id].peers;
  }

  lemma OneMoreUnlinkable(nodes: map<Id, NodeInfo>, ids: seq<Id>, k: nat)
    requires k < |ids|
    ensures AllUnlinkable(nodes, ids[..k + 1]) <==>
            AllUnlinkable(nodes, ids[..k]) && CanUnlink(UnlinkAll(nodes, ids[..k]), ids[k])
  {
    assert ids[..k + 1][..k] == ids[..k];
  }

  /** In that setting the call gets through exactly when no node to unlink is without peers. */
  lemma {:induction false} UnlinkSucceedsIff(r: Record, ids: seq<Id>, role: Role, k: nat)
    requires UnlinkContext(r, ids, role) && k <= |ids|
    ensures AllUnlinkable(r.nodes, ids[..k]) <==> forall id | id in ids[..k] :: r.nodes[id].peers != []
  {
    if k > 0 {
      UnlinkSucceedsIff(r, ids, role, k - 1);
      OneMoreUnlinkable(r.nodes, ids, k - 1);
      assert ids[..k] == ids[..k - 1] + [ids[k - 1]];
      NextIsUntouched(r, ids, role, k - 1);
    }
  }

  /** `x` stores `y` as a peer. */
  ghost predicate Edge(nodes: map<Id, NodeInfo>, x: Id, y: Id) {
    x in nodes && y in nodes[x].peers
  }

  /** Unlinking listed nodes of one role, in consistent groups with nothing released, removes
      every edge between listed nodes that touches one of them, in either direction, and no
      other edge of any listed node; unlisted nodes keep all theirs. */
  lemma UnlinkRemovesExactly(r: Record, ids: seq<Id>, role: Role)
    requires UnlinkContext(r, ids, role)
    ensures var nodes' := UnlinkAll(r.nodes, ids);
            && (forall x, y | Listed(r, x) :: Edge(nodes', x, y) <==> Edge(r.nodes, x, y) && x !in ids && y !in ids)
            && (forall x, y | !Listed(r, x) :: Edge(nodes', x, y) <==> Edge(r.nodes, x, y))
  {
    UnlinkPrefix(r, ids, role, |ids|);
    assert ids[..|ids|] == ids;
    var nodes' := UnlinkAll(r.nodes, ids);
    forall x, y | Listed(r, x)
      ensures Edge(nodes', x, y) <==> Edge(r.nodes, x, y) && x !in ids && y !in ids
    {
      if x in r.nodes {
        assert nodes'[x].peers == ExpectedPeers(r, ids, x);
        WithoutMembers(r.nodes[x].peers, ToSet(ids));
      }
    }
    forall x, y | !Listed(r, x) ensures Edge(nodes', x, y) <==> Edge(r.nodes, x, y) {
      if x in r.nodes {
        assert x in ids ==> Listed(r, x) by {
          if x in ids { PeersOfUnlinked(r, ids, role, x); }
        }
        assert nodes'[x].peers == ExpectedPeers(r, ids, x);
      }
    }
  }

  lemma UnlinkLeavesListing(r: Record, ids: seq<Id>)
    requires GraphInv(r)
    ensures var r1 := r.(nodes := UnlinkAll(r.nodes, ids));
            SameIdentity(r, r1) && forall g | g in r1.groups :: ListingOk(r1, g, r1.groups[g])
  {
    UnlinkFrame(r.nodes, ids);
    var r1 := r.(nodes := UnlinkAll(r.nodes, ids));
    forall g | g in r1.groups ensures ListingOk(r1, g, r1.groups[g]) {
      assert GroupOk(r, g, r.groups[g]);
    }
  }

  /** Linking afterwards gives every node, listed or not, exactly the peers it had. */
  lemma UnlinkLinkRoundTrip(r: Record, ids: seq<Id>, role: Role, order: seq<GroupId>)
    requires UnlinkContext(r, ids, role) && Enumerates(order, GroupsOf(r.nodes, ids))
    ensures var r2 := LinkGroups(r.(nodes := UnlinkAll(r.nodes, ids)), order);
            && r2.nodes.Keys == r.nodes.Keys && r2.groups == r.groups
            && forall x | x in r.nodes :: r2.nodes[x].peers == r.nodes[x].peers
  {
    UnlinkPrefix(r, ids, role, |ids|);
    assert ids[..|ids|] == ids;
    var r1 := r.(nodes := UnlinkAll(r.nodes, ids));
    UnlinkLeavesListing(r, ids);
    LinkChain(r1, order);
    var r2 := LinkGroups(r1, order);
    forall x | x in r.nodes ensures r2.nodes[x].peers == r.nodes[x].peers {
      assert r1.nodes[x].peers == ExpectedPeers(r, ids, x);
      if ListedIn(r1, order, x) {
        RestoredPeers(r, r2, ids, order, x);
      } else {
        assert r2.nodes[x] == r1.nodes[x];
        UntouchedPeers(r, ids, role, order, x);
      }
    }
  }

  lemma RestoredPeers(r: Record, r2: Record, ids: seq<Id>, order: seq<GroupId>, x: Id)
    requires GraphInv(r) && ListedIn(r, order, x) && NothingReleased(r, GroupsOf(r.nodes, ids))
    requires Enumerates(order, GroupsOf(r.nodes, ids)) && SameIdentity(r, r2)
    requires forall g | g in r.groups && g in order :: GroupOk(r2, g, r.groups[g]) && DecodeExact(r2, r.groups[g])
    ensures x in r.nodes && r2.nodes[x].peers == r.nodes[x].peers
  {
    var g :| g in order && g in r.groups && (x in r.groups[g].prefill || x in r.groups[g].decode);
    assert g in ToSet(order);
    ExactPeers(r, g, x);
    assert GroupOk(r2, g, r.groups[g]) && DecodeExact(r2, r.groups[g]);
    if x in r.groups[g].prefill {
      assert PrefillOk(r2, g, r.groups[g], x);
    }
  }

  lemma UnlinkedAreListed(r: Record, ids: seq<Id>, role: Role, order: seq<GroupId>)
    requires ListedSameRole(r, ids, role) && Enumerates(order, GroupsOf(r.nodes, ids))
    ensures forall x | x in ids :: ListedIn(r, order, x)
  {
    forall x | x in ids ensures ListedIn(r, order, x) {
      assert r.nodes[x].groupId in GroupsOf(r.nodes, ids);
      assert r.nodes[x].groupId in ToSet(order);
    }
  }

  lemma UntouchedPeers(r: Record, ids: seq<Id>, role: Role, order: seq<GroupId>, x: Id)
    requires UnlinkContext(r, ids, role) && Enumerates(order, GroupsOf(r.nodes, ids))
    requires x in r.nodes && !ListedIn(r, order, x)
    ensures ExpectedPeers(r, ids, x) == r.nodes[x].peers
  {
    UnlinkedAreListed(r, ids, role, order);
    if x !in ids && Listed(r, x) {
      forall id | id in ids ensures id !in r.nodes[x].peers {
        NamedOnlyByOpposite(r, ids, role, id, x);
        var g := r.nodes[id].groupId;
        assert g in GroupsOf(r.nodes, ids) && g in ToSet(order);
        ExactPeers(r, g, id);
      }
      WithoutNothing(r.nodes[x].peers, ToSet(ids));
    }
  }

  // ----- the invariant ----------------------------------------------------------------------------------------------

  /** Linking repairs the groups it is called for, damaged or not, and touches no other. */
  lemma LinkKeepsBut(r: Record, damaged: set<GroupId>, order: seq<GroupId>)
    requires GraphInvBut(r, damaged) && NoDup(order)
    ensures GraphInvBut(LinkGroups(r, order), damaged - ToSet(order))
  {
    ButListing(r, damaged);
    LinkChain(r, order);
    var r' := LinkGroups(r, order);
    forall h | h in r'.groups ensures GroupGood(r', h, h in damaged - ToSet(order)) {
      assert GroupGood(r, h, h in damaged);
      if h in order {
        GroupOkLists(r', h, r.groups[h]);
      } else {
        assert AgreesOn(r, r', h);
        if h !in damaged { SameNodesKeepGroupOk(r, r', h); }
      }
    }
  }

  /** A recovery that unlinks and relinks any stored nodes damages no group: every group it
      disturbs is one it rebuilds. */
  lemma RelinkKeepsBut(r: Record, damaged: set<GroupId>, ids: seq<Id>, order: seq<GroupId>)
    requires GraphInvBut(r, damaged) && (forall id | id in ids :: id in r.nodes)
    requires Enumerates(order, GroupsOf(r.nodes, ids))
    ensures GraphInvBut(LinkGroups(r.(nodes := UnlinkAll(r.nodes, ids)), order), damaged - GroupsOf(r.nodes, ids))
  {
    var r1, groups := r.(nodes := UnlinkAll(r.nodes, ids)), GroupsOf(r.nodes, ids);
    ButListing(r, damaged);
    UnlinkFrame(r.nodes, ids);
    DisturbedAtMost(r, r1, damaged, ids);
    LinkKeepsBut(r1, damaged + groups, order);
    assert damaged + groups - ToSet(order) == damaged - groups;
  }

  /** Unlinking disturbs at most the groups of the nodes it is called for. */
  lemma DisturbedAtMost(r: Record, r1: Record, damaged: set<GroupId>, ids: seq<Id>)
    requires GraphInvBut(r, damaged) && (forall id | id in ids :: id in r.nodes)
    requires r1 == r.(nodes := r1.nodes) && UnlinkedFrom(r.nodes, r1.nodes, ids)
    ensures GraphInvBut(r1, damaged + GroupsOf(r.nodes, ids))
  {
    forall h | h in r1.groups ensures GroupGood(r1, h, h in damaged + GroupsOf(r.nodes, ids)) {
      assert GroupGood(r, h, h in damaged);
      if h !in damaged && h !in GroupsOf(r.nodes, ids) {
        UndisturbedGroup(r, r1, ids, h);
        SameNodesKeepGroupOk(r, r1, h);
      }
    }
  }

  /** Nodes listed in a group none of the ids belongs to name none of them. */
  lemma UndisturbedGroup(r: Record, r1: Record, ids: seq<Id>, h: GroupId)
    requires h in r.groups && GroupOk(r, h, r.groups[h])
    requires h !in GroupsOf(r.nodes, ids) && (forall id | id in ids :: id in r.nodes)
    requires UnlinkedFrom(r.nodes, r1.nodes, ids)
    ensures forall x | x in r.groups[h].prefill || x in r.groups[h].decode ::
              x in r.nodes && r1.nodes[x] == r.nodes[x]
  {
    var group := r.groups[h];
    assert forall id | id in ids :: r.nodes[id].groupId != h by {
      forall id | id in ids ensures r.nodes[id].groupId != h {
        assert r.nodes[id].groupId in GroupsOf(r.nodes, ids);
      }
    }
    forall x | x in group.prefill || x in group.decode ensures x in r.nodes && r1.nodes[x] == r.nodes[x] {
      if x in group.prefill {
        assert PrefillOk(r, h, group, x);
        assert forall y | y in r.nodes[x].peers :: DecodeOk(r, h, group, y);
      } else {
        assert DecodeOk(r, h, group, x);
        assert forall y | y in r.nodes[x].peers :: PrefillOk(r, h, group, y) || Released(r, h, y);
      }
      assert x !in ids;
    }
  }

  lemma SameNodesKeepGroupOk(r: Record, r2: Record, h: GroupId)
    requires h in r.groups && GroupOk(r, h, r.groups[h]) && SameIdentity(r, r2)
    requires forall x | x in r.groups[h].prefill || x in r.groups[h].decode :: x in r2.nodes && r2.nodes[x] == r.nodes[x]
    ensures GroupOk(r2, h, r.groups[h])
  {
    var group := r.groups[h];
    forall x | x in group.prefill ensures PrefillOk(r2, h, group, x) { assert PrefillOk(r, h, group, x); }
    forall x | x in group.decode ensures DecodeOk(r2, h, group, x) { assert DecodeOk(r, h, group, x); }
  }
}
