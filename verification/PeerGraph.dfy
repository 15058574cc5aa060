/** The invariant that scaling, release and link recovery jointly keep on the peer graph. */
module PeerGraph {
  import opened Basics
  import opened Sequences
  import opened Cluster
  import opened Scaling

  /** A prefill node banished while it belonged to group `g`, still stored. */
  ghost predicate Released(r: Record, g: GroupId, id: Id) {
    id in r.expired && id in r.nodes && r.nodes[id].role == Prefill && r.nodes[id].groupId == g
  }

  ghost predicate PrefillOk(r: Record, g: GroupId, group: Group, id: Id) {
    && id in r.nodes && r.nodes[id].role == Prefill && r.nodes[id].groupId == g
    && r.nodes[id].peers == group.decode
  }

  ghost predicate DecodeOk(r: Record, g: GroupId, group: Group, id: Id) {
    && id in r.nodes && r.nodes[id].role == Decode && r.nodes[id].groupId == g
    && NoDup(r.nodes[id].peers)
    && ListedPart(r.nodes[id].peers, group.prefill) == group.prefill
    && (forall p | p in r.nodes[id].peers :: p in group.prefill || Released(r, g, p))
  }

  /** The peers that are on the list, in the order of the peers. */
  function ListedPart(peers: seq<Id>, list: seq<Id>): seq<Id> {
    Without(peers, ToSet(peers) - ToSet(list))
  }

  lemma ListedPartOfItself(list: seq<Id>)
    ensures ListedPart(list, list) == list
  {
    WithoutNothing(list, {});
    assert ToSet(list) - ToSet(list) == {};
  }

  /** Both lists are duplicate-free; a listed P node's peers are the D list; a listed D
      node's peers are the P list, in order, interspersed with at most released P nodes of
      the group. */
  ghost predicate GroupOk(r: Record, g: GroupId, group: Group) {
    && NoDup(group.prefill) && NoDup(group.decode)
    && (forall id | id in group.prefill :: PrefillOk(r, g, group, id))
    && (forall id | id in group.decode :: DecodeOk(r, g, group, id))
  }

  ghost predicate GraphInv(r: Record) {
    forall g | g in r.groups :: GroupOk(r, g, r.groups[g])
  }

  /** The lists of a group are duplicate-free and name stored nodes of the right role. */
  ghost predicate ListingOk(r: Record, g: GroupId, group: Group) {
    && NoDup(group.prefill) && NoDup(group.decode)
    && (forall id | id in group.prefill :: id in r.nodes && r.nodes[id].role == Prefill && r.nodes[id].groupId == g)
    && (forall id | id in group.decode :: id in r.nodes && r.nodes[id].role == Decode && r.nodes[id].groupId == g)
  }

  ghost predicate ListingInv(r: Record) {
    forall g | g in r.groups :: ListingOk(r, g, r.groups[g])
  }

  /** The lists are in order, and so are the peers unless the group is excepted. */
  ghost predicate GroupGood(r: Record, g: GroupId, excepted: bool)
    requires g in r.groups
  {
    ListingOk(r, g, r.groups[g]) && (excepted || GroupOk(r, g, r.groups[g]))
  }

  /** The invariant for all groups but those whose peers are damaged. */
  ghost predicate GraphInvBut(r: Record, damaged: set<GroupId>) {
    forall g | g in r.groups :: GroupGood(r, g, g in damaged)
  }

  lemma GroupOkLists(r: Record, g: GroupId, group: Group)
    requires GroupOk(r, g, group)
    ensures ListingOk(r, g, group)
  {
    assert forall id | id in group.prefill :: PrefillOk(r, g, group, id);
    assert forall id | id in group.decode :: DecodeOk(r, g, group, id);
  }

  /** With nothing damaged it is the whole invariant. */
  lemma NothingDamaged(r: Record)
    ensures GraphInv(r) <==> GraphInvBut(r, {})
    ensures GraphInv(r) ==> ListingInv(r)
  {
    if GraphInv(r) {
      forall g | g in r.groups ensures GroupGood(r, g, false) {
        GroupOkLists(r, g, r.groups[g]);
      }
    }
    if GraphInvBut(r, {}) {
      assert forall g | g in r.groups :: GroupGood(r, g, g in {});
    }
  }

  lemma ListsDisjoint(r: Record, g: GroupId, group: Group)
    requires GroupOk(r, g, group)
    ensures forall id | id in group.prefill :: id !in group.decode
  {
    forall id | id in group.prefill ensures id !in group.decode {
      assert PrefillOk(r, g, group, id);
      assert !DecodeOk(r, g, group, id);
    }
  }

  // ----- updating one group touches that group only ---------------------------------------------------

  /** At most stored peers and the contents of the group lists differ. */
  ghost predicate SameIdentity(r: Record, r': Record) {
    && r'.nodes.Keys == r.nodes.Keys && r'.groups.Keys == r.groups.Keys && r'.expired == r.expired
    && (forall id | id in r.nodes :: Same(r.nodes[id], r'.nodes[id]))
  }

  /** `r'` has the same nodes as `r`, with the same identity, and agrees with it on
      everything outside group `g`. */
  ghost predicate SameOutside(r: Record, r': Record, g: GroupId) {
    && SameIdentity(r, r')
    && (forall id | id in r.nodes && r.nodes[id].groupId != g :: r'.nodes[id] == r.nodes[id])
    && (forall h | h in r.groups && h != g :: r'.groups[h] == r.groups[h])
  }

  ghost predicate Same(a: NodeInfo, b: NodeInfo) {
    b == a.(peers := b.peers, activePeers := b.activePeers)
  }

  /** All ids mentioned by the message that exist belong to the group. */
  ghost predicate MsgWithin(r: Record, g: GroupId, msg: GroupUpdateMsg) {
    forall id | id in msg.pNodes || id in msg.dNodes :: id in r.nodes ==> r.nodes[id].groupId == g
  }

  lemma PublishSameOutside(r: Record, g: GroupId, msg: GroupUpdateMsg)
    requires MsgWithin(r, g, msg)
    ensures SameOutside(r, Publish(r, g, msg), g)
  {
  }

  lemma SameOutsideKeepsGroupOk(r: Record, r': Record, g: GroupId, h: GroupId, group: Group)
    requires SameOutside(r, r', g) && h != g && GroupOk(r, h, group)
    ensures GroupOk(r', h, group)
  {
    forall id | id in group.decode ensures DecodeOk(r', h, group, id) {
      assert DecodeOk(r, h, group, id);
    }
    forall id | id in group.prefill ensures PrefillOk(r', h, group, id) {
      assert PrefillOk(r, h, group, id);
    }
  }

  lemma SameOutsideKeepsGood(r: Record, r': Record, g: GroupId, h: GroupId, excepted: bool)
    requires SameOutside(r, r', g) && h != g && h in r.groups && GroupGood(r, h, excepted)
    ensures GroupGood(r', h, excepted)
  {
    if !excepted { SameOutsideKeepsGroupOk(r, r', g, h, r.groups[h]); }
  }

  /** Publishing both roles makes a group consistent whatever the peers were. */
  lemma PublishRepairs(r: Record, g: GroupId, msg: GroupUpdateMsg)
    requires g in r.groups && msg.hasPrefillNode && msg.hasDecodeNode && ListingOk(r, g, Group(msg.pNodes, msg.dNodes))
    ensures GroupOk(Publish(r, g, msg), g, Publish(r, g, msg).groups[g])
  {
    ListedPartOfItself(msg.pNodes);
    assert forall id | id in msg.pNodes :: id !in msg.dNodes;
  }

  /** Ids in the group's old lists and in the changes. */
  ghost predicate ChangesWithin(r: Record, g: GroupId, changes: seq<Change>) {
    forall c | c in changes :: c.id in r.nodes ==> r.nodes[c.id].groupId == g
  }

  lemma {:induction false} BuildMsgMembers(group: Group, mode: Mode, changes: seq<Change>)
    ensures var msg := BuildMsg(group, mode, changes);
            && (forall id | id in msg.pNodes ::
                  id in group.prefill || (mode == ScaleOut && Change(id, Prefill) in changes))
            && (forall id | id in msg.dNodes ::
                  id in group.decode || (mode == ScaleOut && Change(id, Decode) in changes))
            && (msg.hasPrefillNode <==> exists c | c in changes :: c.role == Prefill)
            && (msg.hasDecodeNode <==> exists c | c in changes :: c.role == Decode)
            && (!msg.hasPrefillNode ==> msg.pNodes == group.prefill)
            && (!msg.hasDecodeNode ==> msg.dNodes == group.decode)
            && (NoDup(group.prefill) ==> NoDup(msg.pNodes))
            && (NoDup(group.decode) ==> NoDup(msg.dNodes))
  {
    if changes != [] {
      var last := changes[|changes| - 1];
      var rest := changes[..|changes| - 1];
      assert changes == rest + [last];
      BuildMsgMembers(group, mode, rest);
      var msg := BuildMsg(group, mode, rest);
      RemoveFirstMembers(msg.pNodes, last.id);
      RemoveFirstMembers(msg.dNodes, last.id);
    }
  }

  /** Pruning only shortens a list, and only the list of the role whose counterpart the
      update does not bring. */
  lemma {:induction false} PruneMembers(r: Record, msg: GroupUpdateMsg, changes: seq<Change>)
    ensures var pruned := Prune(r, msg, changes);
            && (forall id | id in pruned.pNodes :: id in msg.pNodes)
            && (forall id | id in pruned.dNodes :: id in msg.dNodes)
            && pruned.hasPrefillNode == msg.hasPrefillNode && pruned.hasDecodeNode == msg.hasDecodeNode
            && (msg.hasDecodeNode ==> pruned.pNodes == msg.pNodes)
            && (msg.hasPrefillNode ==> pruned.dNodes == msg.dNodes)
            && (NoDup(msg.pNodes) ==> NoDup(pruned.pNodes))
            && (NoDup(msg.dNodes) ==> NoDup(pruned.dNodes))
  {
    if changes != [] {
      PruneMembers(r, msg, changes[..|changes| - 1]);
      var pruned := Prune(r, msg, changes[..|changes| - 1]);
      RemoveFirstMembers(pruned.pNodes, changes[|changes| - 1].id);
      RemoveFirstMembers(pruned.dNodes, changes[|changes| - 1].id);
    }
  }

  // ----- a chain of group updates ------------------------------------------------------------------------

  /** `r'` is `r` with other groups' updates applied: nothing about group `g` has changed. */
  ghost predicate AgreesOn(r: Record, r': Record, g: GroupId) {
    && SameIdentity(r, r')
    && (forall id | id in r.nodes && r.nodes[id].groupId == g :: r'.nodes[id] == r.nodes[id])
    && (g in r.groups ==> r'.groups[g] == r.groups[g])
  }

  /** Every group's list holds only stored nodes of that group, or ids no longer stored. */
  ghost predicate ListedWithin(r: Record) {
    forall g | g in r.groups :: forall id | id in r.groups[g].prefill || id in r.groups[g].decode ::
      id in r.nodes ==> r.nodes[id].groupId == g
  }

  lemma GroupMsgWithin(r: Record, mode: Mode, g: GroupId, changes: seq<Change>)
    requires ListedWithin(r) && ChangesWithin(r, g, changes)
    ensures MsgWithin(r, g, GroupMsg(r, mode, g, changes))
  {
    BuildMsgMembers(GetGroup(r, g), mode, changes);
    PruneMembers(r, BuildMsg(GetGroup(r, g), mode, changes), changes);
  }

  /** Updating the groups in `order` leaves every other group alone, and leaves the listing
      within the groups. */
  lemma {:induction false} UpdateGroupsFrame(r: Record, mode: Mode, changed: Changes, order: seq<GroupId>)
    requires forall g | g in order :: g in changed
    requires ListedWithin(r) && forall g | g in changed :: ChangesWithin(r, g, changed[g])
    ensures ListedWithin(UpdateGroups(r, mode, changed, order))
    ensures SameIdentity(r, UpdateGroups(r, mode, changed, order))
    ensures forall g | g !in order :: AgreesOn(r, UpdateGroups(r, mode, changed, order), g)
    ensures forall g | g in changed :: ChangesWithin(UpdateGroups(r, mode, changed, order), g, changed[g])
  {
    if order != [] {
      var rest, last := order[..|order| - 1], order[|order| - 1];
      UpdateGroupsFrame(r, mode, changed, rest);
      assert order == rest + [last];
      var before := UpdateGroups(r, mode, changed, rest);
      GroupMsgWithin(before, mode, last, changed[last]);
      PublishSameOutside(before, last, GroupMsg(before, mode, last, changed[last]));
      var after := UpdateGroups(r, mode, changed, order);
      assert SameOutside(before, after, last);
      forall g | g !in order ensures AgreesOn(r, after, g) {
        assert AgreesOn(r, before, g);
      }
    }
  }

  // ----- scale-in keeps the invariant -----------------------------------------------------------------------

  lemma {:induction false} RemoveAllSpec(r: Record, removed: seq<Id>)
    ensures var p := RemoveAll(r, removed);
            && p.record.groups == r.groups
            && p.record.nodes == r.nodes - ToSet(removed)
            && p.record.expired == r.expired - (ToSet(removed) * r.nodes.Keys)
            && (forall g | g in p.changed :: forall c | c in p.changed[g] ::
                  c.id in removed && c.id in r.nodes && r.nodes[c.id].groupId == g && r.nodes[c.id].role == c.role)
            && (forall id | id in removed && id in r.nodes ::
                  r.nodes[id].groupId in p.changed && Change(id, r.nodes[id].role) in p.changed[r.nodes[id].groupId])
  {
    if removed != [] {
      var rest, last := removed[..|removed| - 1], removed[|removed| - 1];
      RemoveAllSpec(r, rest);
      assert removed == rest + [last];
      assert ToSet(removed) == ToSet(rest) + {last};
    }
  }

  /** Which listed ids survive the list edits of a scale-in. */
  lemma {:induction false} BuildInExact(group: Group, changes: seq<Change>)
    requires NoDup(group.prefill) && NoDup(group.decode)
    ensures var msg := BuildMsg(group, ScaleIn, changes);
            && (forall id :: id in msg.pNodes <==> id in group.prefill && Change(id, Prefill) !in changes)
            && (forall id :: id in msg.dNodes <==> id in group.decode && Change(id, Decode) !in changes)
  {
    if changes != [] {
      var rest, last := changes[..|changes| - 1], changes[|changes| - 1];
      assert changes == rest + [last];
      BuildInExact(group, rest);
      BuildMsgMembers(group, ScaleIn, rest);
      var msg := BuildMsg(group, ScaleIn, rest);
      RemoveFirstMembers(msg.pNodes, last.id);
      RemoveFirstMembers(msg.dNodes, last.id);
    }
  }

  /** `r1` is `r0` after removing exactly the nodes of group `g` named by `changes`. */
  ghost predicate AfterRemoval(r0: Record, r1: Record, g: GroupId, changes: seq<Change>) {
    && (g in r1.groups <==> g in r0.groups) && GetGroup(r1, g) == GetGroup(r0, g)
    && (forall c | c in changes ::
          c.id in r0.nodes && c.id !in r1.nodes && r0.nodes[c.id].groupId == g && r0.nodes[c.id].role == c.role)
    && (forall id | id in r0.nodes && r0.nodes[id].groupId == g ::
          if id in r1.nodes then r1.nodes[id] == r0.nodes[id] else Change(id, r0.nodes[id].role) in changes)
    && (forall id | id in r0.expired && id in r1.nodes :: id in r1.expired)
  }

  lemma ScaleInGroupOk(r0: Record, r1: Record, g: GroupId, changes: seq<Change>)
    requires g in r0.groups && GroupOk(r0, g, r0.groups[g]) && AfterRemoval(r0, r1, g, changes)
    ensures var r2 := UpdateOneGroup(r1, ScaleIn, g, changes);
            g in r2.groups && GroupOk(r2, g, r2.groups[g])
  {
    var group := r0.groups[g];
    var msg := BuildMsg(group, ScaleIn, changes);
    var r2 := UpdateOneGroup(r1, ScaleIn, g, changes);
    BuildMsgMembers(group, ScaleIn, changes);
    BuildInExact(group, changes);
    ListsDisjoint(r0, g, group);
    ListedPartOfItself(msg.pNodes);
    forall id | id in msg.pNodes ensures PrefillOk(r2, g, r2.groups[g], id) {
      assert PrefillOk(r0, g, group, id);
      assert id in r1.nodes;
    }
    forall id | id in msg.dNodes ensures DecodeOk(r2, g, r2.groups[g], id) {
      assert DecodeOk(r0, g, group, id);
      assert id in r1.nodes;
      if !msg.hasPrefillNode {
        forall p | p in r2.nodes[id].peers ensures p in msg.pNodes || Released(r2, g, p) {
          if p !in group.prefill {
            assert Released(r0, g, p);
            assert p in r1.nodes;
          }
        }
      }
    }
  }

  ghost predicate BothRoles(changes: seq<Change>) {
    (exists c | c in changes :: c.role == Prefill) && (exists c | c in changes :: c.role == Decode)
  }

  lemma ScaleInListingOk(r0: Record, r1: Record, g: GroupId, changes: seq<Change>)
    requires g in r0.groups && ListingOk(r0, g, r0.groups[g]) && AfterRemoval(r0, r1, g, changes)
    ensures var msg := BuildMsg(r0.groups[g], ScaleIn, changes); ListingOk(r1, g, Group(msg.pNodes, msg.dNodes))
  {
    var group := r0.groups[g];
    BuildMsgMembers(group, ScaleIn, changes);
    BuildInExact(group, changes);
  }

  /** An update that removes both roles leaves a consistent group even if it was damaged. */
  lemma ScaleInGroupGood(r0: Record, r1: Record, g: GroupId, changes: seq<Change>, excepted: bool)
    requires g in r0.groups && GroupGood(r0, g, excepted) && AfterRemoval(r0, r1, g, changes)
    ensures var r2 := UpdateOneGroup(r1, ScaleIn, g, changes);
            g in r2.groups && GroupGood(r2, g, excepted && !BothRoles(changes))
  {
    var r2 := UpdateOneGroup(r1, ScaleIn, g, changes);
    ScaleInListingOk(r0, r1, g, changes);
    if !excepted {
      ScaleInGroupOk(r0, r1, g, changes);
    } else if BothRoles(changes) {
      BuildMsgMembers(r0.groups[g], ScaleIn, changes);
      PublishRepairs(r1, g, BuildMsg(r0.groups[g], ScaleIn, changes));
    }
    PublishKeepsListing(r1, g, BuildMsg(r0.groups[g], ScaleIn, changes));
  }

  lemma PublishKeepsListing(r: Record, g: GroupId, msg: GroupUpdateMsg)
    requires g in r.groups && ListingOk(r, g, Group(msg.pNodes, msg.dNodes))
    ensures ListingOk(Publish(r, g, msg), g, Publish(r, g, msg).groups[g])
  {
  }

  lemma {:induction false} ScaleInChain(r: Record, damaged: set<GroupId>, removed: seq<Id>, order: seq<GroupId>)
    requires GraphInvBut(r, damaged) && NoDup(order)
    requires forall g | g in order :: g in RemoveAll(r, removed).changed
    ensures var p := RemoveAll(r, removed);
            var r' := UpdateGroups(p.record, ScaleIn, p.changed, order);
            && r'.groups.Keys == r.groups.Keys
            && forall g | g in r.groups && g in order :: GroupGood(r', g, g in damaged && !BothRoles(p.changed[g]))
    decreases |order|
  {
    ButListing(r, damaged);
    RemovalLeavesListedWithin(r, removed);
    var p := RemoveAll(r, removed);
    UpdateGroupsFrame(p.record, ScaleIn, p.changed, order);
    RemoveAllSpec(r, removed);
    if order != [] {
      var rest, last := order[..|order| - 1], order[|order| - 1];
      assert order == rest + [last];
      ScaleInChain(r, damaged, removed, rest);
      UpdateGroupsFrame(p.record, ScaleIn, p.changed, rest);
      var before := UpdateGroups(p.record, ScaleIn, p.changed, rest);
      var after := UpdateGroups(p.record, ScaleIn, p.changed, order);
      GroupMsgWithin(before, ScaleIn, last, p.changed[last]);
      PublishSameOutside(before, last, GroupMsg(before, ScaleIn, last, p.changed[last]));
      assert AgreesOn(p.record, before, last);
      if last in r.groups {
        assert GroupGood(r, last, last in damaged);
        ScaleInGroupGood(r, before, last, p.changed[last], last in damaged);
      }
      forall g | g in r.groups && g in rest ensures GroupGood(after, g, g in damaged && !BothRoles(p.changed[g])) {
        SameOutsideKeepsGood(before, after, last, g, g in damaged && !BothRoles(p.changed[g]));
      }
    }
  }

  lemma ButListing(r: Record, damaged: set<GroupId>)
    requires GraphInvBut(r, damaged)
    ensures ListingInv(r)
  {
    forall g | g in r.groups ensures ListingOk(r, g, r.groups[g]) {
      assert GroupGood(r, g, g in damaged);
    }
  }

  lemma RemovalLeavesListedWithin(r: Record, removed: seq<Id>)
    requires ListingInv(r)
    ensures var p := RemoveAll(r, removed);
            ListedWithin(p.record) && forall g | g in p.changed :: ChangesWithin(p.record, g, p.changed[g])
  {
    RemoveAllSpec(r, removed);
    var p := RemoveAll(r, removed);
    forall g, id | g in r.groups && (id in r.groups[g].prefill || id in r.groups[g].decode) && id in p.record.nodes
      ensures p.record.nodes[id].groupId == g
    {
      assert ListingOk(r, g, r.groups[g]);
    }
  }

  /** The damaged groups for which an update brings both roles. */
  ghost function Repaired(damaged: set<GroupId>, changed: Changes, order: seq<GroupId>): set<GroupId> {
    set g | g in damaged && g in order && g in changed && BothRoles(changed[g])
  }

  /** Scale-in keeps the invariant, whatever ids are removed and in whatever order the
      groups are processed; damaged groups stay listed properly, and those that lose both
      roles are repaired. */
  lemma ScaleInKeepsBut(r: Record, damaged: set<GroupId>, changes: NodeChanges, order: seq<GroupId>)
    requires GraphInvBut(r, damaged) && Enumerates(order, RemoveAll(r, changes.removedIDs).changed.Keys)
    ensures (forall g | g in order :: g in RemoveAll(r, changes.removedIDs).changed)
    ensures GraphInvBut(ScaledIn(r, changes, order),
                        damaged - Repaired(damaged, RemoveAll(r, changes.removedIDs).changed, order))
  {
    var removed := changes.removedIDs;
    var p := RemoveAll(r, removed);
    assert forall g | g in order :: g in ToSet(order);
    var r' := ScaledIn(r, changes, order);
    ScaleInChain(r, damaged, removed, order);
    ButListing(r, damaged);
    RemovalLeavesListedWithin(r, removed);
    UpdateGroupsFrame(p.record, ScaleIn, p.changed, order);
    forall g | g in r'.groups ensures GroupGood(r', g, g in damaged - Repaired(damaged, p.changed, order)) {
      if g in order {
        assert GroupGood(r', g, g in damaged && !BothRoles(p.changed[g]));
      } else {
        assert GroupGood(r, g, g in damaged);
        UntouchedByRemoval(r, p.record, r', g, removed, order, g in damaged);
      }
    }
  }

  lemma UntouchedByRemoval(r: Record, p: Record, r': Record, g: GroupId, removed: seq<Id>, order: seq<GroupId>,
                           excepted: bool)
    requires p == RemoveAll(r, removed).record && AgreesOn(p, r', g)
    requires ToSet(order) == RemoveAll(r, removed).changed.Keys && g !in order
    requires g in r.groups && GroupGood(r, g, excepted)
    ensures g in r'.groups && GroupGood(r', g, excepted)
  {
    RemoveAllSpec(r, removed);
    assert g !in ToSet(order);
    assert AfterRemoval(r, r', g, []);
    ScaleInGroupGood(r, r', g, [], excepted);
    NoUpdate(r', ScaleIn, g);
  }

  lemma NoUpdate(r: Record, mode: Mode, g: GroupId)
    ensures UpdateOneGroup(r, mode, g, []) == r
  {
  }

  lemma ScaleInKeepsInv(r: Record, changes: NodeChanges, order: seq<GroupId>)
    requires GraphInv(r) && Enumerates(order, RemoveAll(r, changes.removedIDs).changed.Keys)
    ensures (forall g | g in order :: g in RemoveAll(r, changes.removedIDs).changed)
    ensures GraphInv(ScaledIn(r, changes, order))
  {
    NothingDamaged(r);
    ScaleInKeepsBut(r, {}, changes, order);
    assert {} - Repaired({}, RemoveAll(r, changes.removedIDs).changed, order) == {};
    NothingDamaged(ScaledIn(r, changes, order));
  }

  // ----- scale-out keeps the invariant -------------------------------------------------------------------------

  /** `r1` is `r0` with nodes added for the changes of group `g`, each still carrying the
      peers it was given on joining; ids may have been banished. */
  ghost predicate AfterAdmission(r0: Record, r1: Record, g: GroupId, changes: seq<Change>) {
    && (g in r1.groups <==> g in r0.groups) && GetGroup(r1, g) == GetGroup(r0, g)
    && (forall id | id in r0.nodes :: id in r1.nodes && Same(r0.nodes[id], r1.nodes[id]))
    && (forall id | id in r0.nodes && r0.nodes[id].groupId == g :: r1.nodes[id] == r0.nodes[id])
    && r0.expired <= r1.expired
    && (forall c | c in changes :: JoinOk(r0, r1, g, c))
  }

  /** Pruning leaves a list alone when no change concerns its role. */
  lemma {:induction false} PruneOnlyChanged(r: Record, msg: GroupUpdateMsg, changes: seq<Change>)
    requires forall c | c in changes :: c.id in r.nodes ==> r.nodes[c.id].role == c.role
    ensures (forall c | c in changes :: c.role != Prefill) ==> Prune(r, msg, changes).pNodes == msg.pNodes
    ensures (forall c | c in changes :: c.role != Decode) ==> Prune(r, msg, changes).dNodes == msg.dNodes
  {
    if changes != [] {
      assert changes == changes[..|changes| - 1] + [changes[|changes| - 1]];
      PruneOnlyChanged(r, msg, changes[..|changes| - 1]);
    }
  }

  /** What the message of a scale-out can list. */
  lemma OutMsgFacts(r0: Record, r1: Record, g: GroupId, changes: seq<Change>)
    requires g in r0.groups && ListingOk(r0, g, r0.groups[g]) && AfterAdmission(r0, r1, g, changes)
    ensures var msg := GroupMsg(r1, ScaleOut, g, changes);
            && (msg.hasPrefillNode && msg.hasDecodeNode <==> BothRoles(changes))
            && NoDup(msg.pNodes) && NoDup(msg.dNodes)
            && (forall id | id in msg.pNodes :: id in r0.groups[g].prefill || Change(id, Prefill) in changes)
            && (forall id | id in msg.dNodes :: id in r0.groups[g].decode || Change(id, Decode) in changes)
            && (!msg.hasPrefillNode ==> msg.pNodes == r0.groups[g].prefill)
            && (!msg.hasDecodeNode ==> msg.dNodes == r0.groups[g].decode)
  {
    var group := r0.groups[g];
    BuildMsgMembers(group, ScaleOut, changes);
    var msg := BuildMsg(group, ScaleOut, changes);
    PruneMembers(r1, msg, changes);
    PruneOnlyChanged(r1, msg, changes);
  }

  lemma ScaleOutDecodeOk(r0: Record, r1: Record, g: GroupId, changes: seq<Change>, id: Id)
    requires g in r0.groups && GroupOk(r0, g, r0.groups[g]) && AfterAdmission(r0, r1, g, changes)
    requires id in GroupMsg(r1, ScaleOut, g, changes).dNodes
    ensures var r2 := UpdateOneGroup(r1, ScaleOut, g, changes); DecodeOk(r2, g, r2.groups[g], id)
  {
    var group := r0.groups[g];
    var msg := GroupMsg(r1, ScaleOut, g, changes);
    var r2 := UpdateOneGroup(r1, ScaleOut, g, changes);
    GroupOkLists(r0, g, group);
    OutMsgFacts(r0, r1, g, changes);
    ScaleOutListingOk(r0, r1, g, changes);
    ListedPartOfItself(msg.pNodes);
    assert id !in msg.pNodes;
    if !msg.hasPrefillNode && id in group.decode {
      assert DecodeOk(r0, g, group, id);
      forall p | p in r2.nodes[id].peers ensures p in msg.pNodes || Released(r2, g, p) {
        assert p in group.prefill || Released(r0, g, p);
      }
    }
  }

  lemma ScaleOutPrefillOk(r0: Record, r1: Record, g: GroupId, changes: seq<Change>, id: Id)
    requires g in r0.groups && GroupOk(r0, g, r0.groups[g]) && AfterAdmission(r0, r1, g, changes)
    requires id in GroupMsg(r1, ScaleOut, g, changes).pNodes
    ensures var r2 := UpdateOneGroup(r1, ScaleOut, g, changes); PrefillOk(r2, g, r2.groups[g], id)
  {
    var group := r0.groups[g];
    var msg := GroupMsg(r1, ScaleOut, g, changes);
    GroupOkLists(r0, g, group);
    OutMsgFacts(r0, r1, g, changes);
    ScaleOutListingOk(r0, r1, g, changes);
    assert id !in msg.dNodes;
    if id in group.prefill { assert PrefillOk(r0, g, group, id); }
  }

  lemma ScaleOutGroupOk(r0: Record, r1: Record, g: GroupId, changes: seq<Change>)
    requires g in r0.groups && GroupOk(r0, g, r0.groups[g]) && AfterAdmission(r0, r1, g, changes)
    ensures var r2 := UpdateOneGroup(r1, ScaleOut, g, changes);
            g in r2.groups && GroupOk(r2, g, r2.groups[g])
  {
    var msg := GroupMsg(r1, ScaleOut, g, changes);
    var r2 := UpdateOneGroup(r1, ScaleOut, g, changes);
    GroupOkLists(r0, g, r0.groups[g]);
    OutMsgFacts(r0, r1, g, changes);
    forall id | id in msg.pNodes ensures PrefillOk(r2, g, r2.groups[g], id) {
      ScaleOutPrefillOk(r0, r1, g, changes, id);
    }
    forall id | id in msg.dNodes ensures DecodeOk(r2, g, r2.groups[g], id) {
      ScaleOutDecodeOk(r0, r1, g, changes, id);
    }
  }

  lemma ScaleOutListingOk(r0: Record, r1: Record, g: GroupId, changes: seq<Change>)
    requires g in r0.groups && ListingOk(r0, g, r0.groups[g]) && AfterAdmission(r0, r1, g, changes)
    ensures var msg := GroupMsg(r1, ScaleOut, g, changes); ListingOk(r1, g, Group(msg.pNodes, msg.dNodes))
  {
    OutMsgFacts(r0, r1, g, changes);
  }

  /** A scale-out that brings both roles leaves a consistent group even if it was damaged. */
  lemma ScaleOutGroupGood(r0: Record, r1: Record, g: GroupId, changes: seq<Change>, excepted: bool)
    requires g in r0.groups && GroupGood(r0, g, excepted) && AfterAdmission(r0, r1, g, changes)
    ensures var r2 := UpdateOneGroup(r1, ScaleOut, g, changes);
            g in r2.groups && GroupGood(r2, g, excepted && !BothRoles(changes))
  {
    ScaleOutListingOk(r0, r1, g, changes);
    if !excepted {
      ScaleOutGroupOk(r0, r1, g, changes);
    } else if BothRoles(changes) {
      OutMsgFacts(r0, r1, g, changes);
      PublishRepairs(r1, g, GroupMsg(r1, ScaleOut, g, changes));
    }
    PublishKeepsListing(r1, g, GroupMsg(r1, ScaleOut, g, changes));
  }

  /** Rows that can be admitted: unknown ids, each once. */
  ghost predicate FreshRows(r: Record, available: seq<ServerNode>) {
    && (forall row | row in available :: row.id !in r.nodes)
    && (forall i, j | 0 <= i < j < |available| :: available[i].id != available[j].id)
  }

  /** A change noted for group `g` stands for a node that joined it with the peers the
      group had. */
  ghost predicate JoinOk(r: Record, r': Record, g: GroupId, c: Change) {
    && c.id !in r.nodes && c.id in r'.nodes && c.role != Undefined
    && r'.nodes[c.id].role == c.role && r'.nodes[c.id].groupId == g
    && r'.nodes[c.id].peers == if c.role == Decode then GetGroup(r, g).prefill else GetGroup(r, g).decode
  }

  /** The record after admission, apart from the groups' updates. */
  ghost predicate Admitted(r: Record, p: Pending, available: seq<ServerNode>) {
    && p.record.groups == r.groups && r.expired <= p.record.expired
    && (forall id | id in r.nodes :: id in p.record.nodes && p.record.nodes[id] == r.nodes[id])
    && (forall id | id in p.record.nodes :: id in r.nodes || exists row | row in available :: row.id == id)
    && (forall g | g in p.changed :: forall c | c in p.changed[g] :: JoinOk(r, p.record, g, c))
  }

  lemma AdmitOneKeeps(r: Record, p: Pending, ids: seq<GroupId>, counts: map<GroupId, Counts>, grouped: set<Id>,
                      rest: seq<ServerNode>, row: ServerNode)
    requires Admitted(r, p, rest) && row.id !in p.record.nodes
    ensures Admitted(r, AdmitOne(p, ids, counts, grouped, row), rest + [row])
  {
    var p' := AdmitOne(p, ids, counts, grouped, row);
    forall id | id in p'.record.nodes
      ensures id in r.nodes || exists other | other in rest + [row] :: other.id == id
    {
      if id == row.id {
        assert row in rest + [row];
      } else if id !in r.nodes {
        var other :| other in rest && other.id == id;
        assert other in rest + [row];
      }
    }
    forall g, c | g in p'.changed && c in p'.changed[g] ensures JoinOk(r, p'.record, g, c) {
      if g in p.changed && c in p.changed[g] {
        assert JoinOk(r, p.record, g, c);
      }
    }
  }

  lemma {:induction false} AdmitAllSpec(r: Record, ids: seq<GroupId>, counts: map<GroupId, Counts>, grouped: set<Id>,
                                        available: seq<ServerNode>)
    requires FreshRows(r, available)
    ensures Admitted(r, AdmitAll(r, ids, counts, grouped, available), available)
  {
    if available != [] {
      var rest, last := available[..|available| - 1], available[|available| - 1];
      assert available == rest + [last];
      AdmitAllSpec(r, ids, counts, grouped, rest);
      AdmitOneKeeps(r, AdmitAll(r, ids, counts, grouped, rest), ids, counts, grouped, rest, last);
    }
  }

  /** What lets a scale-out update its groups one by one, starting from record `r`. */
  ghost predicate ReadyToPublish(r: Record, p: Pending) {
    && p.record.groups == r.groups && ListedWithin(p.record)
    && (forall g :: AfterAdmission(r, p.record, g, []))
    && (forall g | g in p.changed :: forall c | c in p.changed[g] :: JoinOk(r, p.record, g, c))
  }

  lemma AgreementCarriesAdmission(r: Record, p: Pending, before: Record, g: GroupId)
    requires ReadyToPublish(r, p) && g in p.changed && AgreesOn(p.record, before, g)
    ensures AfterAdmission(r, before, g, p.changed[g]) && ChangesWithin(before, g, p.changed[g])
  {
    assert AfterAdmission(r, p.record, g, []);
    forall c | c in p.changed[g] ensures JoinOk(r, before, g, c) {
      assert JoinOk(r, p.record, g, c);
    }
  }

  /** Every group is good, excepted only if it was damaged and none of the updates in `order`
      brought it both roles. */
  ghost predicate GoodAfter(r: Record, damaged: set<GroupId>, changed: Changes, order: seq<GroupId>) {
    forall g | g in r.groups :: GroupGood(r, g, g in damaged && !(g in order && g in changed && BothRoles(changed[g])))
  }

  lemma ScaleOutStep(r: Record, damaged: set<GroupId>, p: Pending, before: Record, rest: seq<GroupId>, g: GroupId)
    requires GraphInvBut(r, damaged) && ReadyToPublish(r, p) && g in p.changed && g !in rest
    requires AgreesOn(p.record, before, g) && ListedWithin(before) && GoodAfter(before, damaged, p.changed, rest)
    ensures GoodAfter(UpdateOneGroup(before, ScaleOut, g, p.changed[g]), damaged, p.changed, rest + [g])
  {
    AgreementCarriesAdmission(r, p, before, g);
    GroupMsgWithin(before, ScaleOut, g, p.changed[g]);
    PublishSameOutside(before, g, GroupMsg(before, ScaleOut, g, p.changed[g]));
    var after := UpdateOneGroup(before, ScaleOut, g, p.changed[g]);
    if g in r.groups {
      assert GroupGood(r, g, g in damaged);
      ScaleOutGroupGood(r, before, g, p.changed[g], g in damaged);
    }
    OthersStayGood(before, after, damaged, p.changed, rest, g);
  }

  lemma OthersStayGood(before: Record, after: Record, damaged: set<GroupId>, changed: Changes, rest: seq<GroupId>, g: GroupId)
    requires SameOutside(before, after, g) && GoodAfter(before, damaged, changed, rest)
    requires g in after.groups ==>
               GroupGood(after, g, g in damaged && !(g in rest + [g] && g in changed && BothRoles(changed[g])))
    ensures GoodAfter(after, damaged, changed, rest + [g])
  {
    forall h | h in after.groups
      ensures GroupGood(after, h, h in damaged && !(h in rest + [g] && h in changed && BothRoles(changed[h])))
    {
      if h != g {
        var excepted := h in damaged && !(h in rest && h in changed && BothRoles(changed[h]));
        assert GroupGood(before, h, excepted);
        SameOutsideKeepsGood(before, after, g, h, excepted);
      }
    }
  }

  lemma {:induction false} ScaleOutChain(r: Record, damaged: set<GroupId>, p: Pending, order: seq<GroupId>)
    requires GraphInvBut(r, damaged) && ReadyToPublish(r, p) && NoDup(order) && forall g | g in order :: g in p.changed
    ensures GoodAfter(UpdateGroups(p.record, ScaleOut, p.changed, order), damaged, p.changed, order)
    decreases |order|
  {
    if order == [] {
      forall g | g in r.groups ensures GroupGood(p.record, g, g in damaged) {
        assert GroupGood(r, g, g in damaged);
        ScaleOutGroupGood(r, p.record, g, [], g in damaged);
        assert UpdateOneGroup(p.record, ScaleOut, g, []) == p.record;
      }
    } else {
      var rest, last := order[..|order| - 1], order[|order| - 1];
      assert order == rest + [last];
      ScaleOutChain(r, damaged, p, rest);
      forall g | g in p.changed ensures ChangesWithin(p.record, g, p.changed[g]) {
        assert forall c | c in p.changed[g] :: JoinOk(r, p.record, g, c);
      }
      UpdateGroupsFrame(p.record, ScaleOut, p.changed, rest);
      ScaleOutStep(r, damaged, p, UpdateGroups(p.record, ScaleOut, p.changed, rest), rest, last);
    }
  }

  lemma AdmissionIsReady(r: Record, ids: seq<GroupId>, grouped: set<Id>, available: seq<ServerNode>)
    requires ListingInv(r) && FreshRows(r, available)
    ensures ReadyToPublish(r, Admission(r, ids, grouped, available))
  {
    var p := Admission(r, ids, grouped, available);
    AdmitAllSpec(r, ids, PreAdd(r, ids, available), grouped, available);
    forall g, id | g in r.groups && (id in r.groups[g].prefill || id in r.groups[g].decode)
      ensures id in p.record.nodes && p.record.nodes[id].groupId == g
    {
      assert ListingOk(r, g, r.groups[g]);
    }
  }

  /** Scale-out keeps the invariant: for any set of fresh servers, any refusals and grouping
      failures, and even when it is broken off after some of the groups. Damaged groups stay
      listed properly, and those that gain both roles are repaired. */
  lemma ScaleOutKeepsBut(r: Record, damaged: set<GroupId>, choices: Choices)
    requires GraphInvBut(r, damaged) && choices.available.Some? && FreshRows(r, choices.available.value)
    requires NoDup(choices.outOrder)
    requires forall g | g in choices.outOrder ::
               g in Admission(r, choices.groupIds, choices.grouped, choices.available.value).changed
    ensures var changed := Admission(r, choices.groupIds, choices.grouped, choices.available.value).changed;
            GraphInvBut(ScaledOut(r, choices), damaged - Repaired(damaged, changed, choices.outOrder))
  {
    var available := choices.available.value;
    var p := Admission(r, choices.groupIds, choices.grouped, available);
    ButListing(r, damaged);
    AdmissionIsReady(r, choices.groupIds, choices.grouped, available);
    ScaleOutChain(r, damaged, p, choices.outOrder);
    var r', left := ScaledOut(r, choices), damaged - Repaired(damaged, p.changed, choices.outOrder);
    forall g | g in r'.groups ensures GroupGood(r', g, g in left) {
      assert GroupGood(r', g, g in damaged && !(g in choices.outOrder && g in p.changed && BothRoles(p.changed[g])));
    }
  }

  lemma ScaleOutKeepsInv(r: Record, choices: Choices)
    requires GraphInv(r) && choices.available.Some? && FreshRows(r, choices.available.value)
    requires NoDup(choices.outOrder)
    requires forall g | g in choices.outOrder ::
               g in Admission(r, choices.groupIds, choices.grouped, choices.available.value).changed
    ensures GraphInv(ScaledOut(r, choices))
  {
    NothingDamaged(r);
    ScaleOutKeepsBut(r, {}, choices);
    var changed := Admission(r, choices.groupIds, choices.grouped, choices.available.value).changed;
    assert {} - Repaired({}, changed, choices.outOrder) == {};
    NothingDamaged(ScaledOut(r, choices));
  }
}
