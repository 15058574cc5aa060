/** The prediction made before a scale-out (`PreAddAvailableServers2Group`) against the lists
    the scale-out then builds. */
module PreAddition {
  import opened Basics
  import opened Sequences
  import opened Cluster
  import opened Scaling
  import opened PeerGraph
  import opened Rounds
  import Links

  /** `SelectBestGroup` answers one of the groups it is given, for a P or D server. */
  lemma {:induction false} TargetIsListed(r: Record, role: Role, ids: seq<GroupId>)
    requires role != Undefined && ids != []
    requires forall g | g in ids :: |GetGroup(r, g).prefill| < UINT64_MAX && |GetGroup(r, g).decode| < UINT64_MAX
    ensures TargetGroup(r, role, ids) in ids
  {
    var rest, last := ids[..|ids| - 1], ids[|ids| - 1];
    assert ids == rest + [last];
    assert last in ids;
    if rest != [] {
      TargetIsListed(r, role, rest);
    } else {
      assert BestGroup(r, role, rest) == Best(UINT64_MAX, 0);
    }
  }

  /** The length of the list a server of this role would join, and of the other one. */
  function OwnSize(r: Record, g: GroupId, role: Role): nat {
    if role == Decode then |GetGroup(r, g).decode| else |GetGroup(r, g).prefill|
  }

  function OtherSize(r: Record, g: GroupId, role: Role): nat {
    if role == Decode then |GetGroup(r, g).prefill| else |GetGroup(r, g).decode|
  }

  ghost predicate SizesFit(r: Record, ids: seq<GroupId>) {
    forall g | g in ids :: |GetGroup(r, g).prefill| < UINT64_MAX && |GetGroup(r, g).decode| < UINT64_MAX
  }

  lemma {:induction false} LeastIsOtherSize(r: Record, role: Role, ids: seq<GroupId>)
    requires role != Undefined && ids != [] && SizesFit(r, ids)
    ensures BestGroup(r, role, ids).least == OtherSize(r, TargetGroup(r, role, ids), role)
  {
    var rest, last := ids[..|ids| - 1], ids[|ids| - 1];
    assert ids == rest + [last];
    assert last in ids;
    if rest != [] {
      LeastIsOtherSize(r, role, rest);
    } else {
      assert BestGroup(r, role, rest) == Best(UINT64_MAX, 0);
    }
  }

  /** One group is selected if it is the only one; each further group takes over exactly when it
      has fewer nodes of the server's role than the one selected so far has of the other. */
  lemma NextGroupWinsIff(r: Record, role: Role, ids: seq<GroupId>, g: GroupId)
    requires role != Undefined && SizesFit(r, ids + [g])
    ensures var target := TargetGroup(r, role, ids);
            TargetGroup(r, role, ids + [g]) ==
            if ids == [] || OwnSize(r, g, role) < OtherSize(r, target, role) then g else target
  {
    assert (ids + [g])[..|ids|] == ids && g in ids + [g];
    if ids == [] {
      assert BestGroup(r, role, []) == Best(UINT64_MAX, 0);
    } else {
      assert SizesFit(r, ids);
      LeastIsOtherSize(r, role, ids);
    }
  }

  /** Where every listed group has as many P as D nodes, the first of the smallest is selected. */
  lemma {:induction false} BalancedSelectsLeast(r: Record, role: Role, ids: seq<GroupId>) returns (k: nat)
    requires role != Undefined && ids != [] && SizesFit(r, ids)
    requires forall g | g in ids :: |GetGroup(r, g).prefill| == |GetGroup(r, g).decode|
    ensures k < |ids| && TargetGroup(r, role, ids) == ids[k]
    ensures forall j | 0 <= j < k :: OwnSize(r, ids[k], role) < OwnSize(r, ids[j], role)
    ensures forall j | k < j < |ids| :: OwnSize(r, ids[k], role) <= OwnSize(r, ids[j], role)
  {
    var rest, last := ids[..|ids| - 1], ids[|ids| - 1];
    assert ids == rest + [last];
    NextGroupWinsIff(r, role, rest, last);
    k := 0;
    if rest != [] {
      k := BalancedSelectsLeast(r, role, rest);
      assert rest[k] in ids;
      if TargetGroup(r, role, ids) != rest[k] || OwnSize(r, last, role) < OtherSize(r, rest[k], role) { k := |rest|; }
    }
  }

  function ChangesOf(changed: Changes, g: GroupId): seq<Change> {
    if g in changed then changed[g] else []
  }

  function CountsOf(counts: map<GroupId, Counts>, g: GroupId): Counts {
    if g in counts then counts[g] else Counts(0, 0)
  }

  ghost predicate KnownRoles(available: seq<ServerNode>) {
    forall row | row in available :: row.role != Undefined
  }

  /** Servers of a role headed for group `g` that fail DP grouping. */
  function Lost(r: Record, ids: seq<GroupId>, grouped: set<Id>, available: seq<ServerNode>, g: GroupId, role: Role): nat {
    if available == [] then 0
    else
      var row := available[|available| - 1];
      Lost(r, ids, grouped, available[..|available| - 1], g, role)
        + if row.role == role && TargetGroup(r, role, ids) == g && row.id !in grouped then 1 else 0
  }

  lemma {:induction false} NoneLost(r: Record, ids: seq<GroupId>, grouped: set<Id>, available: seq<ServerNode>,
                                    g: GroupId, role: Role)
    ensures Lost(r, ids, grouped, available, g, role) == 0 <==>
            forall row | row in available :: row.role == role && TargetGroup(r, role, ids) == g ==> row.id in grouped
  {
    if available != [] {
      assert available == available[..|available| - 1] + [available[|available| - 1]];
      NoneLost(r, ids, grouped, available[..|available| - 1], g, role);
    }
  }

  /** The lists that the message for group `g` names so far mention only stored nodes and
      servers already admitted. */
  lemma MsgMentions(r: Record, p: Pending, available: seq<ServerNode>, g: GroupId)
    requires ListingInv(r) && Admitted(r, p, available)
    ensures var msg := BuildMsg(GetGroup(r, g), ScaleOut, ChangesOf(p.changed, g));
            forall id | id in msg.pNodes || id in msg.dNodes :: id in p.record.nodes
  {
    var changes := ChangesOf(p.changed, g);
    BuildMsgMembers(GetGroup(r, g), ScaleOut, changes);
    if g in r.groups {
      assert ListingOk(r, g, r.groups[g]);
    }
    forall c | c in changes ensures c.id in p.record.nodes {
      assert JoinOk(r, p.record, g, c);
    }
  }

  /** One more server for the group lengthens one list by one. */
  lemma OneLonger(group: Group, changes: seq<Change>, c: Change)
    requires c.role != Undefined
    requires c.id !in BuildMsg(group, ScaleOut, changes).pNodes && c.id !in BuildMsg(group, ScaleOut, changes).dNodes
    ensures var was := BuildMsg(group, ScaleOut, changes);
            var msg := BuildMsg(group, ScaleOut, changes + [c]);
            && |msg.pNodes| == |was.pNodes| + (if c.role == Prefill then 1 else 0)
            && |msg.dNodes| == |was.dNodes| + (if c.role == Decode then 1 else 0)
  {
    assert (changes + [c])[..|changes|] == changes;
  }

  /** What admitting one server notes for group `g`. */
  lemma NotedFor(r: Record, before: Pending, ids: seq<GroupId>, counts: map<GroupId, Counts>, grouped: set<Id>,
                 row: ServerNode, g: GroupId)
    requires before.record.groups == r.groups && row.role != Undefined
    requires Verdict(r, counts, g) != NOT_SCALE_OUT
    ensures ChangesOf(AdmitOne(before, ids, counts, grouped, row).changed, g) ==
            ChangesOf(before.changed, g)
              + if TargetGroup(r, row.role, ids) == g && row.id in grouped then [Change(row.id, row.role)] else []
  {
    BestGroupOnGroups(r, before.record, row.role, ids);
  }

  /** What one more server of known role adds to the predicted counts. */
  lemma CountsStep(r: Record, ids: seq<GroupId>, available: seq<ServerNode>, g: GroupId)
    requires available != [] && available[|available| - 1].role != Undefined
    ensures var last := available[|available| - 1];
            var was := CountsOf(PreAdd(r, ids, available[..|available| - 1]), g);
            var here := TargetGroup(r, last.role, ids) == g;
            CountsOf(PreAdd(r, ids, available), g) ==
            Counts(was.prefill + (if here && last.role == Prefill then 1 else 0),
                   was.decode + (if here && last.role == Decode then 1 else 0))
  {
  }

  /** What it adds to the lists, if it joins. */
  lemma ListsStep(r: Record, ids: seq<GroupId>, counts: map<GroupId, Counts>, grouped: set<Id>,
                  available: seq<ServerNode>, g: GroupId)
    requires ListingInv(r) && FreshRows(r, available) && KnownRoles(available) && available != []
    requires g in r.groups && Verdict(r, counts, g) != NOT_SCALE_OUT
    ensures var rest, last := available[..|available| - 1], available[|available| - 1];
            var was := BuildMsg(r.groups[g], ScaleOut, ChangesOf(AdmitAll(r, ids, counts, grouped, rest).changed, g));
            var msg := BuildMsg(r.groups[g], ScaleOut, ChangesOf(AdmitAll(r, ids, counts, grouped, available).changed, g));
            var joins := TargetGroup(r, last.role, ids) == g && last.id in grouped;
            && |msg.pNodes| == |was.pNodes| + (if joins && last.role == Prefill then 1 else 0)
            && |msg.dNodes| == |was.dNodes| + (if joins && last.role == Decode then 1 else 0)
  {
    var rest, last := available[..|available| - 1], available[|available| - 1];
    assert available == rest + [last];
    AdmitAllSpec(r, ids, counts, grouped, rest);
    var before := AdmitAll(r, ids, counts, grouped, rest);
    NotedFor(r, before, ids, counts, grouped, last, g);
    var changes := ChangesOf(before.changed, g);
    if TargetGroup(r, last.role, ids) == g && last.id in grouped {
      MsgMentions(r, before, rest, g);
      assert last.id !in before.record.nodes;
      OneLonger(r.groups[g], changes, Change(last.id, last.role));
    } else {
      assert changes + [] == changes;
    }
  }

  /** Prediction and construction advance together, server by server, for every group that
      is not refused; they drift apart by the servers lost to DP grouping. */
  lemma {:induction false} PredictionStep(r: Record, ids: seq<GroupId>, counts: map<GroupId, Counts>, grouped: set<Id>,
                                          available: seq<ServerNode>, g: GroupId)
    requires ListingInv(r) && FreshRows(r, available) && KnownRoles(available) && g in r.groups
    requires g in ids && Verdict(r, counts, g) != NOT_SCALE_OUT
    ensures var p := AdmitAll(r, ids, counts, grouped, available);
            var msg := BuildMsg(r.groups[g], ScaleOut, ChangesOf(p.changed, g));
            CountsOf(PreAdd(r, ids, available), g) ==
            Counts(|msg.pNodes| + Lost(r, ids, grouped, available, g, Prefill),
                   |msg.dNodes| + Lost(r, ids, grouped, available, g, Decode))
  {
    if available != [] {
      var rest, last := available[..|available| - 1], available[|available| - 1];
      assert available == rest + [last];
      PredictionStep(r, ids, counts, grouped, rest, g);
      CountsStep(r, ids, available, g);
      ListsStep(r, ids, counts, grouped, available, g);
    }
  }

  /** For fresh servers of known role, and any stored group that is not refused: the
      predicted counts are the lengths of the lists then built, exactly when no server
      headed for the group fails DP grouping; otherwise they are too high. */
  lemma PredictionExactIff(r: Record, ids: seq<GroupId>, grouped: set<Id>, available: seq<ServerNode>, g: GroupId)
    requires ListingInv(r) && FreshRows(r, available) && KnownRoles(available)
    requires Enumerates(ids, r.groups.Keys) && g in r.groups
    requires Verdict(r, PreAdd(r, ids, available), g) != NOT_SCALE_OUT
    ensures var counts := PreAdd(r, ids, available);
            var msg := BuildMsg(r.groups[g], ScaleOut, ChangesOf(Admission(r, ids, grouped, available).changed, g));
            && g in counts && |msg.pNodes| <= counts[g].prefill && |msg.dNodes| <= counts[g].decode
            && (counts[g] == Counts(|msg.pNodes|, |msg.dNodes|) <==>
                forall row | row in available :: TargetGroup(r, row.role, ids) == g ==> row.id in grouped)
  {
    assert g in ToSet(ids);
    PredictionStep(r, ids, PreAdd(r, ids, available), grouped, available, g);
    PredictionCoversGroups(r, ids, available);
    NoneLost(r, ids, grouped, available, g, Prefill);
    NoneLost(r, ids, grouped, available, g, Decode);
  }

  lemma {:induction false} PredictionCoversGroups(r: Record, ids: seq<GroupId>, available: seq<ServerNode>)
    ensures forall g | g in ids ::
              && g in PreAdd(r, ids, available)
              && |GetGroup(r, g).prefill| <= PreAdd(r, ids, available)[g].prefill
              && |GetGroup(r, g).decode| <= PreAdd(r, ids, available)[g].decode
  {
    if available != [] { PredictionCoversGroups(r, ids, available[..|available| - 1]); }
  }

  /** A server counts towards its target group. */
  lemma {:induction false} ServerIsCounted(r: Record, ids: seq<GroupId>, available: seq<ServerNode>, row: ServerNode)
    requires row in available
    ensures var g := TargetGroup(r, row.role, ids);
            && g in PreAdd(r, ids, available)
            && (row.role == Decode ==> 0 < PreAdd(r, ids, available)[g].decode)
            && (row.role != Decode ==> 0 < PreAdd(r, ids, available)[g].prefill)
  {
    var rest, last := available[..|available| - 1], available[|available| - 1];
    assert available == rest + [last];
    if row != last {
      ServerIsCounted(r, ids, rest, row);
    }
  }

  /** When a P and a D server head for the same group, neither they nor any other server
      headed there is refused. */
  lemma MixedShareIsAccepted(r: Record, ids: seq<GroupId>, available: seq<ServerNode>,
                             p: ServerNode, d: ServerNode, other: ServerNode)
    requires p in available && d in available && p.role == Prefill && d.role == Decode
    requires var g := TargetGroup(r, Prefill, ids);
             g == TargetGroup(r, Decode, ids) == TargetGroup(r, other.role, ids) && g != NOT_SCALE_OUT
    ensures !Refused(r, ids, PreAdd(r, ids, available), other)
  {
    ServerIsCounted(r, ids, available, p);
    ServerIsCounted(r, ids, available, d);
  }

  /** Nor does the update prune anything from a group's lists when it brings both roles. */
  lemma {:induction false} MixedShareIsNotPruned(r: Record, msg: GroupUpdateMsg, changes: seq<Change>)
    requires msg.hasPrefillNode && msg.hasDecodeNode
    ensures Prune(r, msg, changes) == msg
  {
    if changes != [] { MixedShareIsNotPruned(r, msg, changes[..|changes| - 1]); }
  }

  lemma {:induction false} AdmissionKeepsGroups(r: Record, ids: seq<GroupId>, counts: map<GroupId, Counts>, grouped: set<Id>,
                                               available: seq<ServerNode>)
    ensures AdmitAll(r, ids, counts, grouped, available).record.groups == r.groups
  {
    if available != [] { AdmissionKeepsGroups(r, ids, counts, grouped, available[..|available| - 1]); }
  }

  /** The verdict is the group's, not the server's nor the moment's: of two servers headed for
      one group when the scale-out begins, each judged on the record as the admission loop has
      left it by then, both are refused or none. */
  lemma ShareFaresAlike(r: Record, ids: seq<GroupId>, grouped: set<Id>, available: seq<ServerNode>, i: nat, j: nat)
    requires i < |available| && j < |available|
    requires TargetGroup(r, available[i].role, ids) == TargetGroup(r, available[j].role, ids)
    ensures var counts := PreAdd(r, ids, available);
            Refused(AdmitAll(r, ids, counts, grouped, available[..i]).record, ids, counts, available[i]) <==>
            Refused(AdmitAll(r, ids, counts, grouped, available[..j]).record, ids, counts, available[j])
  {
    var counts := PreAdd(r, ids, available);
    JudgedAsAtFirst(r, ids, counts, grouped, available, i);
    JudgedAsAtFirst(r, ids, counts, grouped, available, j);
  }

  lemma JudgedAsAtFirst(r: Record, ids: seq<GroupId>, counts: map<GroupId, Counts>, grouped: set<Id>,
                        available: seq<ServerNode>, i: nat)
    requires i < |available|
    ensures Refused(AdmitAll(r, ids, counts, grouped, available[..i]).record, ids, counts, available[i]) <==>
            Refused(r, ids, counts, available[i])
  {
    AdmissionKeepsGroups(r, ids, counts, grouped, available[..i]);
    BestGroupOnGroups(r, AdmitAll(r, ids, counts, grouped, available[..i]).record, available[i].role, ids);
  }

  // ----- who is refused -------------------------------------------------------------------------------------------

  /** Some available server headed for the group joins it with this role. */
  ghost predicate Heads(r: Record, ids: seq<GroupId>, available: seq<ServerNode>, g: GroupId, role: Role) {
    exists row | row in available :: (row.role == Decode <==> role == Decode) && TargetGroup(r, row.role, ids) == g
  }

  /** A role is predicted for a group exactly when the group lists it or some server brings it. */
  lemma {:induction false} PredictedIff(r: Record, ids: seq<GroupId>, available: seq<ServerNode>, g: GroupId)
    requires g in ids
    ensures var counts := PreAdd(r, ids, available);
            && g in counts
            && (counts[g].prefill > 0 <==> GetGroup(r, g).prefill != [] || Heads(r, ids, available, g, Prefill))
            && (counts[g].decode > 0 <==> GetGroup(r, g).decode != [] || Heads(r, ids, available, g, Decode))
  {
    if available != [] {
      var rest, last := available[..|available| - 1], available[|available| - 1];
      assert available == rest + [last];
      PredictedIff(r, ids, rest, g);
      HeadsOneMore(r, ids, rest, last, g, Prefill);
      HeadsOneMore(r, ids, rest, last, g, Decode);
    }
  }

  lemma HeadsOneMore(r: Record, ids: seq<GroupId>, rest: seq<ServerNode>, last: ServerNode, g: GroupId, role: Role)
    ensures Heads(r, ids, rest + [last], g, role) <==>
            Heads(r, ids, rest, g, role)
            || ((last.role == Decode <==> role == Decode) && TargetGroup(r, last.role, ids) == g)
  {
    assert last in rest + [last] && forall row | row in rest :: row in rest + [last];
  }

  /** The group has nodes but lacks a role, which no available server brings either. */
  ghost predicate StaysOneSided(r: Record, ids: seq<GroupId>, available: seq<ServerNode>, g: GroupId) {
    var group := GetGroup(r, g);
    && (group.prefill != [] || group.decode != [])
    && (|| (group.prefill == [] && !Heads(r, ids, available, g, Prefill))
        || (group.decode == [] && !Heads(r, ids, available, g, Decode)))
  }

  /** A server is refused exactly when its target group stays one-sided, or is the one whose id
      the code uses as its answer of refusal. So an empty group refuses nobody. */
  lemma RefusedIff(r: Record, ids: seq<GroupId>, available: seq<ServerNode>, row: ServerNode)
    requires Enumerates(ids, r.groups.Keys)
    ensures var g := TargetGroup(r, row.role, ids);
            Refused(r, ids, PreAdd(r, ids, available), row) <==> StaysOneSided(r, ids, available, g) || g == NOT_SCALE_OUT
  {
    var g := TargetGroup(r, row.role, ids);
    if g in r.groups {
      assert g in ToSet(ids);
      PredictedIff(r, ids, available, g);
    }
  }

  /** What a scale-out makes of each available server: banished for good if refused; otherwise
      stored, live and as a node of its target group, if its DP grouping succeeds; otherwise
      neither. */
  lemma ScaleOutOutcome(r: Record, choices: Choices, row: ServerNode)
    requires choices.available.Some? && ListingInv(r) && FreshRows(r, choices.available.value)
    requires Enumerates(choices.groupIds, r.groups.Keys) && row in choices.available.value && row.id !in r.expired
    requires forall g | g in choices.outOrder ::
               g in Admission(r, choices.groupIds, choices.grouped, choices.available.value).changed
    ensures var r', ids, available := ScaledOut(r, choices), choices.groupIds, choices.available.value;
            var g := TargetGroup(r, row.role, ids);
            && (row.id in r'.expired <==> StaysOneSided(r, ids, available, g) || g == NOT_SCALE_OUT)
            && (row.id in r'.nodes <==> row.id !in r'.expired && row.id in choices.grouped)
            && (row.id in r'.nodes ==>
                var node := r'.nodes[row.id];
                && node.role == (if row.role == Decode then Decode else Prefill) && node.groupId == g
                && node.deleteTime == 0 && node.dpGroupPeers == row.dpGroupPeers && node.servers == row.servers)
  {
    var ids, available, grouped := choices.groupIds, choices.available.value, choices.grouped;
    var counts := PreAdd(r, ids, available);
    var p := Admission(r, ids, grouped, available);
    AdmitAllExact(r, ids, counts, grouped, available);
    PublishingKeepsIdentity(r, choices);
    RefusedIff(r, ids, available, row);
    assert forall other | other in available && other.id == row.id :: other == row;
    assert row.id in p.record.nodes <==> Joins(r, ids, counts, grouped, row);
    assert row.id in p.record.expired <==> Refused(r, ids, counts, row);
  }

  // ----- the lists as published -----------------------------------------------------------------------------------

  predicate IsLive(r: Record, id: Id) {
    id in r.nodes && r.nodes[id].deleteTime == 0
  }

  function ListOf(msg: GroupUpdateMsg, role: Role): seq<Id> {
    if role == Decode then msg.dNodes else msg.pNodes
  }

  /** A node is pruned exactly when it is a joining one of that role and unscalable. */
  lemma {:induction false} PruneMembersIff(r: Record, msg: GroupUpdateMsg, changes: seq<Change>, role: Role, id: Id)
    requires role != Undefined && NoDup(msg.pNodes) && NoDup(msg.dNodes)
    ensures id in ListOf(Prune(r, msg, changes), role) <==>
            && id in ListOf(msg, role)
            && !(id in r.nodes && r.nodes[id].role == role && Unscalable(r, r.nodes[id], msg)
                 && exists c | c in changes :: c.id == id)
  {
    if changes != [] {
      var rest, last := changes[..|changes| - 1], changes[|changes| - 1];
      assert changes == rest + [last];
      PruneMembersIff(r, msg, rest, role, id);
      PruneMembers(r, msg, rest);
      var pruned := Prune(r, msg, rest);
      RemoveFirstMembers(pruned.pNodes, last.id);
      RemoveFirstMembers(pruned.dNodes, last.id);
    }
  }

  lemma {:induction false} BuildMembersIff(group: Group, changes: seq<Change>, role: Role, id: Id)
    requires role != Undefined
    ensures id in ListOf(BuildMsg(group, ScaleOut, changes), role) <==>
            id in (if role == Decode then group.decode else group.prefill) || Change(id, role) in changes
  {
    if changes != [] {
      assert changes == changes[..|changes| - 1] + [changes[|changes| - 1]];
      BuildMembersIff(group, changes[..|changes| - 1], role, id);
    }
  }

  /** The record when the group's turn comes: whatever other groups were updated before. */
  ghost predicate AtItsTurn(r: Record, p: Pending, before: Record, g: GroupId) {
    && AgreesOn(p.record, before, g) && p.record.groups == r.groups && g in r.groups
    && (forall id | id in r.nodes :: id in p.record.nodes && p.record.nodes[id] == r.nodes[id])
    && (forall c | c in ChangesOf(p.changed, g) :: JoinOk(r, p.record, g, c))
    && ListingOk(r, g, r.groups[g])
  }

  /** What a server that joins the group needs there: an empty group, somebody of the other role
      who joins with it, or a listed node of the other role that is live. */
  ghost predicate FindsCounterpart(r: Record, group: Group, changes: seq<Change>, role: Role) {
    || group == Group([], [])
    || (exists c | c in changes :: c.role == if role == Decode then Prefill else Decode)
    || exists id | id in Links.Opposite(group, role) :: IsLive(r, id)
  }

  lemma UnscalableIff(r: Record, p: Pending, before: Record, g: GroupId, c: Change)
    requires AtItsTurn(r, p, before, g) && c in ChangesOf(p.changed, g)
    ensures c.id in before.nodes && before.nodes[c.id].role == c.role != Undefined
    ensures var changes := ChangesOf(p.changed, g);
            Unscalable(before, before.nodes[c.id], BuildMsg(r.groups[g], ScaleOut, changes)) <==>
            !FindsCounterpart(r, r.groups[g], changes, c.role)
  {
    assert JoinOk(r, p.record, g, c);
    assert before.nodes[c.id] == p.record.nodes[c.id];
    BuildMsgMembers(r.groups[g], ScaleOut, ChangesOf(p.changed, g));
    forall id | id in Links.Opposite(r.groups[g], c.role)
      ensures id in before.nodes && before.nodes[id].deleteTime == r.nodes[id].deleteTime
    {
      assert id in r.nodes && r.nodes[id].groupId == g;
    }
  }

  /** Of the joining servers exactly those that find a counterpart are published; all listed
      nodes stay. */
  lemma TurnMembersIff(r: Record, p: Pending, before: Record, g: GroupId, role: Role, id: Id)
    requires AtItsTurn(r, p, before, g) && role != Undefined
    ensures var changes, group := ChangesOf(p.changed, g), r.groups[g];
            id in ListOf(GroupMsg(before, ScaleOut, g, changes), role) <==>
            || id in (if role == Decode then group.decode else group.prefill)
            || (Change(id, role) in changes && FindsCounterpart(r, group, changes, role))
  {
    var changes, group := ChangesOf(p.changed, g), r.groups[g];
    BuildMsgMembers(group, ScaleOut, changes);
    BuildMembersIff(group, changes, role, id);
    PruneMembersIff(before, BuildMsg(group, ScaleOut, changes), changes, role, id);
    if c :| c in changes && c.id == id {
      UnscalableIff(r, p, before, g, c);
      assert JoinOk(r, p.record, g, c);
    }
  }

  /** The lists of a group after the scale-out are those of its own turn. */
  lemma {:induction false} TurnOf(r: Record, p: Pending, order: seq<GroupId>, g: GroupId) returns (before: Record)
    requires ReadyToPublish(r, p) && NoDup(order) && (forall h | h in order :: h in p.changed) && g in order
    ensures AgreesOn(p.record, before, g)
    ensures GetGroup(UpdateGroups(p.record, ScaleOut, p.changed, order), g) ==
            GetGroup(UpdateOneGroup(before, ScaleOut, g, p.changed[g]), g)
    decreases |order|
  {
    var rest, last := order[..|order| - 1], order[|order| - 1];
    assert order == rest + [last];
    forall h | h in p.changed ensures ChangesWithin(p.record, h, p.changed[h]) {
      assert forall c | c in p.changed[h] :: JoinOk(r, p.record, h, c);
    }
    UpdateGroupsFrame(p.record, ScaleOut, p.changed, rest);
    var prior := UpdateGroups(p.record, ScaleOut, p.changed, rest);
    if last == g {
      before := prior;
    } else {
      before := TurnOf(r, p, rest, g);
      GroupMsgWithin(prior, ScaleOut, last, p.changed[last]);
      PublishSameOutside(prior, last, GroupMsg(prior, ScaleOut, last, p.changed[last]));
    }
  }

  /** A scale-out and a group of it. */
  ghost predicate Updates(r: Record, choices: Choices, g: GroupId) {
    && choices.available.Some? && ListingInv(r) && FreshRows(r, choices.available.value)
    && NoDup(choices.outOrder) && g in choices.outOrder && g in r.groups
    && forall h | h in choices.outOrder ::
         h in Admission(r, choices.groupIds, choices.grouped, choices.available.value).changed
  }

  /** The lists of a group that a scale-out updates: all nodes listed before, and of the joining
      servers exactly those that find a counterpart. The others are dropped again. */
  lemma PublishedMembersIff(r: Record, choices: Choices, g: GroupId, id: Id)
    requires Updates(r, choices, g)
    ensures var was, group := r.groups[g], GetGroup(ScaledOut(r, choices), g);
            var changes := Admission(r, choices.groupIds, choices.grouped, choices.available.value).changed[g];
            && (id in group.prefill <==>
                id in was.prefill || (Change(id, Prefill) in changes && FindsCounterpart(r, was, changes, Prefill)))
            && (id in group.decode <==>
                id in was.decode || (Change(id, Decode) in changes && FindsCounterpart(r, was, changes, Decode)))
  {
    var ids, grouped, available := choices.groupIds, choices.grouped, choices.available.value;
    var p := Admission(r, ids, grouped, available);
    AdmissionIsReady(r, ids, grouped, available);
    AdmitAllSpec(r, ids, PreAdd(r, ids, available), grouped, available);
    var before := TurnOf(r, p, choices.outOrder, g);
    assert AtItsTurn(r, p, before, g) by { assert ListingOk(r, g, r.groups[g]); }
    TurnMembersIff(r, p, before, g, Prefill, id);
    TurnMembersIff(r, p, before, g, Decode, id);
  }

  /** What it takes for a group to be published with both roles. */
  ghost predicate HasCounterpart(r: Record, group: Group, changes: seq<Change>) {
    || (group.prefill != [] && group.decode != [])
    || BothRoles(changes)
    || exists c, id | c in changes && id in Links.Opposite(group, c.role) :: IsLive(r, id)
  }

  /** Such a group is published with both roles if and only if it had both, gets both, or gets
      the role it lacks while a listed node of the other role is still live. */
  lemma PublishedServesIff(r: Record, choices: Choices, g: GroupId)
    requires Updates(r, choices, g)
    ensures var changed := Admission(r, choices.groupIds, choices.grouped, choices.available.value).changed;
            var group := GetGroup(ScaledOut(r, choices), g);
            group.prefill != [] && group.decode != [] <==> HasCounterpart(r, r.groups[g], changed[g])
  {
    var changes := Admission(r, choices.groupIds, choices.grouped, choices.available.value).changed[g];
    var was, group := r.groups[g], GetGroup(ScaledOut(r, choices), g);
    forall id
      ensures id in group.prefill <==>
              id in was.prefill || (Change(id, Prefill) in changes && FindsCounterpart(r, was, changes, Prefill))
      ensures id in group.decode <==>
              id in was.decode || (Change(id, Decode) in changes && FindsCounterpart(r, was, changes, Decode))
    {
      PublishedMembersIff(r, choices, g, id);
    }
    ChangesHaveRoles(r, choices, g);
    BothListsIff(r, was, group, changes);
  }

  lemma ChangesHaveRoles(r: Record, choices: Choices, g: GroupId)
    requires Updates(r, choices, g)
    ensures var changes := Admission(r, choices.groupIds, choices.grouped, choices.available.value).changed[g];
            forall c | c in changes :: c.role != Undefined
  {
    var ids, grouped, available := choices.groupIds, choices.grouped, choices.available.value;
    var p := Admission(r, ids, grouped, available);
    AdmitAllSpec(r, ids, PreAdd(r, ids, available), grouped, available);
    forall c | c in p.changed[g] ensures c.role != Undefined { assert JoinOk(r, p.record, g, c); }
  }

  lemma BothListsIff(r: Record, was: Group, group: Group, changes: seq<Change>)
    requires forall c | c in changes :: c.role != Undefined
    requires forall id :: id in group.prefill <==>
               id in was.prefill || (Change(id, Prefill) in changes && FindsCounterpart(r, was, changes, Prefill))
    requires forall id :: id in group.decode <==>
               id in was.decode || (Change(id, Decode) in changes && FindsCounterpart(r, was, changes, Decode))
    ensures group.prefill != [] && group.decode != [] <==> HasCounterpart(r, was, changes)
  {
    ListNonEmptyIff(r, was, group.prefill, changes, Prefill);
    ListNonEmptyIff(r, was, group.decode, changes, Decode);
    assert forall c | c in changes :: c.role == Prefill || c.role == Decode;
  }

  lemma ListNonEmptyIff(r: Record, was: Group, list: seq<Id>, changes: seq<Change>, role: Role)
    requires role != Undefined
    requires forall id :: id in list <==>
               || id in (if role == Decode then was.decode else was.prefill)
               || (Change(id, role) in changes && FindsCounterpart(r, was, changes, role))
    ensures list != [] <==>
            || (if role == Decode then was.decode else was.prefill) != []
            || ((exists c | c in changes :: c.role == role) && FindsCounterpart(r, was, changes, role))
  {
    var before := if role == Decode then was.decode else was.prefill;
    if list != [] { assert list[0] in list; }
    if before != [] { assert before[0] in list; }
    if c :| c in changes && c.role == role {
      assert c == Change(c.id, role);
      assert FindsCounterpart(r, was, changes, role) ==> c.id in list;
    }
  }

  // ----- accepted groups ------------------------------------------------------------------------------------------

  /** Fresh servers of known role, and a group that was not empty, is not refused and loses none
      of its servers to DP grouping. */
  ghost predicate AcceptedShare(r: Record, ids: seq<GroupId>, grouped: set<Id>, available: seq<ServerNode>, g: GroupId) {
    && ListingInv(r) && FreshRows(r, available) && KnownRoles(available)
    && Enumerates(ids, r.groups.Keys) && g in r.groups && r.groups[g] != Group([], [])
    && Verdict(r, PreAdd(r, ids, available), g) != NOT_SCALE_OUT
    && (forall row | row in available :: TargetGroup(r, row.role, ids) == g ==> row.id in grouped)
  }

  /** The lists built for a group that was not empty, is not refused and loses no server to DP
      grouping have both roles, before unscalable servers are dropped from them. */
  lemma BuiltListsHaveBothRoles(r: Record, ids: seq<GroupId>, grouped: set<Id>, available: seq<ServerNode>, g: GroupId)
    requires AcceptedShare(r, ids, grouped, available, g)
    ensures var msg := BuildMsg(r.groups[g], ScaleOut, ChangesOf(Admission(r, ids, grouped, available).changed, g));
            msg.pNodes != [] && msg.dNodes != []
  {
    PredictionExactIff(r, ids, grouped, available, g);
  }

  /** A group that is not refused notes servers of a role exactly when one headed there passes
      DP grouping. */
  lemma {:induction false} NotedIff(r: Record, ids: seq<GroupId>, counts: map<GroupId, Counts>, grouped: set<Id>,
                                    available: seq<ServerNode>, g: GroupId, role: Role)
    requires KnownRoles(available) && Verdict(r, counts, g) != NOT_SCALE_OUT
    ensures (exists c | c in ChangesOf(AdmitAll(r, ids, counts, grouped, available).changed, g) :: c.role == role) <==>
            (exists row | row in available :: row.role == role && TargetGroup(r, role, ids) == g && row.id in grouped)
  {
    if available != [] {
      var rest, last := available[..|available| - 1], available[|available| - 1];
      assert available == rest + [last];
      NotedIff(r, ids, counts, grouped, rest, g, role);
      AdmissionKeepsGroups(r, ids, counts, grouped, rest);
      var was := ChangesOf(AdmitAll(r, ids, counts, grouped, rest).changed, g);
      NotedFor(r, AdmitAll(r, ids, counts, grouped, rest), ids, counts, grouped, last, g);
      var noted := if TargetGroup(r, last.role, ids) == g && last.id in grouped then [Change(last.id, last.role)] else [];
      assert forall c :: c in was + noted <==> c in was || c in noted;
    }
  }

  predicate GetsRole(r: Record, ids: seq<GroupId>, available: seq<ServerNode>, g: GroupId, role: Role) {
    TargetGroup(r, role, ids) == g && exists row | row in available :: row.role == role
  }

  /** So acceptance is not enough to serve: an accepted group that was not empty is published
      with both roles if and only if it had both, servers of both roles head for it, or a node
      it lists is still live. */
  lemma AcceptedGroupServesIff(r: Record, choices: Choices, g: GroupId)
    requires Updates(r, choices, g) && AcceptedShare(r, choices.groupIds, choices.grouped, choices.available.value, g)
    ensures var ids, available, was := choices.groupIds, choices.available.value, r.groups[g];
            var group := GetGroup(ScaledOut(r, choices), g);
            group.prefill != [] && group.decode != [] <==>
            || (was.prefill != [] && was.decode != [])
            || (GetsRole(r, ids, available, g, Prefill) && GetsRole(r, ids, available, g, Decode))
            || exists id | id in was.prefill || id in was.decode :: IsLive(r, id)
  {
    var ids, grouped, available := choices.groupIds, choices.grouped, choices.available.value;
    var changes := ChangesOf(Admission(r, ids, grouped, available).changed, g);
    PublishedServesIff(r, choices, g);
    BuiltListsHaveBothRoles(r, ids, grouped, available, g);
    BuildMsgMembers(r.groups[g], ScaleOut, changes);
    NotedIff(r, ids, PreAdd(r, ids, available), grouped, available, g, Prefill);
    NotedIff(r, ids, PreAdd(r, ids, available), grouped, available, g, Decode);
  }

  /** At an input: a group whose one D node is terminated but still listed, and a new P server.
      The server is accepted, and dropped from the lists that are published. */
  lemma DeletedCounterpart(d: NodeInfo, row: ServerNode)
    requires d.role == Decode && d.groupId == 0 && d.peers == [] && d.deleteTime != 0
    requires row.role == Prefill && row.id == 2
    ensures var r := Record(map[1 := d], map[0 := Group([], [1])], {1});
            var choices := Choices(Some([row]), {2}, [0], [], [0]);
            && GraphInv(r) && AcceptedShare(r, [0], {2}, [row], 0)
            && 0 in Admission(r, [0], {2}, [row]).changed
            && GetGroup(ScaledOut(r, choices), 0).prefill == [] && 1 in GetGroup(ScaledOut(r, choices), 0).decode
  {
    var r := Record(map[1 := d], map[0 := Group([], [1])], {1});
    var choices := Choices(Some([row]), {2}, [0], [], [0]);
    assert DecodeOk(r, 0, r.groups[0], 1);
    assert GroupOk(r, 0, r.groups[0]);
    assert ListingOk(r, 0, r.groups[0]);
    assert [0][..0] == [] && [row][..0] == [];
    assert BestGroup(r, Prefill, []) == Best(UINT64_MAX, 0);
    assert TargetGroup(r, Prefill, [0]) == 0;
    assert PreAdd(r, [0], []) == map[0 := Counts(0, 1)];
    assert PreAdd(r, [0], [row]) == map[0 := Counts(1, 1)];
    assert ToSet([0]) == r.groups.Keys;
    assert AcceptedShare(r, [0], {2}, [row], 0);
    var p := Admission(r, [0], {2}, [row]);
    assert AdmitAll(r, [0], PreAdd(r, [0], [row]), {2}, []) == Pending(r, map[]);
    assert 0 in p.changed;
    AcceptedGroupServesIff(r, choices, 0);
    PublishedMembersIff(r, choices, 0, 1);
  }
}
