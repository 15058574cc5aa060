/** Reconciliation rounds against the rank table, and whole runs of everything that edits
    the peer graph. */
module Rounds {
  import opened Basics
  import opened Sequences
  import opened Cluster
  import opened Scaling
  import opened PeerGraph
  import Release
  import Links
  import LinkDamage

  // ----- one round ------------------------------------------------------------------------------------------

  ghost predicate DistinctRows(table: seq<ServerNode>) {
    forall i, j | 0 <= i < j < |table| :: table[i].id != table[j].id
  }

  ghost predicate ValidRound(r: Record, table: seq<ServerNode>, changes: NodeChanges, choices: Choices) {
    && DistinctRows(table) && IsDiff(r, table, changes)
    && Enumerates(choices.inOrder, RemoveAll(r, changes.removedIDs).changed.Keys)
    && (forall g | g in choices.inOrder :: g in RemoveAll(r, changes.removedIDs).changed)
    && (choices.available.Some? ==>
        var r1 := ScaledIn(r, changes, choices.inOrder);
        && AvailableFrom(choices.available.value, table, changes.newIDs)
        && Enumerates(choices.groupIds, r1.groups.Keys)
        && NoDup(choices.outOrder)
        && forall g | g in choices.outOrder ::
             g in Admission(r1, choices.groupIds, choices.grouped, choices.available.value).changed)
  }

  /** `ScalingInstance`: scale in, then scale out unless the rank table changed meanwhile. */
  ghost function RoundResult(r: Record, table: seq<ServerNode>, changes: NodeChanges, choices: Choices): Record
    requires ValidRound(r, table, changes, choices)
  {
    var r1 := ScaledIn(r, changes, choices.inOrder);
    if choices.available.Some? then ScaledOut(r1, choices) else r1
  }

  /** The record after scale-in, apart from peers and lists. */
  lemma ScaledInIdentity(r: Record, table: seq<ServerNode>, changes: NodeChanges, choices: Choices)
    requires ListingInv(r) && ValidRound(r, table, changes, choices)
    ensures var r1 := ScaledIn(r, changes, choices.inOrder);
            && r1.nodes.Keys == r.nodes.Keys - ToSet(changes.removedIDs)
            && (forall id | id in r1.nodes :: Same(r.nodes[id], r1.nodes[id]))
            && r1.expired == r.expired - (ToSet(changes.removedIDs) * r.nodes.Keys)
            && r1.groups.Keys == r.groups.Keys
  {
    var p := RemoveAll(r, changes.removedIDs);
    RemoveAllSpec(r, changes.removedIDs);
    RemovalLeavesListedWithin(r, changes.removedIDs);
    UpdateGroupsFrame(p.record, ScaleIn, p.changed, choices.inOrder);
  }

  lemma {:induction false} ListsAfterUpdates(r: Record, changed: Changes, order: seq<GroupId>, g: GroupId)
    requires g in r.groups && NoDup(order) && forall h | h in order :: h in changed
    ensures var r' := UpdateGroups(r, ScaleIn, changed, order);
            && r'.groups.Keys == r.groups.Keys
            && r'.groups[g] ==
               if g !in order then r.groups[g]
               else var msg := BuildMsg(r.groups[g], ScaleIn, changed[g]); Group(msg.pNodes, msg.dNodes)
  {
    if order != [] {
      var rest, last := order[..|order| - 1], order[|order| - 1];
      assert order == rest + [last];
      ListsAfterUpdates(r, changed, rest, g);
    }
  }

  /** A scale-in takes exactly the removed ids off the lists. */
  lemma ScaleInListsIff(r: Record, table: seq<ServerNode>, changes: NodeChanges, choices: Choices, g: GroupId, id: Id)
    requires ListingInv(r) && ValidRound(r, table, changes, choices) && g in r.groups
    ensures var r1 := ScaledIn(r, changes, choices.inOrder);
            && g in r1.groups
            && (id in r1.groups[g].prefill <==> id in r.groups[g].prefill && id !in changes.removedIDs)
            && (id in r1.groups[g].decode <==> id in r.groups[g].decode && id !in changes.removedIDs)
  {
    var p := RemoveAll(r, changes.removedIDs);
    RemoveAllSpec(r, changes.removedIDs);
    assert ListingOk(r, g, r.groups[g]);
    ListsAfterUpdates(p.record, p.changed, choices.inOrder, g);
    assert g in p.changed <==> g in ToSet(choices.inOrder);
    if g in p.changed { BuildInExact(r.groups[g], p.changed[g]); }
  }

  /** After scale-in every new id is unknown: it was new altogether, or it was removed
      because its devices changed. */
  lemma NewRowsAreFresh(r: Record, table: seq<ServerNode>, changes: NodeChanges, choices: Choices)
    requires ListingInv(r) && ValidRound(r, table, changes, choices) && choices.available.Some?
    ensures FreshRows(ScaledIn(r, changes, choices.inOrder), choices.available.value)
    ensures forall row | row in choices.available.value :: row in table && IsNew(r, row)
  {
    ScaledInIdentity(r, table, changes, choices);
    forall row | row in choices.available.value
      ensures row in table && IsNew(r, row) && row.id !in ScaledIn(r, changes, choices.inOrder).nodes
    {
      NewRow(r, table, changes, row);
    }
  }

  lemma NewRow(r: Record, table: seq<ServerNode>, changes: NodeChanges, row: ServerNode)
    requires DistinctRows(table) && IsDiff(r, table, changes) && row in table && row.id in changes.newIDs
    ensures IsNew(r, row)
    ensures row.id in r.nodes ==> row.id in changes.removedIDs
  {
    IdsWhereMembers(table, other => IsNew(r, other));
    var other :| other in table && IsNew(r, other) && other.id == row.id;
    assert other == row;
  }

  /** What is still damaged after a round: a group that the round scales in both roles, in or
      out, is repaired by it. */
  ghost function DamagedAfterRound(r: Record, damaged: set<GroupId>, changes: NodeChanges, choices: Choices): set<GroupId>
    requires forall g | g in choices.inOrder :: g in RemoveAll(r, changes.removedIDs).changed
  {
    var r1 := ScaledIn(r, changes, choices.inOrder);
    var left := damaged - Repaired(damaged, RemoveAll(r, changes.removedIDs).changed, choices.inOrder);
    if choices.available.None? then left
    else
      left - Repaired(left, Admission(r1, choices.groupIds, choices.grouped, choices.available.value).changed, choices.outOrder)
  }

  lemma RoundKeepsBut(r: Record, damaged: set<GroupId>, table: seq<ServerNode>, changes: NodeChanges, choices: Choices)
    requires GraphInvBut(r, damaged) && ValidRound(r, table, changes, choices)
    ensures GraphInvBut(RoundResult(r, table, changes, choices), DamagedAfterRound(r, damaged, changes, choices))
  {
    ButListing(r, damaged);
    ScaleInKeepsBut(r, damaged, changes, choices.inOrder);
    if choices.available.Some? {
      NewRowsAreFresh(r, table, changes, choices);
      var left := damaged - Repaired(damaged, RemoveAll(r, changes.removedIDs).changed, choices.inOrder);
      ScaleOutKeepsBut(ScaledIn(r, changes, choices.inOrder), left, choices);
    }
  }

  /** In particular a round keeps a consistent graph consistent. */
  lemma RoundKeepsInv(r: Record, table: seq<ServerNode>, changes: NodeChanges, choices: Choices)
    requires GraphInv(r) && ValidRound(r, table, changes, choices)
    ensures GraphInv(RoundResult(r, table, changes, choices))
  {
    NothingDamaged(r);
    RoundKeepsBut(r, {}, table, changes, choices);
    assert DamagedAfterRound(r, {}, changes, choices) == {};
    NothingDamaged(RoundResult(r, table, changes, choices));
  }

  /** And one with proper lists keeps them so. */
  lemma RoundKeepsListing(r: Record, table: seq<ServerNode>, changes: NodeChanges, choices: Choices)
    requires ListingInv(r) && ValidRound(r, table, changes, choices)
    ensures ListingInv(ScaledIn(r, changes, choices.inOrder)) && ListingInv(RoundResult(r, table, changes, choices))
  {
    assert GraphInvBut(r, r.groups.Keys) by {
      assert forall g | g in r.groups :: GroupGood(r, g, true);
    }
    ScaleInKeepsBut(r, r.groups.Keys, changes, choices.inOrder);
    ButListing(ScaledIn(r, changes, choices.inOrder),
               r.groups.Keys - Repaired(r.groups.Keys, RemoveAll(r, changes.removedIDs).changed, choices.inOrder));
    RoundKeepsBut(r, r.groups.Keys, table, changes, choices);
    ButListing(RoundResult(r, table, changes, choices), DamagedAfterRound(r, r.groups.Keys, changes, choices));
  }

  // ----- who is in, who is out ------------------------------------------------------------------------------------

  lemma {:induction false} BestGroupOnGroups(r: Record, r': Record, role: Role, ids: seq<GroupId>)
    requires r'.groups == r.groups
    ensures BestGroup(r', role, ids) == BestGroup(r, role, ids)
  {
    if ids != [] { BestGroupOnGroups(r, r', role, ids[..|ids| - 1]); }
  }

  /** The server is told to stop and its id is banished. */
  ghost predicate Refused(r: Record, ids: seq<GroupId>, counts: map<GroupId, Counts>, row: ServerNode) {
    Verdict(r, counts, TargetGroup(r, row.role, ids)) == NOT_SCALE_OUT
  }

  ghost predicate Joins(r: Record, ids: seq<GroupId>, counts: map<GroupId, Counts>, grouped: set<Id>, row: ServerNode) {
    !Refused(r, ids, counts, row) && row.id in grouped
  }

  /** Exactly the joining servers are stored, as nodes of their target groups. */
  ghost predicate StoredExactly(r: Record, p: Record, ids: seq<GroupId>, counts: map<GroupId, Counts>,
                                grouped: set<Id>, available: seq<ServerNode>)
  {
    && (forall id | id in r.nodes :: id in p.nodes && p.nodes[id] == r.nodes[id])
    && (forall id | id in p.nodes && id !in r.nodes ::
          exists row | row in available :: row.id == id && Joins(r, ids, counts, grouped, row))
    && (forall row | row in available && Joins(r, ids, counts, grouped, row) ::
          row.id in p.nodes && p.nodes[row.id] == Joined(r, row, TargetGroup(r, row.role, ids)))
  }

  /** Exactly the refused ones are banished. */
  ghost predicate BanishedExactly(r: Record, p: Record, ids: seq<GroupId>, counts: map<GroupId, Counts>,
                                  available: seq<ServerNode>)
  {
    forall id :: id in p.expired <==>
      id in r.expired || exists row | row in available :: row.id == id && Refused(r, ids, counts, row)
  }

  /** The record after admission. */
  ghost predicate AdmittedExactly(r: Record, p: Record, ids: seq<GroupId>, counts: map<GroupId, Counts>,
                                  grouped: set<Id>, available: seq<ServerNode>)
  {
    && p.groups == r.groups
    && StoredExactly(r, p, ids, counts, grouped, available) && BanishedExactly(r, p, ids, counts, available)
  }

  lemma OneMoreStored(r: Record, p: Record, p': Record, ids: seq<GroupId>, counts: map<GroupId, Counts>, grouped: set<Id>,
                      rest: seq<ServerNode>, last: ServerNode)
    requires StoredExactly(r, p, ids, counts, grouped, rest)
    requires last.id !in r.nodes && forall row | row in rest :: row.id != last.id
    requires p'.nodes == if Joins(r, ids, counts, grouped, last)
                         then p.nodes[last.id := Joined(r, last, TargetGroup(r, last.role, ids))] else p.nodes
    ensures StoredExactly(r, p', ids, counts, grouped, rest + [last])
  {
    var all := rest + [last];
    forall id | id in p'.nodes && id !in r.nodes
      ensures exists row | row in all :: row.id == id && Joins(r, ids, counts, grouped, row)
    {
      if id == last.id {
        assert last in all && last.id !in p.nodes;
      } else {
        var row :| row in rest && row.id == id && Joins(r, ids, counts, grouped, row);
        assert row in all;
      }
    }
  }

  lemma OneMoreBanished(r: Record, p: Record, p': Record, ids: seq<GroupId>, counts: map<GroupId, Counts>,
                        rest: seq<ServerNode>, last: ServerNode)
    requires BanishedExactly(r, p, ids, counts, rest)
    requires p'.expired == if Refused(r, ids, counts, last) then p.expired + {last.id} else p.expired
    ensures BanishedExactly(r, p', ids, counts, rest + [last])
  {
    var all := rest + [last];
    forall id ensures id in p'.expired <==>
                      id in r.expired || exists row | row in all :: row.id == id && Refused(r, ids, counts, row)
    {
      if row :| row in all && row.id == id && Refused(r, ids, counts, row) {
        assert row == last || row in rest;
      }
      if id in p.expired && id !in r.expired {
        var row :| row in rest && row.id == id && Refused(r, ids, counts, row);
        assert row in all;
      }
      assert last in all;
    }
  }

  lemma AdmitOneExact(r: Record, p: Pending, ids: seq<GroupId>, counts: map<GroupId, Counts>, grouped: set<Id>,
                      rest: seq<ServerNode>, last: ServerNode)
    requires AdmittedExactly(r, p.record, ids, counts, grouped, rest)
    requires last.id !in r.nodes && forall row | row in rest :: row.id != last.id
    ensures AdmittedExactly(r, AdmitOne(p, ids, counts, grouped, last).record, ids, counts, grouped, rest + [last])
  {
    BestGroupOnGroups(r, p.record, last.role, ids);
    var p' := AdmitOne(p, ids, counts, grouped, last).record;
    OneMoreStored(r, p.record, p', ids, counts, grouped, rest, last);
    OneMoreBanished(r, p.record, p', ids, counts, rest, last);
  }

  lemma {:induction false} AdmitAllExact(r: Record, ids: seq<GroupId>, counts: map<GroupId, Counts>, grouped: set<Id>,
                                         available: seq<ServerNode>)
    requires FreshRows(r, available)
    ensures AdmittedExactly(r, AdmitAll(r, ids, counts, grouped, available).record, ids, counts, grouped, available)
  {
    if available != [] {
      var rest, last := available[..|available| - 1], available[|available| - 1];
      assert available == rest + [last];
      AdmitAllExact(r, ids, counts, grouped, rest);
      AdmitOneExact(r, AdmitAll(r, ids, counts, grouped, rest), ids, counts, grouped, rest, last);
    }
  }

  // ----- convergence ------------------------------------------------------------------------------------------------

  lemma {:induction false} IdsWhereSame(table: seq<ServerNode>, p: ServerNode -> bool, q: ServerNode -> bool)
    requires forall row | row in table :: p(row) == q(row)
    ensures IdsWhere(table, p) == IdsWhere(table, q)
  {
    if table != [] {
      assert table[|table| - 1] in table;
      IdsWhereSame(table[..|table| - 1], p, q);
    }
  }

  /** A new server that did not get in this time and may try again: the scale-out did not take
      place, the server did not answer, or its DP grouping failed. */
  ghost predicate TriesAgain(r: Record, changes: NodeChanges, choices: Choices, row: ServerNode)
    requires forall g | g in choices.inOrder :: g in RemoveAll(r, changes.removedIDs).changed
  {
    choices.available.Some? ==>
      var r1 := ScaledIn(r, changes, choices.inOrder);
      var counts := PreAdd(r1, choices.groupIds, choices.available.value);
      row !in choices.available.value || (!Refused(r1, choices.groupIds, counts, row) && row.id !in choices.grouped)
  }

  /** The record a round leaves, as far as the next diff can see. */
  ghost predicate Settled(r: Record, r': Record, table: seq<ServerNode>, changes: NodeChanges, choices: Choices)
    requires forall g | g in choices.inOrder :: g in RemoveAll(r, changes.removedIDs).changed
  {
    && (forall id | id in r.nodes && id !in changes.removedIDs :: id in r'.nodes && Same(r.nodes[id], r'.nodes[id]))
    && (forall id | id in r.expired && (id !in changes.removedIDs || id !in r.nodes) :: id in r'.expired)
    && (forall id | id in r'.expired && id !in r.expired ::
          exists row | row in table :: row.id == id && IsNew(r, row) && !TriesAgain(r, changes, choices, row))
    && (forall id | id in r'.nodes && !(id in r.nodes && id !in changes.removedIDs) ::
          exists row | row in table :: row.id == id && IsNew(r, row) && !TriesAgain(r, changes, choices, row)
            && r'.nodes[id].deleteTime == 0 && r'.nodes[id].servers == row.servers)
    && (forall row | row in table && IsNew(r, row) && !TriesAgain(r, changes, choices, row) ::
          row.id in r'.nodes || row.id in r'.expired)
  }

  lemma PublishingKeepsIdentity(r: Record, choices: Choices)
    requires ListingInv(r) && choices.available.Some? && FreshRows(r, choices.available.value)
    requires forall g | g in choices.outOrder ::
               g in Admission(r, choices.groupIds, choices.grouped, choices.available.value).changed
    ensures SameIdentity(Admission(r, choices.groupIds, choices.grouped, choices.available.value).record,
                         ScaledOut(r, choices))
  {
    var available := choices.available.value;
    var p := Admission(r, choices.groupIds, choices.grouped, available);
    AdmitAllSpec(r, choices.groupIds, PreAdd(r, choices.groupIds, available), choices.grouped, available);
    forall g, id | g in r.groups && (id in r.groups[g].prefill || id in r.groups[g].decode)
      ensures id in p.record.nodes && p.record.nodes[id].groupId == g
    {
      assert ListingOk(r, g, r.groups[g]);
    }
    forall g | g in p.changed ensures ChangesWithin(p.record, g, p.changed[g]) {
      assert forall c | c in p.changed[g] :: JoinOk(r, p.record, g, c);
    }
    UpdateGroupsFrame(p.record, ScaleOut, p.changed, choices.outOrder);
  }

  lemma ScaleOutSettles(r: Record, table: seq<ServerNode>, changes: NodeChanges, choices: Choices)
    requires ListingInv(r) && ValidRound(r, table, changes, choices) && choices.available.Some?
    ensures Settled(r, RoundResult(r, table, changes, choices), table, changes, choices)
  {
    ScaledInIdentity(r, table, changes, choices);
    RoundKeepsListing(r, table, changes, choices);
    NewRowsAreFresh(r, table, changes, choices);
    var r1 := ScaledIn(r, changes, choices.inOrder);
    var available, ids, grouped := choices.available.value, choices.groupIds, choices.grouped;
    var counts := PreAdd(r1, ids, available);
    var p := Admission(r1, ids, grouped, available);
    AdmitAllExact(r1, ids, counts, grouped, available);
    PublishingKeepsIdentity(r1, choices);
    var r' := ScaledOut(r1, choices);
    assert SameIdentity(p.record, r');
    forall row | row in table && IsNew(r, row) && !TriesAgain(r, changes, choices, row)
      ensures row.id in r'.nodes || row.id in r'.expired
    {
      assert row in available;
      if !Refused(r1, ids, counts, row) {
        assert Joins(r1, ids, counts, grouped, row);
      }
    }
  }

  lemma RoundSettles(r: Record, table: seq<ServerNode>, changes: NodeChanges, choices: Choices)
    requires ListingInv(r) && ValidRound(r, table, changes, choices)
    ensures Settled(r, RoundResult(r, table, changes, choices), table, changes, choices)
  {
    if choices.available.Some? {
      ScaleOutSettles(r, table, changes, choices);
    } else {
      ScaledInIdentity(r, table, changes, choices);
    }
  }

  /** What the next diff says about one row. */
  lemma NextDiffOfRow(r: Record, r': Record, table: seq<ServerNode>, changes: NodeChanges, choices: Choices, row: ServerNode)
    requires ValidRound(r, table, changes, choices) && row in table
    requires Settled(r, r', table, changes, choices)
    ensures !IsReplaced(r', row)
    ensures IsReappeared(r', row) <==> IsReappeared(r, row)
    ensures IsNew(r', row) <==> IsNew(r, row) && TriesAgain(r, changes, choices, row)
  {
    assert forall other | other in table && other.id == row.id :: other == row;
    assert row.id in changes.removedIDs <==> IsReplaced(r, row);
    assert row.id in r.nodes && row.id !in changes.removedIDs ==> Same(r.nodes[row.id], r'.nodes[row.id]);
    assert !DeviceInfoChanged(row.servers, row.servers);
  }

  /** Diffing the same table again after a round reports nothing removed, the same ids
      reappeared, and as new exactly the ids that may try again, in the same order: all of them
      if no scale-out took place, else those that did not answer or could not be grouped. */
  lemma OneRoundConverges(r: Record, table: seq<ServerNode>, changes: NodeChanges, choices: Choices, again: NodeChanges)
    requires ListingInv(r) && ValidRound(r, table, changes, choices)
    requires IsDiff(RoundResult(r, table, changes, choices), table, again)
    ensures again.removedIDs == []
    ensures again.reappearIDs == changes.reappearIDs
    ensures again.newIDs == IdsWhere(table, row => IsNew(r, row) && TriesAgain(r, changes, choices, row))
  {
    var r' := RoundResult(r, table, changes, choices);
    RoundSettles(r, table, changes, choices);
    forall row | row in table
      ensures !IsReplaced(r', row)
      ensures IsReappeared(r', row) <==> IsReappeared(r, row)
      ensures IsNew(r', row) <==> IsNew(r, row) && TriesAgain(r, changes, choices, row)
    {
      NextDiffOfRow(r, r', table, changes, choices, row);
    }
    forall id | id in r'.nodes ensures InTable(table, id) {
      if id in r.nodes && id !in changes.removedIDs {
        assert InTable(table, id);
      } else {
        var row :| row in table && row.id == id;
      }
    }
    assert forall id :: id !in again.removedIDs;
    SomeMember(again.removedIDs);
    IdsWhereSame(table, row => IsReappeared(r', row), row => IsReappeared(r, row));
    IdsWhereSame(table, row => IsNew(r', row), row => IsNew(r, row) && TriesAgain(r, changes, choices, row));
  }

  // ----- banished ids ---------------------------------------------------------------------------------------------

  /** A banished id survives a round as long as the table still lists it; one that is not
      stored, because its server was refused, survives any round. Either way it is neither
      reported as new or reappeared, nor stored anew. */
  lemma RoundKeepsBanished(r: Record, table: seq<ServerNode>, changes: NodeChanges, choices: Choices, id: Id)
    requires ListingInv(r) && ValidRound(r, table, changes, choices)
    requires id in r.expired && (InTable(table, id) || id !in r.nodes)
    ensures var r' := RoundResult(r, table, changes, choices);
            id in r'.expired && (id in r'.nodes <==> id in r.nodes)
    ensures id !in changes.newIDs && id !in changes.reappearIDs
  {
    ScaledInIdentity(r, table, changes, choices);
    RoundKeepsListing(r, table, changes, choices);
    IdsWhereMembers(table, row => IsNew(r, row));
    IdsWhereMembers(table, row => IsReappeared(r, row));
    assert id !in changes.newIDs && id !in changes.reappearIDs;
    assert id in r.nodes ==> id !in changes.removedIDs;
    if choices.available.Some? {
      NewRowsAreFresh(r, table, changes, choices);
      var r1 := ScaledIn(r, changes, choices.inOrder);
      AdmitAllSpec(r1, choices.groupIds, PreAdd(r1, choices.groupIds, choices.available.value), choices.grouped,
                   choices.available.value);
      PublishingKeepsIdentity(r1, choices);
    }
  }

  // ----- whole runs -------------------------------------------------------------------------------------------------

  /** Everything that edits nodes, groups or banishment: reconciliation rounds, releases of a
      prefill instance, terminations reported from outside, link recoveries, whatever becomes
      of them, and status reports about active peers. */
  datatype Event =
    | Reconcile(table: seq<ServerNode>, changes: NodeChanges, choices: Choices)
    | ReleasePrefill(g: GroupId, victim: Id, now: nat)
    | Terminate(id: Id, now: nat)
    | Recover(ids: seq<Id>, unlinkPosted: bool, order: seq<GroupId>)
    | Report(id: Id, active: set<Id>)

  /** The recovery gets as far as rebuilding links. */
  ghost predicate Relinks(r: Record, e: Event)
    requires e.Recover?
  {
    Links.AllUnlinkable(r.nodes, e.ids) && e.unlinkPosted
  }

  ghost predicate Enabled(r: Record, e: Event) {
    match e
    case Reconcile(table, changes, choices) => ValidRound(r, table, changes, choices)
    case ReleasePrefill(g, victim, _) =>
      victim in GetGroup(r, g).prefill && victim in r.nodes && Release.ActiveInstances(r, g) > 1
    case Terminate(id, _) => id in r.nodes
    case Recover(ids, _, order) => Relinks(r, e) ==> Enumerates(order, Links.GroupsOf(r.nodes, ids))
    case Report(id, _) => id in r.nodes
  }

  ghost function Next(r: Record, e: Event): Record
    requires Enabled(r, e)
  {
    match e
    case Reconcile(table, changes, choices) => RoundResult(r, table, changes, choices)
    case ReleasePrefill(g, victim, now) => Release.ReleaseInstance(r, g, r.nodes[victim].dpGroupPeers, now)
    case Terminate(id, now) => Release.Banish(r, r.nodes[id].dpGroupPeers, now)
    case Recover(ids, unlinkPosted, order) => Links.Recovered(r, ids, unlinkPosted, order)
    case Report(id, active) => r.(nodes := r.nodes[id := r.nodes[id].(activePeers := active)])
  }

  ghost function Run(r: Record, events: seq<Event>): Option<Record>
    decreases |events|
  {
    if events == [] then Some(r)
    else if Enabled(r, events[0]) then Run(Next(r, events[0]), events[1..])
    else None
  }

  /** The groups whose peers are damaged after one more event: a recovery that fails damages
      the groups of the listed nodes it got to; one that links, or a round that scales both
      roles of a group, repairs. */
  ghost function DamagedAfter(r: Record, damaged: set<GroupId>, e: Event): set<GroupId>
    requires Enabled(r, e)
  {
    match e
    case Reconcile(_, changes, choices) => DamagedAfterRound(r, damaged, changes, choices)
    case Recover(ids, _, _) =>
      if Relinks(r, e) then damaged - Links.GroupsOf(r.nodes, ids)
      else damaged + LinkDamage.Damaged(r.groups, LinkDamage.Done(r.nodes, ids))
    case _ => damaged
  }

  ghost function DamagedAfterRun(r: Record, damaged: set<GroupId>, events: seq<Event>): set<GroupId>
    decreases |events|
  {
    if events == [] || !Enabled(r, events[0]) then damaged
    else DamagedAfterRun(Next(r, events[0]), DamagedAfter(r, damaged, events[0]), events[1..])
  }

  lemma ReportKeepsBut(r: Record, damaged: set<GroupId>, id: Id, active: set<Id>)
    requires GraphInvBut(r, damaged) && id in r.nodes
    ensures GraphInvBut(Next(r, Report(id, active)), damaged)
  {
    var r' := Next(r, Report(id, active));
    forall g | g in r'.groups ensures GroupGood(r', g, g in damaged) {
      assert GroupGood(r, g, g in damaged);
      if g !in damaged {
        forall x | x in r.groups[g].prefill ensures PrefillOk(r', g, r.groups[g], x) {
          assert PrefillOk(r, g, r.groups[g], x);
        }
        forall x | x in r.groups[g].decode ensures DecodeOk(r', g, r.groups[g], x) {
          assert DecodeOk(r, g, r.groups[g], x);
        }
      }
    }
  }

  lemma RecoverKeepsBut(r: Record, damaged: set<GroupId>, e: Event)
    requires GraphInvBut(r, damaged) && Enabled(r, e) && e.Recover?
    ensures GraphInvBut(Next(r, e), DamagedAfter(r, damaged, e))
  {
    if Relinks(r, e) {
      Links.UnlinkedAreStored(r.nodes, e.ids);
      Links.RelinkKeepsBut(r, damaged, e.ids, e.order);
    } else {
      LinkDamage.FailedRecovery(r, damaged, e.ids);
    }
  }

  lemma NextKeepsBut(r: Record, damaged: set<GroupId>, e: Event)
    requires GraphInvBut(r, damaged) && Enabled(r, e)
    ensures GraphInvBut(Next(r, e), DamagedAfter(r, damaged, e))
  {
    match e
    case Reconcile(table, changes, choices) => RoundKeepsBut(r, damaged, table, changes, choices);
    case ReleasePrefill(g, victim, now) => Release.ReleaseKeepsBut(r, damaged, g, r.nodes[victim].dpGroupPeers, now);
    case Terminate(id, now) => Release.BanishKeepsBut(r, damaged, r.nodes[id].dpGroupPeers, now);
    case Recover(_, _, _) => RecoverKeepsBut(r, damaged, e);
    case Report(id, active) => ReportKeepsBut(r, damaged, id, active);
  }

  /** Over every run of scaling rounds, releases, terminations, link recoveries that succeed or
      fail, and status reports: all groups are consistent but those a failed recovery damaged
      and nothing repaired since; and even those keep proper lists. */
  lemma {:induction false} GraphOverEveryRun(r: Record, damaged: set<GroupId>, events: seq<Event>)
    requires GraphInvBut(r, damaged)
    ensures Run(r, events).Some? ==> GraphInvBut(Run(r, events).value, DamagedAfterRun(r, damaged, events))
    decreases |events|
  {
    if events != [] && Enabled(r, events[0]) {
      NextKeepsBut(r, damaged, events[0]);
      GraphOverEveryRun(Next(r, events[0]), DamagedAfter(r, damaged, events[0]), events[1..]);
    }
  }

  /** Every failed recovery of the run stops before it drops an edge of a listed node. */
  ghost predicate NoDamage(r: Record, events: seq<Event>)
    decreases |events|
  {
    events == [] || !Enabled(r, events[0]) || (
      && (events[0].Recover? && !Relinks(r, events[0]) ==>
            LinkDamage.Damaged(r.groups, LinkDamage.Done(r.nodes, events[0].ids)) == {})
      && NoDamage(Next(r, events[0]), events[1..]))
  }

  /** Without damage the graph is consistent throughout. */
  lemma {:induction false} ConsistentWithoutDamage(r: Record, events: seq<Event>)
    requires GraphInv(r) && NoDamage(r, events)
    ensures Run(r, events).Some? ==> GraphInv(Run(r, events).value)
    decreases |events|
  {
    if events != [] && Enabled(r, events[0]) {
      NothingDamaged(r);
      NextKeepsBut(r, {}, events[0]);
      assert DamagedAfter(r, {}, events[0]) == {};
      NothingDamaged(Next(r, events[0]));
      ConsistentWithoutDamage(Next(r, events[0]), events[1..]);
    }
  }

  /** For one event the condition is exact: from a consistent graph only a failed recovery can
      lead to an inconsistent one, and it does if and only if it damages some group. */
  lemma ConsistentNextIff(r: Record, e: Event)
    requires GraphInv(r) && Enabled(r, e)
    ensures GraphInv(Next(r, e)) <==> NoDamage(r, [e])
  {
    NothingDamaged(r);
    assert NoDamage(Next(r, e), [e][1..]);
    if NoDamage(r, [e]) {
      ConsistentWithoutDamage(r, [e]);
      assert Run(Next(r, e), [e][1..]) == Some(Next(r, e));
    } else {
      var done := LinkDamage.Done(r.nodes, e.ids);
      var g :| g in LinkDamage.Damaged(r.groups, done);
      LinkDamage.FailedRecovery(r, {}, e.ids);
    }
  }

  // ----- banished ids over runs -------------------------------------------------------------------------------------

  ghost predicate ListsAlways(events: seq<Event>, id: Id) {
    forall e | e in events && e.Reconcile? :: InTable(e.table, id)
  }

  ghost predicate NeverReported(events: seq<Event>, id: Id) {
    forall e | e in events && e.Reconcile? :: id !in e.changes.newIDs && id !in e.changes.reappearIDs
  }

  lemma NextKeepsListing(r: Record, e: Event)
    requires ListingInv(r) && Enabled(r, e)
    ensures ListingInv(Next(r, e))
  {
    assert GraphInvBut(r, r.groups.Keys) by {
      assert forall g | g in r.groups :: GroupGood(r, g, true);
    }
    NextKeepsBut(r, r.groups.Keys, e);
    ButListing(Next(r, e), DamagedAfter(r, r.groups.Keys, e));
  }

  lemma RecoverKeepsIdentity(r: Record, e: Event)
    requires ListingInv(r) && Enabled(r, e) && e.Recover?
    ensures SameIdentity(r, Next(r, e))
  {
    var r1 := r.(nodes := Links.Unlinked(r.nodes, e.ids));
    LinkDamage.UnlinkedShrinks(r.nodes, e.ids);
    assert SameIdentity(r, r1) && ListingInv(r1);
    if Relinks(r, e) { Links.LinkChain(r1, e.order); }
  }

  lemma NextKeepsBanished(r: Record, e: Event, id: Id)
    requires ListingInv(r) && Enabled(r, e) && id in r.expired
    requires id !in r.nodes || (e.Reconcile? ==> InTable(e.table, id))
    ensures id in Next(r, e).expired && (id in Next(r, e).nodes <==> id in r.nodes)
    ensures e.Reconcile? ==> id !in e.changes.newIDs && id !in e.changes.reappearIDs
  {
    match e
    case Reconcile(table, changes, choices) => RoundKeepsBanished(r, table, changes, choices, id);
    case Recover(_, _, _) => RecoverKeepsIdentity(r, e);
    case _ =>
  }

  /** A banished id, for instance a released prefill node, is never reported as new or
      reappeared as long as it stays in the rank table, whatever else happens. An id that was
      refused, and so is not stored, is never reported again at all. */
  lemma {:induction false} BanishedOverEveryRun(r: Record, events: seq<Event>, id: Id)
    requires ListingInv(r) && id in r.expired && (id !in r.nodes || ListsAlways(events, id))
    requires Run(r, events).Some?
    ensures NeverReported(events, id)
    ensures id in Run(r, events).value.expired
    decreases |events|
  {
    if events != [] {
      var e, rest := events[0], events[1..];
      assert events == [e] + rest;
      NextKeepsListing(r, e);
      NextKeepsBanished(r, e, id);
      BanishedOverEveryRun(Next(r, e), rest, id);
    }
  }

  // ----- deletion times over runs -----------------------------------------------------------------------------------

  /** The event releases or terminates the instance that the node belongs to, at this time. */
  ghost predicate BanishedAt(r: Record, e: Event, id: Id, now: nat) {
    || (e.ReleasePrefill? && e.now == now && e.victim in r.nodes && id in r.nodes[e.victim].dpGroupPeers)
    || (e.Terminate? && e.now == now && e.id in r.nodes && id in r.nodes[e.id].dpGroupPeers)
  }

  /** A node that stays stored gets the time of the event as its deletion time if and only if it
      is released or terminated and has none yet; a banished id is in the expired set from then
      on. */
  lemma DeletionTimeStep(r: Record, e: Event, id: Id, now: nat)
    requires ListingInv(r) && Enabled(r, e) && id in r.nodes && (e.Reconcile? ==> id !in e.changes.removedIDs)
    ensures id in Next(r, e).nodes
    ensures BanishedAt(r, e, id, now) ==>
            id in Next(r, e).expired
            && Next(r, e).nodes[id].deleteTime == if r.nodes[id].deleteTime == 0 then now else r.nodes[id].deleteTime
    ensures (forall t :: !BanishedAt(r, e, id, t)) ==> Next(r, e).nodes[id].deleteTime == r.nodes[id].deleteTime
  {
    match e
    case Reconcile(table, changes, choices) => RoundSettles(r, table, changes, choices);
    case ReleasePrefill(_, _, t) => assert id in r.nodes[e.victim].dpGroupPeers ==> BanishedAt(r, e, id, t);
    case Terminate(_, t) => assert id in r.nodes[e.id].dpGroupPeers ==> BanishedAt(r, e, id, t);
    case Recover(_, _, _) => RecoverKeepsIdentity(r, e);
    case Report(_, _) =>
  }

  /** The first deletion time of a node stays, whatever happens, as long as the rank table lists
      the node. */
  lemma {:induction false} FirstDeletionTimeStays(r: Record, events: seq<Event>, id: Id)
    requires ListingInv(r) && id in r.nodes && r.nodes[id].deleteTime > 0 && ListsAlways(events, id)
    requires Run(r, events).Some?
    ensures id in Run(r, events).value.nodes && Run(r, events).value.nodes[id].deleteTime == r.nodes[id].deleteTime
    decreases |events|
  {
    if events != [] {
      var e, rest := events[0], events[1..];
      assert events == [e] + rest;
      NextKeepsListing(r, e);
      if e.Reconcile? { DeletedIsNotRemoved(r, e, id); }
      if t :| BanishedAt(r, e, id, t) {
        DeletionTimeStep(r, e, id, t);
      } else {
        DeletionTimeStep(r, e, id, 0);
      }
      FirstDeletionTimeStays(Next(r, e), rest, id);
    }
  }

  lemma DeletedIsNotRemoved(r: Record, e: Event, id: Id)
    requires e.Reconcile? && Enabled(r, e) && InTable(e.table, id) && id in r.nodes && r.nodes[id].deleteTime > 0
    ensures id !in e.changes.removedIDs
  {
  }
}
