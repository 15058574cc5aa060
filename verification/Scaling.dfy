/** Scale-in and scale-out of the P/D groups (`FaultManager`) as functions on the cluster record. */
module Scaling {
  import opened Basics
  import opened Sequences
  import opened Cluster

  const NOT_SCALE_OUT: GroupId := 999999
  const UINT64_MAX: nat := 0xFFFF_FFFF_FFFF_FFFF

  datatype Mode = ScaleIn | ScaleOut

  datatype Change = Change(id: Id, role: Role)

  type Changes = map<GroupId, seq<Change>>

  datatype GroupUpdateMsg = GroupUpdateMsg(
    pNodes: seq<Id>, dNodes: seq<Id>, hasPrefillNode: bool, hasDecodeNode: bool)

  /** A record in which nodes have been added or removed but the groups still wait for
      their update. */
  datatype Pending = Pending(record: Record, changed: Changes)

  // ----- updating one group ------------------------------------------------------------------------

  function EditList(mode: Mode, list: seq<Id>, id: Id): seq<Id> {
    if mode == ScaleIn then RemoveFirst(list, id) else AppendNew(list, id)
  }

  function EditMsg(msg: GroupUpdateMsg, mode: Mode, change: Change): GroupUpdateMsg {
    match change.role
    case Decode => msg.(dNodes := EditList(mode, msg.dNodes, change.id), hasDecodeNode := true)
    case Prefill => msg.(pNodes := EditList(mode, msg.pNodes, change.id), hasPrefillNode := true)
    case Undefined => msg
  }

  function BuildMsg(group: Group, mode: Mode, changes: seq<Change>): GroupUpdateMsg {
    if changes == [] then GroupUpdateMsg(group.prefill, group.decode, false, false)
    else EditMsg(BuildMsg(group, mode, changes[..|changes| - 1]), mode, changes[|changes| - 1])
  }

  predicate AllPeersGone(r: Record, peers: seq<Id>) {
    forall p | p in peers :: p !in r.nodes || r.nodes[p].deleteTime != 0
  }

  /** `IsAllPeersUnAvailable`: in a group that is not altogether empty, the node has no live
      peer and the same update brings none of the opposite role. */
  predicate Unscalable(r: Record, node: NodeInfo, msg: GroupUpdateMsg) {
    && GetGroup(r, node.groupId) != Group([], [])
    && AllPeersGone(r, node.peers)
    && (node.role == Decode ==> !msg.hasPrefillNode)
    && (node.role == Prefill ==> !msg.hasDecodeNode)
  }

  function PruneOne(r: Record, msg: GroupUpdateMsg, id: Id): GroupUpdateMsg {
    if id in r.nodes && Unscalable(r, r.nodes[id], msg) then
      match r.nodes[id].role
      case Decode => msg.(dNodes := RemoveFirst(msg.dNodes, id))
      case Prefill => msg.(pNodes := RemoveFirst(msg.pNodes, id))
      case Undefined => msg
    else msg
  }

  function Prune(r: Record, msg: GroupUpdateMsg, changes: seq<Change>): GroupUpdateMsg {
    if changes == [] then msg
    else PruneOne(r, Prune(r, msg, changes[..|changes| - 1]), changes[|changes| - 1].id)
  }

  function GroupMsg(r: Record, mode: Mode, g: GroupId, changes: seq<Change>): GroupUpdateMsg {
    var msg := BuildMsg(GetGroup(r, g), mode, changes);
    if mode == ScaleOut then Prune(r, msg, changes) else msg
  }

  /** Store the new lists, then hand the D list to all P nodes if a D node changed, and the
      P list to all D nodes if a P node changed. */
  function Publish(r: Record, g: GroupId, msg: GroupUpdateMsg): Record {
    var linked := if msg.hasDecodeNode then LinkAll(r.nodes, msg.pNodes, msg.dNodes) else r.nodes;
    var both := if msg.hasPrefillNode then LinkAll(linked, msg.dNodes, msg.pNodes) else linked;
    SetGroup(r, g, Group(msg.pNodes, msg.dNodes)).(nodes := both)
  }

  function UpdateOneGroup(r: Record, mode: Mode, g: GroupId, changes: seq<Change>): Record {
    Publish(r, g, GroupMsg(r, mode, g, changes))
  }

  /** The groups in `order`, one after the other. */
  function UpdateGroups(r: Record, mode: Mode, changed: Changes, order: seq<GroupId>): Record
    requires forall g | g in order :: g in changed
  {
    if order == [] then r
    else
      var last := order[|order| - 1];
      assert last in order;
      UpdateOneGroup(UpdateGroups(r, mode, changed, order[..|order| - 1]), mode, last, changed[last])
  }

  function NoteChange(changed: Changes, g: GroupId, change: Change): Changes {
    changed[g := (if g in changed then changed[g] else []) + [change]]
  }

  // ----- scale-in --------------------------------------------------------------------------------------

  function RemoveOne(p: Pending, id: Id): Pending {
    if id !in p.record.nodes then p
    else
      var node := p.record.nodes[id];
      Pending(p.record.(nodes := p.record.nodes - {id}, expired := p.record.expired - {id}),
              NoteChange(p.changed, node.groupId, Change(id, node.role)))
  }

  function RemoveAll(r: Record, removed: seq<Id>): Pending {
    if removed == [] then Pending(r, map[])
    else RemoveOne(RemoveAll(r, removed[..|removed| - 1]), removed[|removed| - 1])
  }

  // ----- scale-out -------------------------------------------------------------------------------------

  datatype Best = Best(least: nat, group: GroupId)

  /** `SelectBestGroup` compares one role's list but remembers the length of the other. */
  function BestGroup(r: Record, role: Role, ids: seq<GroupId>): Best {
    if ids == [] then Best(UINT64_MAX, 0)
    else
      var best := BestGroup(r, role, ids[..|ids| - 1]);
      var g := ids[|ids| - 1];
      var group := GetGroup(r, g);
      match role
      case Prefill => if |group.prefill| < best.least then Best(|group.decode|, g) else best
      case Decode => if |group.decode| < best.least then Best(|group.prefill|, g) else best
      case Undefined => best
  }

  function TargetGroup(r: Record, role: Role, ids: seq<GroupId>): GroupId {
    BestGroup(r, role, ids).group
  }

  datatype Counts = Counts(prefill: nat, decode: nat)

  function CountOne(counts: map<GroupId, Counts>, g: GroupId, role: Role): map<GroupId, Counts> {
    var was := if g in counts then counts[g] else Counts(0, 0);
    counts[g := if role == Decode then was.(decode := was.decode + 1) else was.(prefill := was.prefill + 1)]
  }

  /** `PreAddAvailableServers2Group`: list sizes per group as if every available server had
      already joined its target group. */
  function PreAdd(r: Record, ids: seq<GroupId>, available: seq<ServerNode>): map<GroupId, Counts> {
    if available == [] then
      map g | g in ids :: Counts(|GetGroup(r, g).prefill|, |GetGroup(r, g).decode|)
    else
      var row := available[|available| - 1];
      CountOne(PreAdd(r, ids, available[..|available| - 1]), TargetGroup(r, row.role, ids), row.role)
  }

  /** `AddInstance2Group`'s answer: the target group, or `NOT_SCALE_OUT`. */
  function Verdict(r: Record, counts: map<GroupId, Counts>, g: GroupId): GroupId {
    if GetGroup(r, g) == Group([], []) then g
    else if g in counts && counts[g].prefill > 0 && counts[g].decode > 0 then g
    else NOT_SCALE_OUT
  }

  /** The node a server becomes when it joins group `g`; an undefined role turns into P. */
  function Joined(r: Record, row: ServerNode, g: GroupId): NodeInfo {
    var group := GetGroup(r, g);
    var role := if row.role == Decode then Decode else Prefill;
    NodeInfo(role, g, if role == Decode then group.prefill else group.decode, {}, 0, row.dpGroupPeers, row.servers)
  }

  /** `grouped` holds the ids whose DP grouping succeeds. */
  function AdmitOne(p: Pending, ids: seq<GroupId>, counts: map<GroupId, Counts>, grouped: set<Id>, row: ServerNode): Pending {
    var g := TargetGroup(p.record, row.role, ids);
    if Verdict(p.record, counts, g) == NOT_SCALE_OUT then
      p.(record := p.record.(expired := p.record.expired + {row.id}))
    else if row.id !in grouped then p
    else
      var node := Joined(p.record, row, g);
      Pending(p.record.(nodes := p.record.nodes[row.id := node]), NoteChange(p.changed, g, Change(row.id, node.role)))
  }

  function AdmitAll(r: Record, ids: seq<GroupId>, counts: map<GroupId, Counts>, grouped: set<Id>,
                    available: seq<ServerNode>): Pending
  {
    if available == [] then Pending(r, map[])
    else AdmitOne(AdmitAll(r, ids, counts, grouped, available[..|available| - 1]), ids, counts, grouped,
                  available[|available| - 1])
  }

  // ----- one reconciliation round ------------------------------------------------------------------------

  /** What the environment decides in a round: which servers answer as available (`None`
      when the rank table changes meanwhile), whose DP grouping succeeds, the order in
      which group ids are enumerated and groups updated, and after how many groups the
      scale-out is broken off by another rank-table change. */
  datatype Choices = Choices(
    available: Option<seq<ServerNode>>, grouped: set<Id>, groupIds: seq<GroupId>,
    inOrder: seq<GroupId>, outOrder: seq<GroupId>)

  ghost predicate Enumerates(order: seq<GroupId>, groups: set<GroupId>) {
    NoDup(order) && ToSet(order) == groups
  }

  /** The servers answering are among the new ones, each once. */
  ghost predicate AvailableFrom(available: seq<ServerNode>, table: seq<ServerNode>, newIDs: seq<Id>) {
    && (forall row | row in available :: row in table && row.id in newIDs)
    && (forall i, j | 0 <= i < j < |available| :: available[i].id != available[j].id)
  }

  function ScaledIn(r: Record, changes: NodeChanges, order: seq<GroupId>): Record
    requires forall g | g in order :: g in RemoveAll(r, changes.removedIDs).changed
  {
    var p := RemoveAll(r, changes.removedIDs);
    UpdateGroups(p.record, ScaleIn, p.changed, order)
  }

  function Admission(r: Record, ids: seq<GroupId>, grouped: set<Id>, available: seq<ServerNode>): Pending {
    AdmitAll(r, ids, PreAdd(r, ids, available), grouped, available)
  }

  function ScaledOut(r: Record, choices: Choices): Record
    requires choices.available.Some?
    requires forall g | g in choices.outOrder ::
               g in Admission(r, choices.groupIds, choices.grouped, choices.available.value).changed
  {
    var p := Admission(r, choices.groupIds, choices.grouped, choices.available.value);
    UpdateGroups(p.record, ScaleOut, p.changed, choices.outOrder)
  }
}
