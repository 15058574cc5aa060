/** The cluster record kept by `NodeStatus`: nodes with their stored peers, the P and D
    lists of each group, and the ids banished from scaling ("expired"). */
module Cluster {
  import opened Sequences

  type Id = nat
  type GroupId = nat

  datatype Role = Prefill | Decode | Undefined

  datatype Device = Device(id: string, ip: string, logicalId: string, rankId: nat)

  /** `deleteTime` 0 marks a live node. Only emptiness and membership of `activePeers`
      matter, so it is a set. */
  datatype NodeInfo = NodeInfo(
    role: Role,
    groupId: GroupId,
    peers: seq<Id>,
    activePeers: set<Id>,
    deleteTime: nat,
    dpGroupPeers: seq<Id>,
    servers: seq<seq<Device>>)

  /** A row of the rank table. */
  datatype ServerNode = ServerNode(id: Id, role: Role, dpGroupPeers: seq<Id>, servers: seq<seq<Device>>)

  datatype Group = Group(prefill: seq<Id>, decode: seq<Id>)

  datatype Record = Record(nodes: map<Id, NodeInfo>, groups: map<GroupId, Group>, expired: set<Id>)

  datatype NodeChanges = NodeChanges(newIDs: seq<Id>, removedIDs: seq<Id>, reappearIDs: seq<Id>)

  // ----- elementary reads and updates -----------------------------------------------------------

  /** An unknown group reads as an empty one. */
  function GetGroup(r: Record, g: GroupId): Group {
    if g in r.groups then r.groups[g] else Group([], [])
  }

  /** With no flex nodes, the stored peers are the given ones and all become active. */
  function LinkTo(node: NodeInfo, peers: seq<Id>): NodeInfo {
    node.(peers := peers, activePeers := ToSet(peers))
  }

  function SetPeers(r: Record, id: Id, peers: seq<Id>): Record {
    if id in r.nodes then r.(nodes := r.nodes[id := LinkTo(r.nodes[id], peers)]) else r
  }

  /** Every listed node that exists gets the same peers; nothing else changes. */
  function LinkAll(nodes: map<Id, NodeInfo>, ids: seq<Id>, peers: seq<Id>): map<Id, NodeInfo> {
    map id | id in nodes :: if id in ids then LinkTo(nodes[id], peers) else nodes[id]
  }

  function SetGroup(r: Record, g: GroupId, group: Group): Record {
    if g in r.groups then r.(groups := r.groups[g := group]) else r
  }

  function MarkDeleted(r: Record, id: Id, now: nat): Record {
    if id in r.nodes && r.nodes[id].deleteTime == 0
    then r.(nodes := r.nodes[id := r.nodes[id].(deleteTime := now)])
    else r
  }

  // ----- diffing the rank table -------------------------------------------------------------------

  /** Only devices of the new table are looked up in the old one. */
  predicate DeviceInfoChanged(stored: seq<seq<Device>>, table: seq<seq<Device>>) {
    || |stored| != |table|
    || exists i | 0 <= i < |stored| :: exists device | device in table[i] :: device !in stored[i]
  }

  /** A device that is gone is not noticed: a row counts as unchanged exactly when each of its
      servers lists some of the stored devices only. */
  lemma UnchangedIff(stored: seq<seq<Device>>, table: seq<seq<Device>>)
    ensures !DeviceInfoChanged(stored, table) <==>
            |stored| == |table| && forall i | 0 <= i < |stored| :: ToSet(table[i]) <= ToSet(stored[i])
  {
    if |stored| == |table| && forall i | 0 <= i < |stored| :: ToSet(table[i]) <= ToSet(stored[i]) {
      forall i, device | 0 <= i < |stored| && device in table[i] ensures device in stored[i] {
        assert device in ToSet(table[i]);
      }
    }
  }

  predicate InTable(table: seq<ServerNode>, id: Id) {
    exists i | 0 <= i < |table| :: table[i].id == id
  }

  predicate DevicesChanged(r: Record, row: ServerNode) {
    row.id in r.nodes && DeviceInfoChanged(r.nodes[row.id].servers, row.servers)
  }

  predicate IsReappeared(r: Record, row: ServerNode) {
    row.id !in r.expired && row.id in r.nodes && r.nodes[row.id].deleteTime > 0
  }

  predicate IsReplaced(r: Record, row: ServerNode) {
    row.id !in r.expired && row.id in r.nodes && r.nodes[row.id].deleteTime == 0 && DevicesChanged(r, row)
  }

  predicate IsNew(r: Record, row: ServerNode) {
    row.id !in r.expired && (row.id !in r.nodes || IsReplaced(r, row))
  }

  /** The ids of the rows that satisfy `keep`, in table order. */
  function IdsWhere(table: seq<ServerNode>, keep: ServerNode -> bool): seq<Id> {
    if table == [] then []
    else
      var last := table[|table| - 1];
      IdsWhere(table[..|table| - 1], keep) + if keep(last) then [last.id] else []
  }

  lemma {:induction false} IdsWhereMembers(table: seq<ServerNode>, keep: ServerNode -> bool)
    ensures forall id :: id in IdsWhere(table, keep) <==> exists row | row in table :: keep(row) && row.id == id
  {
    if table != [] {
      var last := table[|table| - 1];
      assert table == table[..|table| - 1] + [last];
      IdsWhereMembers(table[..|table| - 1], keep);
    }
  }

  /** `changes` is a diff of the record against the table. Removed ids come in no
      particular order; new and reappeared ones come in table order. */
  ghost predicate IsDiff(r: Record, table: seq<ServerNode>, changes: NodeChanges) {
    && (forall id :: id in changes.removedIDs <==>
         (id in r.nodes && !InTable(table, id)) || exists row | row in table :: IsReplaced(r, row) && row.id == id)
    && changes.newIDs == IdsWhere(table, row => IsNew(r, row))
    && changes.reappearIDs == IdsWhere(table, row => IsReappeared(r, row))
  }

  /** The diff, id by id and on the stored fields. */
  lemma DiffIff(r: Record, table: seq<ServerNode>, changes: NodeChanges, row: ServerNode)
    requires IsDiff(r, table, changes) && row in table
    requires forall other | other in table && other.id == row.id :: other == row
    ensures var id := row.id;
            var same := id in r.nodes && |r.nodes[id].servers| == |row.servers|
              && forall i | 0 <= i < |row.servers| :: ToSet(row.servers[i]) <= ToSet(r.nodes[id].servers[i]);
            && (id in changes.newIDs <==>
                id !in r.expired && (id in r.nodes ==> r.nodes[id].deleteTime == 0 && !same))
            && (id in changes.removedIDs <==> id in changes.newIDs && id in r.nodes)
            && (id in changes.reappearIDs <==> id !in r.expired && id in r.nodes && r.nodes[id].deleteTime > 0)
  {
    IdsWhereMembers(table, other => IsNew(r, other));
    IdsWhereMembers(table, other => IsReappeared(r, other));
    if row.id in r.nodes { UnchangedIff(r.nodes[row.id].servers, row.servers); }
  }

  // ----- the object ---------------------------------------------------------------------------------

  class NodeStatus {
    var nodes: map<Id, NodeInfo>
    var groups: map<GroupId, Group>
    var expired: set<Id>
    var faulty: set<Id>

    constructor ()
      ensures View() == Record(map[], map[], {}) && faulty == {}
    {
      nodes, groups, expired, faulty := map[], map[], {}, {};
    }

    function View(): Record
      reads this
    {
      Record(nodes, groups, expired)
    }

    method AddNode(id: Id, node: NodeInfo)
      modifies this`nodes, this`faulty
      ensures nodes == old(nodes)[id := node] && faulty == old(faulty) - {id}
    {
      nodes := nodes[id := node];
      if id !in faulty { return; }
      faulty := faulty - {id};
    }

    method RemoveNode(id: Id)
      modifies this`nodes
      ensures nodes == old(nodes) - {id}
    {
      if id !in nodes { return; }
      nodes := nodes - {id};
    }

    method AddExpiredNode(id: Id)
      modifies this`expired
      ensures expired == old(expired) + {id}
    {
      expired := expired + {id};
    }

    method RemoveExpiredNode(id: Id)
      modifies this`expired
      ensures expired == old(expired) - {id}
    {
      if id !in expired { return; }
      expired := expired - {id};
    }

    method UpdateNodeDeleteTime(id: Id, now: nat)
      modifies this`nodes
      ensures View() == MarkDeleted(old(View()), id, now)
    {
      if id !in nodes { return; }
      if nodes[id].deleteTime > 0 { return; }
      nodes := nodes[id := nodes[id].(deleteTime := now)];
    }

    method UpdateGroup(g: GroupId, group: Group)
      modifies this`groups
      ensures View() == SetGroup(old(View()), g, group)
    {
      if g !in groups { return; }
      groups := groups[g := group];
    }

    method UpdateRoleStateAndPeers(id: Id, peers: seq<Id>)
      modifies this`nodes
      ensures View() == SetPeers(old(View()), id, peers)
    {
      if id !in nodes { return; }
      nodes := nodes[id := nodes[id].(peers := peers, activePeers := set p | p in peers)];
    }

    /** The same peers for every one of some nodes, as the scaling and the link code give them. */
    method LinkNodes(ids: seq<Id>, peers: seq<Id>)
      modifies this`nodes
      ensures nodes == LinkAll(old(nodes), ids, peers)
    {
      assert nodes == LinkAll(old(nodes), ids[..0], peers);
      for i := 0 to |ids|
        invariant nodes == LinkAll(old(nodes), ids[..i], peers)
      {
        assert ids[..i + 1] == ids[..i] + [ids[i]];
        UpdateRoleStateAndPeers(ids[i], peers);
        assert View().nodes == LinkAll(old(nodes), ids[..i + 1], peers);
      }
      assert ids[..|ids|] == ids;
    }

    /** The loops of `DetectNodeChanges`: first over the stored nodes, then over the table. */
    method DetectNodeChanges(table: seq<ServerNode>) returns (changes: NodeChanges)
      ensures IsDiff(View(), table, changes)
    {
      ghost var r := View();
      var removed: seq<Id> := [];
      var appeared: seq<Id> := [];
      var reappeared: seq<Id> := [];
      var left := nodes.Keys;
      while left != {}
        invariant left <= nodes.Keys
        invariant forall id :: id in removed <==> id in nodes.Keys - left && !InTable(table, id)
        decreases left
      {
        var id :| id in left;
        if !InTable(table, id) {
          removed := removed + [id];
        }
        left := left - {id};
      }
      ghost var gone := removed;
      for i := 0 to |table|
        invariant forall id :: id in removed <==>
                    id in gone || exists k | 0 <= k < i :: IsReplaced(r, table[k]) && table[k].id == id
        invariant appeared == IdsWhere(table[..i], row => IsNew(r, row))
        invariant reappeared == IdsWhere(table[..i], row => IsReappeared(r, row))
      {
        assert table[..i + 1][..i] == table[..i];
        var row := table[i];
        var changed := row.id in nodes;
        if changed {
          changed := IsDeviceInfoChanged(nodes[row.id].servers, row.servers);
        }
        if row.id in expired {
        } else if row.id !in nodes {
          appeared := appeared + [row.id];
        } else if nodes[row.id].deleteTime > 0 {
          reappeared := reappeared + [row.id];
        } else if changed {
          removed := removed + [row.id];
          appeared := appeared + [row.id];
        }
      }
      assert table[..|table|] == table;
      changes := NodeChanges(appeared, removed, reappeared);
    }
  }

  method IsDeviceInfoChanged(stored: seq<seq<Device>>, table: seq<seq<Device>>) returns (changed: bool)
    ensures changed == DeviceInfoChanged(stored, table)
  {
    if |stored| != |table| { return true; }
    for i := 0 to |stored|
      invariant forall k | 0 <= k < i :: forall device | device in table[k] :: device in stored[k]
    {
      for j := 0 to |table[i]|
        invariant forall k | 0 <= k < j :: table[i][k] in stored[i]
      {
        if table[i][j] !in stored[i] { return true; }
      }
    }
    return false;
  }
}
