/** Release of a prefill instance to make room for decode (`ReleasePrefillInstances`), and
    banishment of a terminated instance (`AlarmListener::TerminateServiceHandler`). */
module Release {
  import opened Sequences
  import opened Cluster
  import opened PeerGraph

  // ----- counting active prefill instances --------------------------------------------------------------

  predicate IsActive(node: NodeInfo) {
    node.activePeers != {} || node.peers == []
  }

  function ActiveNodes(r: Record, list: seq<Id>): nat {
    if list == [] then 0
    else
      var last := list[|list| - 1];
      ActiveNodes(r, list[..|list| - 1]) + if last in r.nodes && IsActive(r.nodes[last]) then 1 else 0
  }

  /** The number of nodes per instance, taken from the last listed node that exists. */
  function NodesPerInstance(r: Record, list: seq<Id>): nat {
    if list == [] then 1
    else
      var last := list[|list| - 1];
      if last in r.nodes then |r.nodes[last].dpGroupPeers| else NodesPerInstance(r, list[..|list| - 1])
  }

  function ActiveInstances(r: Record, g: GroupId): nat {
    var list := GetGroup(r, g).prefill;
    if list == [] || NodesPerInstance(r, list) == 0 then 0
    else ActiveNodes(r, list) / NodesPerInstance(r, list)
  }

  // ----- the effect -----------------------------------------------------------------------------------------

  function Banish(r: Record, ids: seq<Id>, now: nat): Record {
    r.(nodes := map id | id in r.nodes ::
                  if id in ids && r.nodes[id].deleteTime == 0 then r.nodes[id].(deleteTime := now) else r.nodes[id],
       expired := r.expired + ToSet(ids))
  }

  /** Every node of the instance is banished and leaves the P list. */
  function ReleaseInstance(r: Record, g: GroupId, members: seq<Id>, now: nat): Record {
    var group := GetGroup(r, g);
    SetGroup(Banish(r, members, now), g, group.(prefill := Without(group.prefill, ToSet(members))))
  }

  lemma BanishOneMore(r: Record, ids: seq<Id>, x: Id, now: nat)
    ensures var b := Banish(r, ids, now);
            Banish(r, ids + [x], now) == MarkDeleted(b.(expired := b.expired + {x}), x, now)
  {
    var b := Banish(r, ids, now);
    assert ToSet(ids + [x]) == ToSet(ids) + {x};
    assert Banish(r, ids + [x], now).nodes == MarkDeleted(b, x, now).nodes;
  }

  lemma ReleaseOneMore(r: Record, g: GroupId, ids: seq<Id>, x: Id, now: nat)
    ensures var b := ReleaseInstance(r, g, ids, now);
            var list := Without(Without(GetGroup(r, g).prefill, ToSet(ids)), {x});
            && list == Without(GetGroup(r, g).prefill, ToSet(ids + [x]))
            && ReleaseInstance(r, g, ids + [x], now) ==
               SetGroup(MarkDeleted(b.(expired := b.expired + {x}), x, now), g, Group(list, GetGroup(r, g).decode))
  {
    BanishOneMore(r, ids, x, now);
    WithoutTwice(GetGroup(r, g).prefill, ToSet(ids), {x});
    assert ToSet(ids + [x]) == ToSet(ids) + {x};
  }

  lemma ReleaseNobody(r: Record, g: GroupId, now: nat)
    ensures ReleaseInstance(r, g, [], now) == r && Banish(r, [], now) == r
  {
    WithoutNothing(GetGroup(r, g).prefill, ToSet<Id>([]));
    assert Banish(r, [], now).nodes == r.nodes;
  }

  /** The node exists, and so does some member of its instance that agrees to stop. */
  predicate CanRelease(nodes: map<Id, NodeInfo>, victim: Id, answers: nat -> bool) {
    victim in nodes && exists j | 0 <= j < |nodes[victim].dpGroupPeers| ::
      nodes[victim].dpGroupPeers[j] in nodes && answers(j)
  }

  function AnswersOf(answers: (nat, nat) -> bool, i: nat): nat -> bool {
    (j: nat) => answers(i, j)
  }

  class Releaser {
    const nodeStatus: NodeStatus

    constructor (nodeStatus: NodeStatus)
      ensures this.nodeStatus == nodeStatus
    {
      this.nodeStatus := nodeStatus;
    }

    method GetGroupActivePrefillInstanceCnt(g: GroupId) returns (count: nat)
      ensures count == ActiveInstances(nodeStatus.View(), g)
    {
      var list := GetGroup(nodeStatus.View(), g).prefill;
      if list == [] { return 0; }
      var perInstance: nat := 1;
      count := 0;
      for i := 0 to |list|
        invariant count == ActiveNodes(nodeStatus.View(), list[..i])
        invariant perInstance == NodesPerInstance(nodeStatus.View(), list[..i])
      {
        assert list[..i + 1][..i] == list[..i];
        if list[i] in nodeStatus.nodes {
          var node := nodeStatus.nodes[list[i]];
          perInstance := |node.dpGroupPeers|;
          if node.activePeers != {} || node.peers == [] {
            count := count + 1;
          }
        }
      }
      assert list[..|list|] == list;
      if perInstance == 0 { return 0; }
      count := count / perInstance;
    }

    /** `ReleaseDpGroupPeersForNode`; `answers(j)` is the outcome of terminating the j-th
        member. */
    method ReleaseDpGroupPeersForNode(g: GroupId, victim: Id, answers: nat -> bool, now: nat) returns (ok: bool)
      modifies nodeStatus
      ensures ok <==>
              && victim in old(nodeStatus.nodes)
              && exists j | 0 <= j < |old(nodeStatus.nodes)[victim].dpGroupPeers| ::
                   old(nodeStatus.nodes)[victim].dpGroupPeers[j] in old(nodeStatus.nodes) && answers(j)
      ensures ok ==> nodeStatus.View() ==
                     ReleaseInstance(old(nodeStatus.View()), g, old(nodeStatus.nodes)[victim].dpGroupPeers, now)
      ensures !ok ==> nodeStatus.View() == old(nodeStatus.View())
    {
      if victim !in nodeStatus.nodes { return false; }
      var group := GetGroup(nodeStatus.View(), g);
      var members := nodeStatus.nodes[victim].dpGroupPeers;
      ok := false;
      for j := 0 to |members|
        invariant !ok && forall k | 0 <= k < j :: !(members[k] in nodeStatus.nodes && answers(k))
      {
        if members[j] in nodeStatus.nodes && answers(j) {
          ok := true;
          break;
        }
      }
      if ok { ReleaseMembers(g, group, members, now); }
    }

    method ReleaseMembers(g: GroupId, group: Group, members: seq<Id>, now: nat)
      requires group == GetGroup(nodeStatus.View(), g)
      modifies nodeStatus
      ensures nodeStatus.View() == ReleaseInstance(old(nodeStatus.View()), g, members, now)
    {
      ghost var before := nodeStatus.View();
      var list := group.prefill;
      ReleaseNobody(before, g, now);
      WithoutNothing(list, ToSet(members[..0]));
      for j := 0 to |members|
        invariant list == Without(group.prefill, ToSet(members[..j]))
        invariant nodeStatus.View() == ReleaseInstance(before, g, members[..j], now)
      {
        assert members[..j + 1] == members[..j] + [members[j]];
        ReleaseOneMore(before, g, members[..j], members[j], now);
        nodeStatus.AddExpiredNode(members[j]);
        nodeStatus.UpdateNodeDeleteTime(members[j], now);
        list := Without(list, {members[j]});
        nodeStatus.UpdateGroup(g, Group(list, group.decode));
      }
      assert members[..|members|] == members;
    }

    /** Releases one instance of the group, if more than one is active and some termination
        succeeds, and otherwise changes nothing. */
    method ReleasePrefillInstances(g: GroupId, answers: (nat, nat) -> bool, now: nat) returns (ok: bool, victim: Id)
      modifies nodeStatus
      ensures ok <==>
              && ActiveInstances(old(nodeStatus.View()), g) > 1
              && exists i | 0 <= i < |GetGroup(old(nodeStatus.View()), g).prefill| ::
                   CanRelease(old(nodeStatus.nodes), GetGroup(old(nodeStatus.View()), g).prefill[i], AnswersOf(answers, i))
      ensures ok ==> victim in GetGroup(old(nodeStatus.View()), g).prefill && victim in old(nodeStatus.nodes)
      ensures ok ==> nodeStatus.View() ==
                     ReleaseInstance(old(nodeStatus.View()), g, old(nodeStatus.nodes)[victim].dpGroupPeers, now)
      ensures !ok ==> nodeStatus.View() == old(nodeStatus.View())
    {
      ok, victim := false, 0;
      var list := GetGroup(nodeStatus.View(), g).prefill;
      var active := GetGroupActivePrefillInstanceCnt(g);
      if active <= 1 { return; }
      for i := 0 to |list|
        invariant !ok && nodeStatus.View() == old(nodeStatus.View())
        invariant forall k | 0 <= k < i :: !CanRelease(nodeStatus.nodes, list[k], AnswersOf(answers, k))
      {
        victim := list[i];
        ok := ReleaseDpGroupPeersForNode(g, victim, AnswersOf(answers, i), now);
        if ok { break; }
      }
    }

    /** `TerminateServiceHandler`, which leaves the lists alone; `terminated` is the server's
        answer. */
    method TerminateInstance(id: Id, terminated: bool, now: nat) returns (ok: bool)
      modifies nodeStatus
      ensures ok <==> id in old(nodeStatus.nodes) && terminated
      ensures ok ==> nodeStatus.View() == Banish(old(nodeStatus.View()), old(nodeStatus.nodes)[id].dpGroupPeers, now)
      ensures !ok ==> nodeStatus.View() == old(nodeStatus.View())
    {
      if id !in nodeStatus.nodes || !terminated { return false; }
      ghost var before := nodeStatus.View();
      var members := nodeStatus.nodes[id].dpGroupPeers;
      ReleaseNobody(before, 0, now);
      for j := 0 to |members|
        invariant nodeStatus.View() == Banish(before, members[..j], now)
      {
        assert members[..j + 1] == members[..j] + [members[j]];
        BanishOneMore(before, members[..j], members[j], now);
        nodeStatus.AddExpiredNode(members[j]);
        nodeStatus.UpdateNodeDeleteTime(members[j], now);
      }
      assert members[..|members|] == members;
      return true;
    }
  }

  // ----- the peer graph -----------------------------------------------------------------------------------

  lemma BanishKeepsGroupOk(r: Record, ids: seq<Id>, now: nat, g: GroupId, group: Group)
    requires GroupOk(r, g, group)
    ensures GroupOk(Banish(r, ids, now), g, group)
  {
    var r' := Banish(r, ids, now);
    forall id | id in group.decode ensures DecodeOk(r', g, group, id) {
      assert DecodeOk(r, g, group, id);
    }
    forall id | id in group.prefill ensures PrefillOk(r', g, group, id) {
      assert PrefillOk(r, g, group, id);
    }
  }

  /** Banishment neither damages a group nor repairs one. */
  lemma BanishKeepsBut(r: Record, damaged: set<GroupId>, ids: seq<Id>, now: nat)
    requires GraphInvBut(r, damaged)
    ensures GraphInvBut(Banish(r, ids, now), damaged)
  {
    var r' := Banish(r, ids, now);
    forall g | g in r'.groups ensures GroupGood(r', g, g in damaged) {
      assert GroupGood(r, g, g in damaged);
      if g !in damaged { BanishKeepsGroupOk(r, ids, now, g, r.groups[g]); }
    }
  }

  lemma ListedPartAfterRelease(peers: seq<Id>, list: seq<Id>, gone: set<Id>)
    requires ListedPart(peers, list) == list
    ensures ListedPart(peers, Without(list, gone)) == Without(list, gone)
  {
    var extra := ToSet(peers) - ToSet(list);
    WithoutTwice(peers, extra, gone);
    WithoutMembers(list, gone);
    WithoutMembers(peers, extra);
    WithoutSameOn(peers, extra + gone, ToSet(peers) - ToSet(Without(list, gone)));
  }

  lemma ReleaseKeepsGroupOk(b: Record, r': Record, g: GroupId, members: seq<Id>)
    requires g in b.groups && GroupOk(b, g, b.groups[g]) && (forall m | m in members :: m in b.expired)
    requires r' == SetGroup(b, g, b.groups[g].(prefill := Without(b.groups[g].prefill, ToSet(members))))
    ensures GroupOk(r', g, r'.groups[g])
  {
    var group := b.groups[g];
    WithoutMembers(group.prefill, ToSet(members));
    forall id | id in group.decode ensures DecodeOk(r', g, r'.groups[g], id) {
      assert DecodeOk(b, g, group, id);
      ListedPartAfterRelease(b.nodes[id].peers, group.prefill, ToSet(members));
      forall p | p in b.nodes[id].peers ensures p in r'.groups[g].prefill || Released(r', g, p) {
        if p in group.prefill {
          assert PrefillOk(b, g, group, p);
        } else {
          assert Released(b, g, p);
        }
      }
    }
    forall id | id in r'.groups[g].prefill ensures PrefillOk(r', g, r'.groups[g], id) {
      assert PrefillOk(b, g, group, id);
    }
  }

  /** A release keeps the invariant: the D nodes go on naming the released P nodes, which
      is exactly what the invariant lets them do. Damaged groups stay as damaged. */
  lemma ReleaseKeepsBut(r: Record, damaged: set<GroupId>, g: GroupId, members: seq<Id>, now: nat)
    requires GraphInvBut(r, damaged)
    ensures GraphInvBut(ReleaseInstance(r, g, members, now), damaged)
  {
    BanishKeepsBut(r, damaged, members, now);
    var b := Banish(r, members, now);
    var r' := ReleaseInstance(r, g, members, now);
    if g in r.groups {
      assert GroupGood(b, g, g in damaged);
      WithoutMembers(r.groups[g].prefill, ToSet(members));
      if g !in damaged { ReleaseKeepsGroupOk(b, r', g, members); }
    }
    forall h | h in r'.groups && h != g ensures GroupGood(r', h, h in damaged) {
      assert GroupGood(b, h, h in damaged);
      SameOutsideKeepsGood(b, r', g, h, h in damaged);
    }
  }

  lemma AtLeastTwice(n: nat, k: nat)
    requires 0 < k
    ensures n / k > 1 <==> n >= 2 * k
  {
    assert n == k * (n / k) + n % k;
    if n / k > 1 { assert k * (n / k) >= k * 2; } else { assert k * (n / k) <= k * 1; }
  }

  // ----- never the last instance -----------------------------------------------------------------------------

  /** The listed P nodes form instances of `k` nodes each, which every member names in full. */
  ghost predicate UniformInstances(r: Record, g: GroupId, k: nat) {
    var list := GetGroup(r, g).prefill;
    && 0 < k && NoDup(list)
    && forall id | id in list :: id in r.nodes && InstanceOf(r, list, k, id)
  }

  ghost predicate InstanceOf(r: Record, list: seq<Id>, k: nat, id: Id)
    requires id in r.nodes
  {
    var members := r.nodes[id].dpGroupPeers;
    |members| == k && NoDup(members) && id in members && forall m | m in members :: m in list
  }

  lemma {:induction false} UniformSize(r: Record, k: nat, list: seq<Id>)
    requires list != [] && forall id | id in list :: id in r.nodes && |r.nodes[id].dpGroupPeers| == k
    ensures NodesPerInstance(r, list) == k
  {
    assert list[|list| - 1] in list;
  }

  /** Dropping a set of ids from a duplicate-free list costs at most that many active nodes. */
  lemma {:induction false} ActiveAfterDrop(r: Record, list: seq<Id>, gone: set<Id>)
    ensures ActiveNodes(r, Without(list, gone)) + |list| - |Without(list, gone)| >= ActiveNodes(r, list)
  {
    if list != [] {
      var rest, last := list[..|list| - 1], list[|list| - 1];
      assert list == rest + [last];
      ActiveAfterDrop(r, rest, gone);
      WithoutSnoc(rest, last, gone);
      if last !in gone {
        assert (Without(rest, gone) + [last])[..|Without(rest, gone)|] == Without(rest, gone);
      } else {
        assert Without(list, gone) == Without(rest, gone);
      }
    }
  }

  /** How many elements a duplicate-free list loses. */
  lemma DropLength(list: seq<Id>, gone: set<Id>)
    requires NoDup(list) && gone <= ToSet(list)
    ensures |Without(list, gone)| == |list| - |gone|
  {
    WithoutMembers(list, gone);
    NoDupCount(list);
    NoDupCount(Without(list, gone));
    assert ToSet(Without(list, gone)) == ToSet(list) - gone;
  }

  lemma {:induction false} WithoutSnoc(s: seq<Id>, x: Id, drop: set<Id>)
    ensures Without(s + [x], drop) == Without(s, drop) + if x in drop then [] else [x]
  {
    if s != [] {
      assert (s + [x])[1..] == s[1..] + [x];
      WithoutSnoc(s[1..], x, drop);
    }
  }

  lemma {:induction false} ActiveUnaffected(r: Record, r': Record, list: seq<Id>)
    requires forall id | id in list :: (id in r'.nodes <==> id in r.nodes)
               && (id in r.nodes ==> IsActive(r'.nodes[id]) == IsActive(r.nodes[id]))
    ensures ActiveNodes(r', list) == ActiveNodes(r, list)
  {
    if list != [] {
      assert list[|list| - 1] in list;
      ActiveUnaffected(r, r', list[..|list| - 1]);
    }
  }

  /** The listed nodes that have active peers or no peers at all. */
  ghost function Serving(r: Record, list: seq<Id>): set<Id> {
    set id | id in list && id in r.nodes && (r.nodes[id].activePeers != {} || r.nodes[id].peers == [])
  }

  lemma ServingOneMore(r: Record, rest: seq<Id>, last: Id)
    requires last !in rest
    ensures |Serving(r, rest + [last])| ==
            |Serving(r, rest)|
              + if last in r.nodes && (r.nodes[last].activePeers != {} || r.nodes[last].peers == []) then 1 else 0
  {
    assert Serving(r, rest + [last]) - {last} == Serving(r, rest);
  }

  /** Each of them counts once. */
  lemma {:induction false} ActiveNodesCount(r: Record, list: seq<Id>)
    requires NoDup(list)
    ensures ActiveNodes(r, list) == |Serving(r, list)|
  {
    if list != [] {
      var rest, last := list[..|list| - 1], list[|list| - 1];
      assert list == rest + [last];
      ActiveNodesCount(r, rest);
      ServingOneMore(r, rest, last);
    }
  }

  lemma {:induction false} SizeOfLast(r: Record, list: seq<Id>, k: nat)
    requires k < |list| && list[k] in r.nodes && forall j | k < j < |list| :: list[j] !in r.nodes
    ensures NodesPerInstance(r, list) == |r.nodes[list[k]].dpGroupPeers|
  {
    if k < |list| - 1 { SizeOfLast(r, list[..|list| - 1], k); }
  }

  /** Whatever the sizes of instances, the active nodes are divided by that of the last listed
      node that is stored; without members, or without stored nodes, there is no instance. */
  lemma ActiveInstancesExact(r: Record, g: GroupId, k: nat)
    requires var list := GetGroup(r, g).prefill;
             && NoDup(list) && k < |list| && list[k] in r.nodes && forall j | k < j < |list| :: list[j] !in r.nodes
    ensures var list := GetGroup(r, g).prefill;
            var size := |r.nodes[list[k]].dpGroupPeers|;
            ActiveInstances(r, g) == if size == 0 then 0 else |Serving(r, list)| / size
  {
    SizeOfLast(r, GetGroup(r, g).prefill, k);
    ActiveNodesCount(r, GetGroup(r, g).prefill);
  }

  /** When P nodes form instances of `k`, the number of active instances is that of the active
      nodes divided by `k`, so a release goes ahead exactly when at least `2 * k` are active. */
  lemma ActiveInstancesIff(r: Record, g: GroupId, k: nat)
    requires UniformInstances(r, g, k)
    ensures var list := GetGroup(r, g).prefill;
            var active := set id | id in list && (r.nodes[id].activePeers != {} || r.nodes[id].peers == []);
            ActiveInstances(r, g) == |active| / k && (ActiveInstances(r, g) > 1 <==> |active| >= 2 * k)
  {
    var list := GetGroup(r, g).prefill;
    var active := set id | id in list && (r.nodes[id].activePeers != {} || r.nodes[id].peers == []);
    assert active == Serving(r, list);
    ActiveNodesCount(r, list);
    if list != [] {
      assert forall id | id in list :: InstanceOf(r, list, k, id);
      UniformSize(r, k, list);
    } else {
      assert active == {};
    }
    AtLeastTwice(|active|, k);
  }

  /** When P nodes form instances of `k`, releasing the instance of any listed node, which
      happens only if more than one instance is active, takes exactly its `k` ids off the
      list and leaves at least `k` active nodes on it. */
  lemma ReleaseLeavesAnInstance(r: Record, g: GroupId, k: nat, victim: Id, now: nat)
    requires UniformInstances(r, g, k) && victim in GetGroup(r, g).prefill && ActiveInstances(r, g) > 1
    ensures var members := r.nodes[victim].dpGroupPeers;
            var r' := ReleaseInstance(r, g, members, now);
            var list, list' := GetGroup(r, g).prefill, GetGroup(r', g).prefill;
            && |list'| == |list| - k && |members| == k
            && (forall id :: id in list' <==> id in list && id !in members)
            && |set id | id in list' && id in r'.nodes && (r'.nodes[id].activePeers != {} || r'.nodes[id].peers == [])| >= k
            && (forall id | id in members :: id in r'.expired && id in r'.nodes)
  {
    var list := GetGroup(r, g).prefill;
    var members := r.nodes[victim].dpGroupPeers;
    var r' := ReleaseInstance(r, g, members, now);
    assert InstanceOf(r, list, k, victim);
    assert forall id | id in list :: InstanceOf(r, list, k, id);
    UniformSize(r, k, list);
    AtLeastTwice(ActiveNodes(r, list), k);
    NoDupCount(members);
    DropLength(list, ToSet(members));
    ActiveAfterDrop(r, list, ToSet(members));
    WithoutMembers(list, ToSet(members));
    assert g in r.groups;
    assert GetGroup(r', g).prefill == Without(list, ToSet(members));
    ActiveUnaffected(r, r', Without(list, ToSet(members)));
    ActiveNodesCount(r', Without(list, ToSet(members)));
    assert Serving(r', GetGroup(r', g).prefill) == set id | id in GetGroup(r', g).prefill && id in r'.nodes
                     && (r'.nodes[id].activePeers != {} || r'.nodes[id].peers == []);
  }
}
