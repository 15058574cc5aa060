/** Grouping the devices of a node's servers into data-parallel groups. */
module DpGrouping {
  datatype DeviceInfo = DeviceInfo(id: string, ip: string)

  datatype ServerInfo = ServerInfo(deviceInfos: seq<DeviceInfo>, dpGroupInfos: map<nat, seq<DeviceInfo>>)

  datatype Role = PrefillInstance | DecodeInstance | UndefInstance

  /** tp * cp devices form a group and dp groups an instance; none of the sizes is zero. */
  datatype Parallelism = Parallelism(tp: nat, cp: nat, dp: nat) {
    ghost predicate Valid() { 0 < tp && 0 < cp && 0 < dp <= MAX_DP_SIZE }
  }

  const DP_GROUP_NUM: nat := 10000
  const MAX_DP_SIZE: nat := 512

  function DpId(nodeId: nat, dpIdx: nat): nat {
    nodeId * DP_GROUP_NUM + dpIdx
  }

  function TotalDevices(servers: seq<ServerInfo>): nat {
    if servers == [] then 0
    else TotalDevices(servers[..|servers| - 1]) + |servers[|servers| - 1].deviceInfos|
  }

  // ----- what the two groupings assign -------------------------------------------------------------------------------

  /** How often `size` fits into n; the code divides. */
  function Runs(n: nat, size: nat): nat
    requires size > 0
  {
    if n < size then 0 else Runs(n - size, size) + 1
  }

  /** The k-th run of `size` devices. */
  function Slice(devices: seq<DeviceInfo>, size: nat, k: nat): seq<DeviceInfo> {
    if k * size + size <= |devices| then devices[k * size..k * size + size] else []
  }

  /** The first k groups of one server, numbered on from `first`. */
  function OwnGroups(devices: seq<DeviceInfo>, size: nat, first: nat, k: nat): map<nat, seq<DeviceInfo>> {
    if k == 0 then map[] else OwnGroups(devices, size, first, k - 1)[first + k - 1 := Slice(devices, size, k - 1)]
  }

  /** How many groups the first j servers form. */
  function GroupsBefore(servers: seq<ServerInfo>, size: nat, j: nat): nat
    requires size > 0 && j <= |servers|
  {
    if j == 0 then 0 else GroupsBefore(servers, size, j - 1) + Runs(|servers[j - 1].deviceInfos|, size)
  }

  function SinglyAt(nodeId: nat, servers: seq<ServerInfo>, size: nat, j: nat): ServerInfo
    requires size > 0 && j < |servers|
  {
    var devices := servers[j].deviceInfos;
    var first := DpId(nodeId, GroupsBefore(servers, size, j));
    servers[j].(dpGroupInfos := servers[j].dpGroupInfos + OwnGroups(devices, size, first, Runs(|devices|, size)))
  }

  function GroupedSingly(nodeId: nat, servers: seq<ServerInfo>, size: nat): seq<ServerInfo>
    requires size > 0
  {
    seq(|servers|, j requires 0 <= j < |servers| => SinglyAt(nodeId, servers, size, j))
  }

  /** `perGroup` neighbouring servers share a group; servers left over get none. */
  function AcrossAt(nodeId: nat, servers: seq<ServerInfo>, perGroup: nat, t: nat): ServerInfo
    requires perGroup > 0 && t < |servers|
  {
    if t / perGroup < |servers| / perGroup
    then servers[t].(dpGroupInfos := servers[t].dpGroupInfos[DpId(nodeId, t / perGroup) := servers[t].deviceInfos])
    else servers[t]
  }

  function GroupedAcross(nodeId: nat, servers: seq<ServerInfo>, perGroup: nat): seq<ServerInfo>
    requires perGroup > 0
  {
    seq(|servers|, t requires 0 <= t < |servers| => AcrossAt(nodeId, servers, perGroup, t))
  }

  predicate UsesCrossServer(servers: seq<ServerInfo>, size: nat) {
    servers != [] && |servers[0].deviceInfos| < size
  }

  /** Exactly when grouping succeeds. */
  predicate Accepted(role: Role, isDistribute: bool, servers: seq<ServerInfo>, config: Parallelism) {
    var size := config.tp * config.cp;
    && !role.UndefInstance?
    && (isDistribute || TotalDevices(servers) == size * config.dp)
    && (UsesCrossServer(servers, size) ==>
          |servers[0].deviceInfos| > 0 && size % |servers[0].deviceInfos| == 0)
  }

  function Grouped(nodeId: nat, servers: seq<ServerInfo>, size: nat): seq<ServerInfo>
    requires size > 0
    requires UsesCrossServer(servers, size) ==> |servers[0].deviceInfos| > 0 && size % |servers[0].deviceInfos| == 0
  {
    if UsesCrossServer(servers, size) then
      DivisorFits(size, |servers[0].deviceInfos|);
      GroupedAcross(nodeId, servers, size / |servers[0].deviceInfos|)
    else GroupedSingly(nodeId, servers, size)
  }

  // ----- the node being grouped --------------------------------------------------------------------------------------

  class NodeInfo {
    const id: nat
    const role: Role
    const isDistribute: bool
    var serverInfoList: seq<ServerInfo>

    constructor (id: nat, role: Role, isDistribute: bool, servers: seq<ServerInfo>)
      ensures this.id == id && this.role == role && this.isDistribute == isDistribute && serverInfoList == servers
    {
      this.id, this.role, this.isDistribute, serverInfoList := id, role, isDistribute, servers;
    }

    method CountDevices() returns (total: nat)
      ensures total == TotalDevices(serverInfoList)
    {
      total := 0;
      for j := 0 to |serverInfoList|
        invariant total == TotalDevices(serverInfoList[..j])
      {
        assert serverInfoList[..j + 1][..j] == serverInfoList[..j];
        total := total + |serverInfoList[j].deviceInfos|;
      }
      assert serverInfoList[..|serverInfoList|] == serverInfoList;
    }

    method GroupOneServer(j: nat, size: nat, start: nat) returns (dpIdx: nat)
      requires size > 0 && j < |serverInfoList|
      modifies this
      ensures dpIdx == start + Runs(|old(serverInfoList)[j].deviceInfos|, size)
      ensures var server := old(serverInfoList)[j]; var devices := server.deviceInfos;
              serverInfoList == old(serverInfoList)[j := server.(dpGroupInfos :=
                server.dpGroupInfos + OwnGroups(devices, size, DpId(id, start), Runs(|devices|, size)))]
    {
      ghost var server := serverInfoList[j];
      var devices := serverInfoList[j].deviceInfos;
      dpIdx := start;
      assert server.dpGroupInfos + OwnGroups(devices, size, DpId(id, start), 0) == server.dpGroupInfos;
      RunsIsQuotient(|devices|, size);
      for k := 0 to |devices| / size
        invariant dpIdx == start + k
        invariant serverInfoList == old(serverInfoList)[j := server.(dpGroupInfos :=
                    server.dpGroupInfos + OwnGroups(devices, size, DpId(id, start), k))]
      {
        SliceFits(|devices|, size, k);
        var dpId := DpId(id, dpIdx);
        var groups := serverInfoList[j].dpGroupInfos[dpId := devices[k * size..k * size + size]];
        assert groups == server.dpGroupInfos + OwnGroups(devices, size, DpId(id, start), k + 1);
        serverInfoList := serverInfoList[j := serverInfoList[j].(dpGroupInfos := groups)];
        dpIdx := dpIdx + 1;
      }
    }

    method ProcessSingleServerGrouping(size: nat) returns (dpIdx: nat)
      requires size > 0
      modifies this
      ensures serverInfoList == GroupedSingly(id, old(serverInfoList), size)
      ensures dpIdx == GroupsBefore(old(serverInfoList), size, |serverInfoList|)
    {
      ghost var was := serverInfoList;
      dpIdx := 0;
      for j := 0 to |serverInfoList|
        invariant |serverInfoList| == |was| && dpIdx == GroupsBefore(was, size, j)
        invariant forall q | 0 <= q < j :: serverInfoList[q] == SinglyAt(id, was, size, q)
        invariant forall q | j <= q < |was| :: serverInfoList[q] == was[q]
      {
        ghost var before := serverInfoList;
        dpIdx := GroupOneServer(j, size, dpIdx);
        assert serverInfoList[j] == SinglyAt(id, was, size, j);
        assert forall q | 0 <= q < |was| && q != j :: serverInfoList[q] == before[q];
      }
    }

    /** The g-th group of the cross-server grouping. */
    method GroupServers(g: nat, perGroup: nat)
      requires perGroup > 0 && g * perGroup + perGroup <= |serverInfoList|
      modifies this
      ensures |serverInfoList| == |old(serverInfoList)|
      ensures forall t | 0 <= t < |serverInfoList| ::
                var server := old(serverInfoList)[t];
                serverInfoList[t] ==
                if g * perGroup <= t < g * perGroup + perGroup
                then server.(dpGroupInfos := server.dpGroupInfos[DpId(id, g) := server.deviceInfos]) else server
    {
      ghost var was := serverInfoList;
      var first := g * perGroup;
      for q := 0 to perGroup
        invariant |serverInfoList| == |was|
        invariant forall t | 0 <= t < |was| ::
                    serverInfoList[t] ==
                    if first <= t < first + q
                    then was[t].(dpGroupInfos := was[t].dpGroupInfos[DpId(id, g) := was[t].deviceInfos]) else was[t]
      {
        var server := serverInfoList[first + q];
        serverInfoList := serverInfoList[first + q :=
          server.(dpGroupInfos := server.dpGroupInfos[DpId(id, g) := server.deviceInfos])];
      }
    }

    method ProcessCrossServerGrouping(size: nat) returns (ok: bool)
      requires serverInfoList != []
      modifies this
      ensures var m := |old(serverInfoList)[0].deviceInfos|;
              && ok == (size > 0 && m > 0 && size % m == 0)
              && (ok ==> size / m > 0 && serverInfoList == GroupedAcross(id, old(serverInfoList), size / m))
              && (!ok ==> serverInfoList == old(serverInfoList))
    {
      ghost var was := serverInfoList;
      var m := |serverInfoList[0].deviceInfos|;
      if size == 0 || m == 0 { return false; }
      if size % m != 0 { return false; }
      DivisorFits(size, m);
      var perGroup := size / m;
      for g := 0 to |serverInfoList| / perGroup
        invariant |serverInfoList| == |was|
        invariant forall t | 0 <= t < |was| ::
                    serverInfoList[t] == if t / perGroup < g then AcrossAt(id, was, perGroup, t) else was[t]
      {
        SliceFits(|was|, perGroup, g);
        GroupServers(g, perGroup);
        forall t | 0 <= t < |was| ensures t / perGroup == g <==> g * perGroup <= t < g * perGroup + perGroup {
          QuotientIs(t, perGroup, g);
        }
      }
      return true;
    }

    method ProcessSingleNodeDpGrouping(config: Parallelism) returns (code: int)
      requires config.Valid()
      modifies this
      ensures code == 0 <==> Accepted(role, isDistribute, old(serverInfoList), config)
      ensures code == 0 ==>
                config.tp * config.cp > 0 && serverInfoList == Grouped(id, old(serverInfoList), config.tp * config.cp)
      ensures code != 0 ==> serverInfoList == old(serverInfoList)
    {
      if role == UndefInstance { return -1; }
      var size := config.tp * config.cp;
      assert size > 0;
      var total := CountDevices();
      if !isDistribute && total != size * config.dp { return -1; }
      if serverInfoList != [] && |serverInfoList[0].deviceInfos| < size {
        var ok := ProcessCrossServerGrouping(size);
        return if ok then 0 else -1;
      }
      var _ := ProcessSingleServerGrouping(size);
      return 0;
    }
  }

  // ----- arithmetic --------------------------------------------------------------------------------------------------

  lemma DivisorFits(size: nat, m: nat)
    requires size > 0 && m > 0 && size % m == 0
    ensures size / m > 0 && size / m * m == size
  {
  }

  lemma SliceFits(n: nat, size: nat, k: nat)
    requires size > 0
    ensures n / size * size <= n < n / size * size + size
    ensures k < n / size ==> k * size + size <= n / size * size <= n
  {
    if k < n / size { assert (k + 1) * size <= n / size * size; }
  }

  lemma {:induction false} RunsIsQuotient(n: nat, size: nat)
    requires size > 0
    ensures Runs(n, size) == n / size && Runs(n, size) * size <= n < Runs(n, size) * size + size
  {
    if n >= size {
      RunsIsQuotient(n - size, size);
      var r := Runs(n - size, size);
      assert (r + 1) * size == r * size + size;
      QuotientIs(n, size, r + 1);
    } else {
      QuotientIs(n, size, 0);
    }
  }

  lemma QuotientIs(t: nat, p: nat, g: nat)
    requires p > 0
    ensures t / p == g <==> g * p <= t < g * p + p
  {
    var q := t / p;
    assert q * p <= t < q * p + p;
    if g < q { assert (g + 1) * p <= q * p; }
    if q < g { assert (q + 1) * p <= g * p; }
  }

  lemma Cancel(a: nat, b: nat, c: nat)
    requires c > 0 && a * c == b * c
    ensures a == b
  {
    assert (a - b) * c == 0;
  }
}
