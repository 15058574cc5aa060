/** Data-parallel grouping as a partition: which devices end up in which group. */
module DpPartition {
  import opened DpGrouping

  /** What a server contributes to a group. */
  function Part(server: ServerInfo, id: nat): seq<DeviceInfo> {
    if id in server.dpGroupInfos then server.dpGroupInfos[id] else []
  }

  /** A server's contributions to the groups with ids from lo to hi, one after the other. */
  function Parts(server: ServerInfo, lo: nat, hi: nat): seq<DeviceInfo>
    requires lo <= hi
  {
    if lo == hi then [] else Parts(server, lo, hi - 1) + Part(server, hi - 1)
  }

  /** Devices of the first n servers in a group. */
  function GroupSize(servers: seq<ServerInfo>, id: nat, n: nat): nat
    requires n <= |servers|
  {
    if n == 0 then 0 else GroupSize(servers, id, n - 1) + |Part(servers[n - 1], id)|
  }

  predicate Ungrouped(servers: seq<ServerInfo>) {
    forall server | server in servers :: server.dpGroupInfos == map[]
  }

  // ----- parts of one server -----------------------------------------------------------------------------------------

  lemma {:induction false} PartsSplit(server: ServerInfo, lo: nat, mid: nat, hi: nat)
    requires lo <= mid <= hi
    ensures Parts(server, lo, hi) == Parts(server, lo, mid) + Parts(server, mid, hi)
  {
    if mid < hi { PartsSplit(server, lo, mid, hi - 1); }
  }

  lemma {:induction false} NoParts(server: ServerInfo, lo: nat, hi: nat)
    requires lo <= hi && forall id | lo <= id < hi :: id !in server.dpGroupInfos
    ensures Parts(server, lo, hi) == []
  {
    if lo < hi { NoParts(server, lo, hi - 1); }
  }

  lemma PartsWithin(server: ServerInfo, lo: nat, first: nat, last: nat, hi: nat)
    requires lo <= first <= last <= hi && forall id | id in server.dpGroupInfos :: first <= id < last
    ensures Parts(server, lo, hi) == Parts(server, first, last)
  {
    PartsSplit(server, lo, first, hi);
    PartsSplit(server, first, last, hi);
    NoParts(server, lo, first);
    NoParts(server, last, hi);
  }

  /** The server has exactly k groups, from `first` on, each the next `size` of its devices. */
  ghost predicate HasRuns(server: ServerInfo, size: nat, first: nat, k: nat) {
    && (forall id: nat :: id in server.dpGroupInfos <==> first <= id < first + k)
    && (forall id: nat | first <= id < first + k :: server.dpGroupInfos[id] == Slice(server.deviceInfos, size, id - first))
  }

  lemma {:induction false} OwnGroupsAt(devices: seq<DeviceInfo>, size: nat, first: nat, k: nat)
    ensures HasRuns(ServerInfo(devices, OwnGroups(devices, size, first, k)), size, first, k)
  {
    if k > 0 { OwnGroupsAt(devices, size, first, k - 1); }
  }

  lemma SinglyRuns(nodeId: nat, servers: seq<ServerInfo>, size: nat, j: nat)
    requires size > 0 && j < |servers| && Ungrouped(servers)
    ensures SinglyAt(nodeId, servers, size, j).deviceInfos == servers[j].deviceInfos
    ensures HasRuns(SinglyAt(nodeId, servers, size, j), size, DpId(nodeId, GroupsBefore(servers, size, j)),
                    Runs(|servers[j].deviceInfos|, size))
  {
    var devices, first := servers[j].deviceInfos, DpId(nodeId, GroupsBefore(servers, size, j));
    assert servers[j] in servers;
    assert map[] + OwnGroups(devices, size, first, Runs(|devices|, size)) == OwnGroups(devices, size, first, Runs(|devices|, size));
    OwnGroupsAt(devices, size, first, Runs(|devices|, size));
  }

  lemma AppendSlice(devices: seq<DeviceInfo>, size: nat, n: nat)
    requires size > 0 && 0 < n <= Runs(|devices|, size)
    ensures (n - 1) * size <= n * size <= |devices|
    ensures devices[..n * size] == devices[..(n - 1) * size] + Slice(devices, size, n - 1)
  {
    RunsFit(|devices|, size, n);
    var lo := (n - 1) * size;
    assert Slice(devices, size, n - 1) == devices[lo..lo + size];
  }

  lemma RunsFit(count: nat, size: nat, n: nat)
    requires size > 0 && 0 < n <= Runs(count, size)
    ensures (n - 1) * size + size == n * size <= count
  {
    RunsIsQuotient(count, size);
    SliceFits(count, size, n - 1);
  }

  /** The first n runs hold the first n * size devices, in order. */
  lemma {:induction false} RunsAreDevices(server: ServerInfo, size: nat, first: nat, k: nat, n: nat)
    requires size > 0 && n <= k == Runs(|server.deviceInfos|, size) && HasRuns(server, size, first, k)
    ensures n * size <= |server.deviceInfos|
    ensures Parts(server, first, first + n) == server.deviceInfos[..n * size]
  {
    if n > 0 {
      var devices := server.deviceInfos;
      RunsAreDevices(server, size, first, k, n - 1);
      AppendSlice(devices, size, n);
      assert Part(server, first + n - 1) == Slice(devices, size, n - 1);
    }
  }

  lemma {:induction false} GroupsBeforeGrows(servers: seq<ServerInfo>, size: nat, j: nat, n: nat)
    requires size > 0 && j < n <= |servers|
    ensures GroupsBefore(servers, size, j) + Runs(|servers[j].deviceInfos|, size) <= GroupsBefore(servers, size, n)
  {
    if j < n - 1 { GroupsBeforeGrows(servers, size, j, n - 1); }
  }

  lemma RunsCover(server: ServerInfo, size: nat, lo: nat, first: nat, k: nat, hi: nat)
    requires size > 0 && k == Runs(|server.deviceInfos|, size) && HasRuns(server, size, first, k) && lo <= first && first + k <= hi
    ensures k * size <= |server.deviceInfos|
    ensures Parts(server, lo, hi) == server.deviceInfos[..k * size]
  {
    PartsWithin(server, lo, first, first + k, hi);
    RunsAreDevices(server, size, first, k, k);
  }

  /** Grouping within servers, for servers of any sizes: a server's groups are its devices in
      order, up to the last whole group. */
  lemma SinglyGroups(nodeId: nat, servers: seq<ServerInfo>, size: nat, j: nat)
    requires size > 0 && j < |servers| && Ungrouped(servers)
    ensures var devices, all := servers[j].deviceInfos, GroupsBefore(servers, size, |servers|);
            && Runs(|devices|, size) * size <= |devices|
            && Parts(SinglyAt(nodeId, servers, size, j), DpId(nodeId, 0), DpId(nodeId, all)) ==
               devices[..Runs(|devices|, size) * size]
  {
    var before, all := GroupsBefore(servers, size, j), GroupsBefore(servers, size, |servers|);
    SinglyRuns(nodeId, servers, size, j);
    GroupsBeforeGrows(servers, size, j, |servers|);
    RunsCover(SinglyAt(nodeId, servers, size, j), size, DpId(nodeId, 0), DpId(nodeId, before),
              Runs(|servers[j].deviceInfos|, size), DpId(nodeId, all));
  }

  lemma WholeGroups(n: nat, size: nat)
    requires size > 0
    ensures Runs(n, size) * size == n <==> n % size == 0
  {
    RunsIsQuotient(n, size);
    assert n == n / size * size + n % size;
  }

  /** So no device of a server is left out if and only if its count is a multiple of the group
      size. */
  lemma SinglyCoversIff(nodeId: nat, servers: seq<ServerInfo>, size: nat, j: nat)
    requires size > 0 && j < |servers| && Ungrouped(servers)
    ensures var all := GroupsBefore(servers, size, |servers|);
            Parts(SinglyAt(nodeId, servers, size, j), DpId(nodeId, 0), DpId(nodeId, all)) == servers[j].deviceInfos
            <==> |servers[j].deviceInfos| % size == 0
  {
    SinglyGroups(nodeId, servers, size, j);
    WholeGroups(|servers[j].deviceInfos|, size);
  }

  /** Grouping across servers, for servers of any sizes: a server is whole in one group, or,
      past the last full set of servers, in none. */
  lemma AcrossGroups(nodeId: nat, servers: seq<ServerInfo>, perGroup: nat, t: nat)
    requires perGroup > 0 && t < |servers| && Ungrouped(servers)
    ensures Parts(AcrossAt(nodeId, servers, perGroup, t), DpId(nodeId, 0), DpId(nodeId, |servers| / perGroup)) ==
            if t / perGroup < |servers| / perGroup then servers[t].deviceInfos else []
  {
    assert servers[t] in servers;
    var r, g, all := AcrossAt(nodeId, servers, perGroup, t), t / perGroup, |servers| / perGroup;
    if g < all {
      PartsWithin(r, DpId(nodeId, 0), DpId(nodeId, g), DpId(nodeId, g) + 1, DpId(nodeId, all));
    } else {
      NoParts(r, DpId(nodeId, 0), DpId(nodeId, all));
    }
  }

  lemma SinglyPartSize(nodeId: nat, servers: seq<ServerInfo>, size: nat, j: nat, d: nat)
    requires size > 0 && Ungrouped(servers) && j < |servers|
    ensures |Part(SinglyAt(nodeId, servers, size, j), DpId(nodeId, d))| ==
            if GroupsBefore(servers, size, j) <= d < GroupsBefore(servers, size, j + 1) then size else 0
  {
    var first := GroupsBefore(servers, size, j);
    SinglyRuns(nodeId, servers, size, j);
    if first <= d < GroupsBefore(servers, size, j + 1) {
      RunsIsQuotient(|servers[j].deviceInfos|, size);
      SliceFits(|servers[j].deviceInfos|, size, d - first);
    }
  }

  /** A group that lies wholly between two marks of one server has that server's part. */
  lemma {:induction false} OnePartOnly(r: seq<ServerInfo>, id: nat, marks: seq<nat>, size: nat, d: nat, n: nat)
    requires n <= |r| && |marks| == |r| + 1 && marks[0] == 0
    requires forall j | 0 <= j < |r| :: marks[j] <= marks[j + 1]
    requires forall j | 0 <= j < |r| :: |Part(r[j], id)| == if marks[j] <= d < marks[j + 1] then size else 0
    ensures GroupSize(r, id, n) == if d < marks[n] then size else 0
  {
    if n > 0 { OnePartOnly(r, id, marks, size, d, n - 1); }
  }

  /** Within servers every group has the same size, whatever the sizes of the servers. */
  lemma SinglyGroupSize(nodeId: nat, servers: seq<ServerInfo>, size: nat, d: nat)
    requires size > 0 && Ungrouped(servers) && d < GroupsBefore(servers, size, |servers|)
    ensures GroupSize(GroupedSingly(nodeId, servers, size), DpId(nodeId, d), |servers|) == size
  {
    var r := GroupedSingly(nodeId, servers, size);
    var marks := seq(|servers| + 1, j requires 0 <= j <= |servers| => GroupsBefore(servers, size, j));
    forall j | 0 <= j < |r|
      ensures marks[j] <= marks[j + 1]
      ensures |Part(r[j], DpId(nodeId, d))| == if marks[j] <= d < marks[j + 1] then size else 0
    {
      SinglyPartSize(nodeId, servers, size, j, d);
    }
    OnePartOnly(r, DpId(nodeId, d), marks, size, d, |servers|);
  }

  /** There are exactly dp groups, each of `size` devices over all servers, and going through
      the groups in order gives every server's devices back, so that each device lies in
      exactly one group. */
  ghost predicate IsPartition(nodeId: nat, r: seq<ServerInfo>, servers: seq<ServerInfo>, size: nat, dp: nat) {
    && |r| == |servers|
    && (forall d: nat | d < dp :: GroupSize(r, DpId(nodeId, d), |r|) == size)
    && (forall j | 0 <= j < |r| :: Parts(r[j], DpId(nodeId, 0), DpId(nodeId, dp)) == servers[j].deviceInfos)
    && (forall j, id | 0 <= j < |r| && id in r[j].dpGroupInfos :: DpId(nodeId, 0) <= id < DpId(nodeId, dp))
  }

  // ----- exactly when the groups are a partition -------------------------------------------------------------------

  lemma {:induction false} WholeGroupsCount(servers: seq<ServerInfo>, size: nat, j: nat)
    requires size > 0 && j <= |servers| && forall server | server in servers :: |server.deviceInfos| % size == 0
    ensures GroupsBefore(servers, size, j) * size == TotalDevices(servers[..j])
  {
    if j > 0 {
      var n := |servers[j - 1].deviceInfos|;
      WholeGroupsCount(servers, size, j - 1);
      assert servers[..j][..j - 1] == servers[..j - 1] && servers[j - 1] in servers;
      WholeGroups(n, size);
      Distribute(GroupsBefore(servers, size, j - 1), Runs(n, size), size);
    }
  }

  lemma Distribute(a: nat, b: nat, c: nat)
    ensures (a + b) * c == a * c + b * c
  {
  }

  lemma SinglyIsPartition(nodeId: nat, servers: seq<ServerInfo>, size: nat, dp: nat)
    requires size > 0 && Ungrouped(servers) && TotalDevices(servers) == size * dp
    requires forall server | server in servers :: |server.deviceInfos| % size == 0
    ensures IsPartition(nodeId, GroupedSingly(nodeId, servers, size), servers, size, dp)
  {
    var r := GroupedSingly(nodeId, servers, size);
    WholeGroupsCount(servers, size, |servers|);
    assert servers[..|servers|] == servers;
    Cancel(GroupsBefore(servers, size, |servers|), dp, size);
    forall d: nat | d < dp ensures GroupSize(r, DpId(nodeId, d), |r|) == size {
      SinglyGroupSize(nodeId, servers, size, d);
    }
    forall j | 0 <= j < |r|
      ensures Parts(r[j], DpId(nodeId, 0), DpId(nodeId, dp)) == servers[j].deviceInfos
      ensures forall id | id in r[j].dpGroupInfos :: DpId(nodeId, 0) <= id < DpId(nodeId, dp)
    {
      assert servers[j] in servers;
      SinglyCoversIff(nodeId, servers, size, j);
      SinglyRuns(nodeId, servers, size, j);
      GroupsBeforeGrows(servers, size, j, |servers|);
    }
  }

  /** A server all of whose devices are in the groups below dp has a multiple of the size. */
  lemma CoveredIsWhole(nodeId: nat, servers: seq<ServerInfo>, size: nat, dp: nat, j: nat)
    requires size > 0 && Ungrouped(servers) && j < |servers|
    requires var r := SinglyAt(nodeId, servers, size, j);
             && Parts(r, DpId(nodeId, 0), DpId(nodeId, dp)) == servers[j].deviceInfos
             && forall id | id in r.dpGroupInfos :: DpId(nodeId, 0) <= id < DpId(nodeId, dp)
    ensures |servers[j].deviceInfos| % size == 0
  {
    var r, before := SinglyAt(nodeId, servers, size, j), GroupsBefore(servers, size, j);
    SinglyRuns(nodeId, servers, size, j);
    CoveredByRuns(r, size, DpId(nodeId, 0), DpId(nodeId, before), Runs(|servers[j].deviceInfos|, size), DpId(nodeId, dp));
    WholeGroups(|servers[j].deviceInfos|, size);
  }

  lemma CoveredByRuns(server: ServerInfo, size: nat, lo: nat, first: nat, k: nat, hi: nat)
    requires size > 0 && k == Runs(|server.deviceInfos|, size) && HasRuns(server, size, first, k) && lo <= first && lo <= hi
    requires Parts(server, lo, hi) == server.deviceInfos && forall id | id in server.dpGroupInfos :: lo <= id < hi
    ensures k * size == |server.deviceInfos|
  {
    if k == 0 {
      NoParts(server, lo, hi);
    } else {
      assert first + k - 1 in server.dpGroupInfos;
      RunsCover(server, size, lo, first, k, hi);
    }
  }

  /** Within servers: of servers that pass the count check the groups are a partition if and
      only if every server has a multiple of the group size. */
  lemma SinglyPartitionIff(nodeId: nat, servers: seq<ServerInfo>, size: nat, dp: nat)
    requires size > 0 && Ungrouped(servers) && TotalDevices(servers) == size * dp
    ensures IsPartition(nodeId, GroupedSingly(nodeId, servers, size), servers, size, dp) <==>
            forall server | server in servers :: |server.deviceInfos| % size == 0
  {
    var r := GroupedSingly(nodeId, servers, size);
    if IsPartition(nodeId, r, servers, size, dp) {
      forall server | server in servers ensures |server.deviceInfos| % size == 0 {
        var j :| 0 <= j < |servers| && servers[j] == server;
        assert r[j] == SinglyAt(nodeId, servers, size, j);
        CoveredIsWhole(nodeId, servers, size, dp, j);
      }
    }
    if forall server | server in servers :: |server.deviceInfos| % size == 0 {
      SinglyIsPartition(nodeId, servers, size, dp);
    }
  }

  /** Devices of the servers from lo on, up to n. */
  function DevicesFrom(servers: seq<ServerInfo>, lo: nat, n: nat): nat
    requires n <= |servers|
  {
    if n <= lo then 0 else DevicesFrom(servers, lo, n - 1) + |servers[n - 1].deviceInfos|
  }

  function Least(a: nat, b: nat): nat {
    if a < b then a else b
  }

  lemma AcrossPartSizeOf(nodeId: nat, servers: seq<ServerInfo>, perGroup: nat, d: nat, t: nat)
    requires perGroup > 0 && t < |servers| && Ungrouped(servers)
    ensures |Part(AcrossAt(nodeId, servers, perGroup, t), DpId(nodeId, d))| ==
            if d < |servers| / perGroup && d * perGroup <= t < d * perGroup + perGroup then |servers[t].deviceInfos| else 0
  {
    QuotientIs(t, perGroup, d);
    assert servers[t] in servers;
  }

  /** A group across servers has the devices of its set of servers. */
  lemma {:induction false} AcrossGroupSizeOf(nodeId: nat, servers: seq<ServerInfo>, perGroup: nat, d: nat, lo: nat, n: nat)
    requires perGroup > 0 && n <= |servers| && Ungrouped(servers) && lo == d * perGroup
    ensures GroupSize(GroupedAcross(nodeId, servers, perGroup), DpId(nodeId, d), n) ==
            if d < |servers| / perGroup then DevicesFrom(servers, lo, Least(n, lo + perGroup)) else 0
  {
    if n > 0 {
      AcrossGroupSizeOf(nodeId, servers, perGroup, d, lo, n - 1);
      AcrossPartSizeOf(nodeId, servers, perGroup, d, n - 1);
      assert GroupedAcross(nodeId, servers, perGroup)[n - 1] == AcrossAt(nodeId, servers, perGroup, n - 1);
    }
  }

  /** The set of servers of the d-th group. */
  ghost predicate SetIsFull(servers: seq<ServerInfo>, perGroup: nat, size: nat, d: nat) {
    d * perGroup + perGroup <= |servers| && DevicesFrom(servers, d * perGroup, d * perGroup + perGroup) == size
  }

  /** As many full sets as groups are wanted, each with the devices of a group, and no devices
      on the servers left over. */
  ghost predicate FullSets(servers: seq<ServerInfo>, perGroup: nat, size: nat, dp: nat)
    requires perGroup > 0
  {
    && |servers| / perGroup == dp
    && (forall d: nat | d < dp :: SetIsFull(servers, perGroup, size, d))
    && (forall t: nat | t < |servers| && t / perGroup >= dp :: servers[t].deviceInfos == [])
  }

  lemma AcrossSetSize(nodeId: nat, servers: seq<ServerInfo>, perGroup: nat, d: nat)
    requires perGroup > 0 && Ungrouped(servers) && d < |servers| / perGroup
    ensures d * perGroup + perGroup <= |servers|
    ensures GroupSize(GroupedAcross(nodeId, servers, perGroup), DpId(nodeId, d), |servers|) ==
            DevicesFrom(servers, d * perGroup, d * perGroup + perGroup)
  {
    SliceFits(|servers|, perGroup, d);
    AcrossGroupSizeOf(nodeId, servers, perGroup, d, d * perGroup, |servers|);
  }

  /** The ids of all sets appear, so their number is at most dp. */
  lemma SetsWithin(nodeId: nat, servers: seq<ServerInfo>, perGroup: nat, size: nat, dp: nat)
    requires perGroup > 0 && size > 0 && Ungrouped(servers)
    requires IsPartition(nodeId, GroupedAcross(nodeId, servers, perGroup), servers, size, dp)
    ensures |servers| / perGroup == dp
  {
    var r, all := GroupedAcross(nodeId, servers, perGroup), |servers| / perGroup;
    SetAppears(nodeId, servers, perGroup, dp);
    assert all <= dp;
    AcrossGroupSizeOf(nodeId, servers, perGroup, all, all * perGroup, |servers|);
  }

  lemma SetAppears(nodeId: nat, servers: seq<ServerInfo>, perGroup: nat, d: nat)
    requires perGroup > 0 && Ungrouped(servers)
    ensures d < |servers| / perGroup ==>
              exists t | 0 <= t < |servers| :: DpId(nodeId, d) in GroupedAcross(nodeId, servers, perGroup)[t].dpGroupInfos
  {
    if d < |servers| / perGroup {
      SliceFits(|servers|, perGroup, d);
      QuotientIs(d * perGroup, perGroup, d);
      assert DpId(nodeId, d) in GroupedAcross(nodeId, servers, perGroup)[d * perGroup].dpGroupInfos;
    }
  }

  lemma PartitionHasFullSets(nodeId: nat, servers: seq<ServerInfo>, perGroup: nat, size: nat, dp: nat)
    requires perGroup > 0 && size > 0 && Ungrouped(servers)
    requires IsPartition(nodeId, GroupedAcross(nodeId, servers, perGroup), servers, size, dp)
    ensures FullSets(servers, perGroup, size, dp)
  {
    var r := GroupedAcross(nodeId, servers, perGroup);
    SetsWithin(nodeId, servers, perGroup, size, dp);
    forall d: nat | d < dp ensures SetIsFull(servers, perGroup, size, d) {
      AcrossSetSize(nodeId, servers, perGroup, d);
    }
    forall t: nat | t < |servers| && t / perGroup >= dp ensures servers[t].deviceInfos == [] {
      assert r[t] == AcrossAt(nodeId, servers, perGroup, t);
      AcrossGroups(nodeId, servers, perGroup, t);
    }
  }

  lemma FullSetsArePartition(nodeId: nat, servers: seq<ServerInfo>, perGroup: nat, size: nat, dp: nat)
    requires perGroup > 0 && size > 0 && Ungrouped(servers) && FullSets(servers, perGroup, size, dp)
    ensures IsPartition(nodeId, GroupedAcross(nodeId, servers, perGroup), servers, size, dp)
  {
    var r := GroupedAcross(nodeId, servers, perGroup);
    forall d: nat | d < dp ensures GroupSize(r, DpId(nodeId, d), |r|) == size {
      AcrossSetSize(nodeId, servers, perGroup, d);
      assert SetIsFull(servers, perGroup, size, d);
    }
    forall t | 0 <= t < |r|
      ensures Parts(r[t], DpId(nodeId, 0), DpId(nodeId, dp)) == servers[t].deviceInfos
      ensures forall id | id in r[t].dpGroupInfos :: DpId(nodeId, 0) <= id < DpId(nodeId, dp)
    {
      LeftOverCovered(nodeId, servers, perGroup, dp, t);
    }
  }

  lemma LeftOverCovered(nodeId: nat, servers: seq<ServerInfo>, perGroup: nat, dp: nat, t: nat)
    requires perGroup > 0 && Ungrouped(servers) && |servers| / perGroup == dp && t < |servers|
    requires t / perGroup >= dp ==> servers[t].deviceInfos == []
    ensures var r := AcrossAt(nodeId, servers, perGroup, t);
            && Parts(r, DpId(nodeId, 0), DpId(nodeId, dp)) == servers[t].deviceInfos
            && forall id | id in r.dpGroupInfos :: DpId(nodeId, 0) <= id < DpId(nodeId, dp)
  {
    assert servers[t] in servers;
    AcrossGroups(nodeId, servers, perGroup, t);
  }

  /** Across servers: the groups are a partition if and only if there are exactly dp full sets
      of neighbouring servers, each with the devices of one group, and nothing on the rest. */
  lemma AcrossPartitionIff(nodeId: nat, servers: seq<ServerInfo>, perGroup: nat, size: nat, dp: nat)
    requires perGroup > 0 && size > 0 && Ungrouped(servers)
    ensures IsPartition(nodeId, GroupedAcross(nodeId, servers, perGroup), servers, size, dp) <==>
            FullSets(servers, perGroup, size, dp)
  {
    if IsPartition(nodeId, GroupedAcross(nodeId, servers, perGroup), servers, size, dp) {
      PartitionHasFullSets(nodeId, servers, perGroup, size, dp);
    }
    if FullSets(servers, perGroup, size, dp) { FullSetsArePartition(nodeId, servers, perGroup, size, dp); }
  }

  // ----- servers of one size -----------------------------------------------------------------------------------------

  ghost predicate AllOfSize(servers: seq<ServerInfo>, m: nat) {
    forall server | server in servers :: |server.deviceInfos| == m
  }

  /** Servers of m devices each, m a multiple or a proper divisor of the group size, that
      together have the devices of dp groups. */
  ghost predicate Uniform(servers: seq<ServerInfo>, m: nat, size: nat, dp: nat) {
    && Ungrouped(servers) && servers != [] && AllOfSize(servers, m)
    && 0 < m && 0 < size && |servers| * m == size * dp
    && (m % size == 0 || (m < size && size % m == 0))
  }

  lemma {:induction false} UniformTotal(servers: seq<ServerInfo>, m: nat, j: nat)
    requires j <= |servers| && AllOfSize(servers, m)
    ensures TotalDevices(servers[..j]) == j * m
  {
    if j > 0 {
      UniformTotal(servers, m, j - 1);
      assert servers[..j][..j - 1] == servers[..j - 1] && servers[j - 1] in servers;
      Distribute(j - 1, 1, m);
    }
  }

  lemma {:induction false} UniformDevicesFrom(servers: seq<ServerInfo>, m: nat, lo: nat, n: nat)
    requires lo <= n <= |servers| && AllOfSize(servers, m)
    ensures DevicesFrom(servers, lo, n) == (n - lo) * m
  {
    if lo < n {
      UniformDevicesFrom(servers, m, lo, n - 1);
      assert servers[n - 1] in servers;
      Distribute(n - 1 - lo, 1, m);
    }
  }

  lemma UniformFullSets(servers: seq<ServerInfo>, m: nat, size: nat, dp: nat)
    requires Uniform(servers, m, size, dp) && m < size && size % m == 0
    ensures size / m > 0 && FullSets(servers, size / m, size, dp)
  {
    CrossCounts(|servers|, m, size, dp);
    var p := size / m;
    forall d: nat | d < dp ensures SetIsFull(servers, p, size, d) {
      SliceFits(|servers|, p, d);
      UniformDevicesFrom(servers, m, d * p, d * p + p);
    }
    forall t: nat | t < |servers| ensures t / p < dp { QuotientBelow(t, p, dp); }
  }

  lemma CrossCounts(n: nat, m: nat, size: nat, dp: nat)
    requires 0 < m < size && size % m == 0 && n * m == size * dp
    ensures size / m > 0 && size / m * m == size && n == dp * (size / m) && n / (size / m) == dp
  {
    DivisorFits(size, m);
    var p := size / m;
    assert dp * p * m == dp * (p * m);
    Cancel(n, dp * p, m);
    QuotientIs(n, p, dp);
  }

  lemma QuotientBelow(j: nat, p: nat, n: nat)
    requires p > 0 && j < n * p
    ensures j / p < n
  {
    QuotientIs(j, p, j / p);
    assert j / p * p < n * p;
  }

  lemma UniformSingly(nodeId: nat, servers: seq<ServerInfo>, m: nat, size: nat, dp: nat)
    requires Uniform(servers, m, size, dp) && m % size == 0
    ensures IsPartition(nodeId, GroupedSingly(nodeId, servers, size), servers, size, dp)
  {
    UniformTotal(servers, m, |servers|);
    assert servers[..|servers|] == servers;
    SinglyPartitionIff(nodeId, servers, size, dp);
  }

  lemma SmallRemainder(m: nat, size: nat)
    requires 0 < size
    ensures m < size ==> m % size == m
  {
  }

  /** Exact partition, whichever of the two groupings is used. */
  lemma ExactPartition(nodeId: nat, servers: seq<ServerInfo>, m: nat, size: nat, dp: nat)
    requires Uniform(servers, m, size, dp)
    ensures UsesCrossServer(servers, size) ==> |servers[0].deviceInfos| > 0 && size % |servers[0].deviceInfos| == 0
    ensures IsPartition(nodeId, Grouped(nodeId, servers, size), servers, size, dp)
  {
    assert servers[0] in servers;
    SmallRemainder(m, size);
    if m < size {
      UniformFullSets(servers, m, size, dp);
      AcrossPartitionIff(nodeId, servers, size / m, size, dp);
    } else {
      UniformSingly(nodeId, servers, m, size, dp);
    }
  }

  /** Servers of one size are accepted exactly when, unless the instance is spread over several
      nodes, they hold dp groups together, and one server holds a group or is a whole part of
      one. */
  lemma UniformAcceptedIff(role: Role, isDistribute: bool, servers: seq<ServerInfo>, m: nat, config: Parallelism)
    requires config.Valid() && servers != [] && AllOfSize(servers, m)
    ensures var size := config.tp * config.cp;
            Accepted(role, isDistribute, servers, config) <==>
            && role != UndefInstance
            && (!isDistribute ==> |servers| * m == size * config.dp)
            && (m >= size || (m > 0 && size % m == 0))
  {
    assert servers[..|servers|] == servers && servers[0] in servers;
    UniformTotal(servers, m, |servers|);
  }

  // ----- group ids ---------------------------------------------------------------------------------------------------

  /** With at most 512 groups per node, no two groups share an id, and the ids of nodes that
      are numbered by a 32-bit counter fit the 64-bit id. */
  lemma IdsNeverCollide(a: nat, b: nat, i: nat, j: nat, dp: nat)
    requires dp <= MAX_DP_SIZE && i < dp && j < dp
    ensures DpId(a, i) == DpId(b, j) ==> a == b && i == j
    ensures a < 0x8000_0000 ==> DpId(a, i) < 0x1_0000_0000_0000_0000
  {
  }

  /** A grouping that the count check accepts but that loses devices: sizes 3 and 1, groups
      of 2. */
  lemma UnevenServersLoseDevices(nodeId: nat, a: DeviceInfo, b: DeviceInfo, c: DeviceInfo, d: DeviceInfo)
    ensures var servers := [ServerInfo([a, b, c], map[]), ServerInfo([d], map[])];
            && Accepted(PrefillInstance, false, servers, Parallelism(2, 1, 2))
            && !UsesCrossServer(servers, 2)
            && !IsPartition(nodeId, Grouped(nodeId, servers, 2), servers, 2, 2)
  {
    var x, y := ServerInfo([a, b, c], map[]), ServerInfo([d], map[]);
    var servers := [x, y];
    assert servers[..1] == [x] && [x][..0] == [];
    assert TotalDevices([x]) == 3 && TotalDevices(servers) == 4;
    var r := GroupedSingly(nodeId, servers, 2);
    SinglyRuns(nodeId, servers, 2, 1);
    NoParts(r[1], DpId(nodeId, 0), DpId(nodeId, 2));
  }
}
