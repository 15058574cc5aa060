/** Arbitration between two coordinators that may both claim to be master. */
module Arbitration {
  datatype Coordinator = Coordinator(ip: string, isMaster: bool, recvFlow: int)

  type Status = map<string, bool>

  function Remembered(status: Status, ip: string): bool {
    ip in status && status[ip]
  }

  predicate AnyMaster(status: Status) {
    exists ip | ip in status :: status[ip]
  }

  // ----- one round ---------------------------------------------------------------------------------------------------

  /** Which of two claimants becomes master: the first if none is remembered as one, otherwise
      every one that is not. */
  function Pick(status: Status, nodes: seq<Coordinator>): seq<Coordinator>
    requires |nodes| == 2
  {
    if !AnyMaster(status) then [nodes[0].(isMaster := true), nodes[1].(isMaster := false)]
    else [nodes[0].(isMaster := !Remembered(status, nodes[0].ip)), nodes[1].(isMaster := !Remembered(status, nodes[1].ip))]
  }

  /** Both receive requests or neither does. */
  predicate SameTraffic(nodes: seq<Coordinator>)
    requires |nodes| == 2
  {
    (nodes[0].recvFlow == 0 && nodes[1].recvFlow == 0) || (nodes[0].recvFlow > 0 && nodes[1].recvFlow > 0)
  }

  predicate BothClaim(nodes: seq<Coordinator>)
    requires |nodes| == 2
  {
    nodes[0].isMaster && nodes[1].isMaster
  }

  function Decide(status: Status, nodes: seq<Coordinator>): seq<Coordinator>
    requires |nodes| == 2
  {
    if SameTraffic(nodes) then if BothClaim(nodes) then Pick(status, nodes) else nodes
    else [nodes[0].(isMaster := nodes[0].recvFlow > 0), nodes[1].(isMaster := nodes[1].recvFlow > 0)]
  }

  function Remember(status: Status, nodes: seq<Coordinator>): Status
    requires |nodes| == 2
  {
    status[nodes[0].ip := nodes[0].isMaster][nodes[1].ip := nodes[1].isMaster]
  }

  class CoordinatorBackupHandler {
    var coordinatorBackupStatus: Status
    var isRandomPick: bool

    constructor ()
      ensures coordinatorBackupStatus == map[] && !isRandomPick
    {
      coordinatorBackupStatus, isRandomPick := map[], false;
    }

    method NoMasterRemembered() returns (backupStatus: bool)
      ensures backupStatus == !AnyMaster(coordinatorBackupStatus)
    {
      backupStatus := true;
      var todo := coordinatorBackupStatus.Keys;
      while todo != {} && backupStatus
        invariant todo <= coordinatorBackupStatus.Keys
        invariant backupStatus ==> forall ip | ip in coordinatorBackupStatus && ip !in todo :: !coordinatorBackupStatus[ip]
        invariant !backupStatus ==> AnyMaster(coordinatorBackupStatus)
        decreases |todo|
      {
        var ip :| ip in todo;
        if coordinatorBackupStatus[ip] { backupStatus := false; }
        todo := todo - {ip};
      }
    }

    method SetCoordinatorIsMasterBackup(nodes: array<Coordinator>)
      requires nodes.Length == 2
      modifies this, nodes
      ensures nodes[..] == Pick(old(coordinatorBackupStatus), old(nodes[..]))
      ensures isRandomPick == (old(isRandomPick) || !AnyMaster(old(coordinatorBackupStatus)))
      ensures old(coordinatorBackupStatus).Keys <= coordinatorBackupStatus.Keys
      ensures forall ip | ip in coordinatorBackupStatus ::
                if ip in old(coordinatorBackupStatus) then coordinatorBackupStatus[ip] == old(coordinatorBackupStatus)[ip]
                else ip in {nodes[0].ip, nodes[1].ip} && !coordinatorBackupStatus[ip]
    {
      var backupStatus := NoMasterRemembered();
      if coordinatorBackupStatus == map[] || backupStatus {
        nodes[0] := nodes[0].(isMaster := true);
        nodes[1] := nodes[1].(isMaster := false);
        isRandomPick := true;
        return;
      }
      ghost var was, before := coordinatorBackupStatus, nodes[..];
      for i := 0 to 2
        invariant nodes[..i] == Pick(was, before)[..i] && nodes[i..] == before[i..]
        invariant isRandomPick == old(isRandomPick) && was.Keys <= coordinatorBackupStatus.Keys
        invariant forall ip | ip in coordinatorBackupStatus ::
                    if ip in was then coordinatorBackupStatus[ip] == was[ip]
                    else ip in {before[0].ip, before[1].ip} && !coordinatorBackupStatus[ip]
      {
        var ip := nodes[i].ip;
        assert ip == before[i].ip;
        // Looking an address up adds it as not master when it is new.
        if ip !in coordinatorBackupStatus { coordinatorBackupStatus := coordinatorBackupStatus[ip := false]; }
        nodes[i] := nodes[i].(isMaster := !coordinatorBackupStatus[ip]);
      }
    }

    method UpdateCoordinatorMasterInfo(nodes: array<Coordinator>)
      requires nodes.Length == 2
      modifies this, nodes
      ensures nodes[..] == Decide(old(coordinatorBackupStatus), old(nodes[..]))
      ensures coordinatorBackupStatus == Remember(old(coordinatorBackupStatus), nodes[..])
    {
      ghost var was, before := coordinatorBackupStatus, nodes[..];
      if nodes[0].recvFlow == 0 && nodes[1].recvFlow == 0 {
        if nodes[0].isMaster && nodes[1].isMaster { SetCoordinatorIsMasterBackup(nodes); }
      } else if nodes[0].recvFlow > 0 && nodes[1].recvFlow > 0 {
        if nodes[0].isMaster && nodes[1].isMaster { SetCoordinatorIsMasterBackup(nodes); }
      } else {
        nodes[0] := nodes[0].(isMaster := nodes[0].recvFlow > 0);
        nodes[1] := nodes[1].(isMaster := nodes[1].recvFlow > 0);
      }
      assert nodes[..] == Decide(was, before);
      coordinatorBackupStatus := coordinatorBackupStatus[nodes[0].ip := nodes[0].isMaster];
      coordinatorBackupStatus := coordinatorBackupStatus[nodes[1].ip := nodes[1].isMaster];
      assert coordinatorBackupStatus == Remember(was, nodes[..]);
    }
  }

  // ----- every run ---------------------------------------------------------------------------------------------------

  /** What the two coordinators report in one round. */
  datatype Report = Report(claimA: bool, claimB: bool, flowA: int, flowB: int)

  function Nodes(a: string, b: string, r: Report): seq<Coordinator> {
    [Coordinator(a, r.claimA, r.flowA), Coordinator(b, r.claimB, r.flowB)]
  }

  function After(status: Status, a: string, b: string, r: Report): seq<Coordinator> {
    Decide(status, Nodes(a, b, r))
  }

  function Run(a: string, b: string, rounds: seq<Report>): Status {
    if rounds == [] then map[]
    else
      var before := Run(a, b, rounds[..|rounds| - 1]);
      Remember(before, After(before, a, b, rounds[|rounds| - 1]))
  }

  /** Nothing remembered yet, or both addresses and at most one of them as master. */
  predicate Sound(status: Status, a: string, b: string) {
    status == map[] || (status.Keys == {a, b} && !(status[a] && status[b]))
  }

  lemma RoundIsSound(status: Status, a: string, b: string, r: Report)
    requires a != b && Sound(status, a, b)
    ensures var nodes := After(status, a, b, r);
            && !BothClaim(nodes)
            && Sound(Remember(status, nodes), a, b)
            && Remember(status, nodes) == map[a := nodes[0].isMaster, b := nodes[1].isMaster]
  {
    var nodes := After(status, a, b, r);
    assert status != map[] ==> (AnyMaster(status) <==> status[a] || status[b]);
    assert Remember(status, nodes).Keys == {a, b};
  }

  /** After every round of every run with two fixed addresses: at most one coordinator is
      master and the memory mirrors the flags. */
  lemma {:induction false} AtMostOneMaster(a: string, b: string, rounds: seq<Report>)
    requires a != b
    ensures Sound(Run(a, b, rounds), a, b)
    ensures rounds != [] ==>
              var nodes := After(Run(a, b, rounds[..|rounds| - 1]), a, b, rounds[|rounds| - 1]);
              && !BothClaim(nodes)
              && Run(a, b, rounds) == map[a := nodes[0].isMaster, b := nodes[1].isMaster]
  {
    if rounds != [] {
      var n := |rounds| - 1;
      AtMostOneMaster(a, b, rounds[..n]);
      RoundIsSound(Run(a, b, rounds[..n]), a, b, rounds[n]);
    }
  }

  /** A double claim with the same traffic on both sides is settled for exactly one of them:
      the one that the round before did not leave as master, or the first. */
  lemma DoubleClaimIsSettled(a: string, b: string, rounds: seq<Report>, r: Report)
    requires a != b && r.claimA && r.claimB
    requires (r.flowA == 0 && r.flowB == 0) || (r.flowA > 0 && r.flowB > 0)
    ensures var status := Run(a, b, rounds); var nodes := After(status, a, b, r);
            && nodes[0].isMaster != nodes[1].isMaster
            && (nodes[0].isMaster <==> !(a in status && status[a]))
  {
    AtMostOneMaster(a, b, rounds);
    var status := Run(a, b, rounds);
    assert status != map[] ==> (AnyMaster(status) <==> status[a] || status[b]);
  }

  /** With the same traffic and at most one claim both flags stand as reported: a sole master
      stays master, and is remembered as such. */
  lemma ReportedFlagsStand(a: string, b: string, rounds: seq<Report>, r: Report)
    requires a != b && !(r.claimA && r.claimB)
    requires (r.flowA == 0 && r.flowB == 0) || (r.flowA > 0 && r.flowB > 0)
    ensures After(Run(a, b, rounds), a, b, r) == [Coordinator(a, r.claimA, r.flowA), Coordinator(b, r.claimB, r.flowB)]
    ensures Run(a, b, rounds + [r]) == map[a := r.claimA, b := r.claimB]
  {
    assert (rounds + [r])[..|rounds|] == rounds;
    AtMostOneMaster(a, b, rounds + [r]);
  }

  /** Any other traffic makes exactly those that receive requests master, whatever was
      remembered. */
  lemma ReceiverIsMaster(a: string, b: string, rounds: seq<Report>, r: Report)
    requires !(r.flowA == 0 && r.flowB == 0) && !(r.flowA > 0 && r.flowB > 0)
    ensures var nodes := After(Run(a, b, rounds), a, b, r);
            (nodes[0].isMaster <==> r.flowA > 0) && (nodes[1].isMaster <==> r.flowB > 0)
  {
  }

  /** For an arbitrary memory, as after an address change, a settled double claim has exactly
      one master if and only if no master or exactly one of the two is remembered. */
  lemma OneMasterIff(status: Status, nodes: seq<Coordinator>)
    requires |nodes| == 2
    ensures (Pick(status, nodes)[0].isMaster != Pick(status, nodes)[1].isMaster) <==>
            !AnyMaster(status) || Remembered(status, nodes[0].ip) != Remembered(status, nodes[1].ip)
  {
  }

  /** A remembered third address makes both claimants master. */
  lemma StaleMemoryMakesTwo(a: string, b: string, c: string)
    requires a != c && b != c
    ensures var nodes := After(map[c := true], a, b, Report(true, true, 0, 0)); BothClaim(nodes)
  {
    assert map[c := true][c];
  }
}
