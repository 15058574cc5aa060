# Verified model of the MindIE Motor controller

This project models the parts of the controller that decide who leads, who serves and what
survives a crash, and proves what they keep over every run:

- **Leadership** (`Basics`, `Etcd`, `LeaseLock`, `LeaseLockSafety`, `KeepAliveWorker`, `LeaderRole`,
  `SingleLeader`, `CasWrites`): the etcd lease lock with real time, delayed and lost replies and
  lease expiry; the keep-alive worker; the role callbacks; compare-and-swap writes.
- **The peer graph** (`Sequences`, `Cluster`, `Scaling`, `PeerGraph`, `FaultManagement`,
  `Release`, `Links`, `LinkDamage`, `Rounds`, `PreAddition`): groups of prefill and decode nodes under
  scaling rounds, prefill release, termination and RoCE link recovery.
- **NPU recovery** (`FaultClassify`, `FaultCriteria`, `FaultOrder`, `SwitchFaults`, `NpuRecovery`,
  `NpuRecoverySafety`, `NpuRecoveryOutcomes`): fault classification, the memory of handled faults, the
  PAUSE / REINIT / poll / START protocol.
- **The state file** (`StateFile`): concurrent savers with lock, temporary file and rename.
- **Computations** (`DpGrouping`, `DpPartition`, `Base64`, `JsonEscape`, `Arbitration`).

Code that updates objects is modelled by classes whose methods loop and assign as the code does;
each method is proved equal to a function on values (`View()`), and the theorems are about runs of
those functions. `dafny verify dfyconfig.toml` checks everything.

Conventions. A handler (callback, poll tick, reconcile round, fault message) is one step, except in
the lock, compare-and-swap and state-file models, where the steps inside a call interleave. The
outcomes of HTTP, gRPC and file operations are parameters, and so are the clock readings. Names of
members follow the code's; fields drop the `m` prefix.

Where the code differs from what its comments or a first reading suggest, the model follows the code:

- Mutual exclusion of the lock depends on a bound on call delays that the code does not enforce.
  The keep-alive deadline is the whole lease TTL and the transaction timeout is 5 s, while 20 s
  leases need six delays and oversleeps to stay below 5 s (`ExclusionIffSafeTiming`,
  `ShippedConstants`).
- A watch tick that finds the key gone demotes a client that still counts as locked, so
  "locked implies leader" can fail (`LockedFollower`). It holds along a run exactly when no such
  tick occurs (`LockedImpliesLeaderIff`), and under safe timing none does (`AtMostOneLeader`).
- A link recovery that fails after it has unlinked a listed node leaves the node's group damaged,
  and trying it again does nothing. `FailedRecovery` says exactly which groups are damaged;
  linking the group, or a scaling round that changes both of its roles, repairs it.
- A server refused at scale-out is banished for good, since only ids that are stored are ever
  taken off the expired set (`BanishedOverEveryRun`).
- A server that is accepted can still be dropped before its group is published, when all nodes of
  the other role are being deleted (`DeletedCounterpart`); `PublishedServesIff` says exactly when
  a group is published with both roles.
- `SelectBestGroup` keeps the other role's count as its running minimum (`NextGroupWinsIff`); where
  every group has as many P as D nodes it selects a smallest one (`BalancedSelectsLeast`).
- A device that disappears from a server does not make the server count as changed
  (`UnchangedIff`).
- An instance that leaves the recovery queue other than by a tick is sent STOP, except when its
  recovery is aborted after its nodes or pods are gone (`LeavesByStopIff`).
- A save to the etcd key, unlike one to the file, loses ids that were not read back before
  (`KeyForgetsIff`, `FileNeverForgets`).
- A fault save appends the whole processed set each time, so the stored array repeats ids; only
  the set of ids is claimed.
- Which fault ids are remembered can depend on the order of the message, which instances are
  recovered cannot (`OrderDoesNotMatter`, `RememberedDependsOnOrder`); `OrderIrrelevantIff` says
  for exactly which messages it does not. A message no instance qualifies in is not remembered at
  all.
- A separator inside a field makes different faults share an id, and hides the second one
  (`SeparatorHidesFault`, `IdIsUniqueIff`, `RecordedIdIsUniqueIff`).
- The count check accepts servers whose grouping is no partition (`UnevenServersLoseDevices`);
  `SinglyPartitionIff` and `AcrossPartitionIff` give the exact conditions.
- A save that cannot read the existing file erases the other writer's section
  (`LoadedIsSavedIff`, `UnreadableFileLosesIds`).
- A double claim is settled against the coordinator remembered as master (`DoubleClaimIsSettled`).

## Model

| member | source | states |
|---|---|---|
| LeaseLockSafety.RunKeepsInv | mindie_motor/src/common/leader_judge/DistributedPolicy.cpp:85-146 | every timed run of any number of clients, with lost and late replies and lease expiry, keeps the invariant that each locked client's lease is live and outlasts the time by which it must step down |
| LeaseLockSafety.MutualExclusion | mindie_motor/src/common/leader_judge/DistributedPolicy.cpp:463-534 | under safe timing at most one client is locked in any reachable state; it owns the server's key and steps down on its own strictly before its lease deadline |
| LeaseLockSafety.TwoLeaders | mindie_motor/src/common/leader_judge/DistributedPolicy.cpp:513-534 | whenever timing is not safe there is a reachable state with two locked clients |
| LeaseLockSafety.ExclusionIffSafeTiming | mindie_motor/src/common/leader_judge/DistributedPolicy.cpp:454-534 | mutual exclusion over all runs holds if and only if half the TTL, five pauses and six worst delays fit into the TTL |
| LeaseLockSafety.ShippedConstants | mindie_motor/src/common/leader_judge/DistributedPolicy.h:33-37 | for the shipped constants the condition is six delays and oversleeps below 5 s, and the code's own timeouts do not imply it |
| LeaseLock.SleepIsHalf | mindie_motor/src/common/leader_judge/DistributedPolicy.cpp:454-461 | for every reply the sleep lies between one second and half the static TTL and is half the reply in between |
| KeepAliveWorker.TryRenewLease | mindie_motor/src/common/leader_judge/DistributedPolicy.cpp:463-490 | one keep-alive exchange: what counts as renewed and the TTL taken over |
| LeaderRole.EtcdDistributedLock.HandleLeaseLost | mindie_motor/src/common/leader_judge/DistributedPolicy.cpp:608-613 | a lost lease clears the lock and, only if it was held, runs the callback, which demotes |
| KeepAliveWorker.LeaseKeepAliveWorker | mindie_motor/src/common/leader_judge/DistributedPolicy.cpp:513-534 | the worker's loop with its retry counter refines the phase steps of the timed lock model for every script of replies, and ends in the role step of a lost lease |
| KeepAliveWorker.SilentServerMeansStepDown | mindie_motor/src/common/leader_judge/DistributedPolicy.cpp:513-534 | without usable replies the worker gives the lock up, no later than the bound of the exclusion proof |
| LeaderRole.LeaderAgent.PromoteToLeader | mindie_motor/src/common/leader_judge/LeaderAgent.cpp:122-132 | promotion acts only on a follower and announces itself, except as the very first role setting |
| LeaderRole.LeaderAgent.DemoteToFollower | mindie_motor/src/common/leader_judge/LeaderAgent.cpp:134-140 | demotion acts only on a leader |
| LeaderRole.EtcdDistributedLock.TryLock | mindie_motor/src/common/leader_judge/DistributedPolicy.cpp:208-228 | a failed attempt leaves lock and role alone, a successful one promotes through the callback at most once |
| LeaderRole.EtcdDistributedLock.WatchOnce | mindie_motor/src/common/leader_judge/DistributedPolicy.cpp:547-603 | one watch tick has exactly the effect of the role step it stands for |
| LeaderRole.EtcdDistributedLock.RunCampaign | mindie_motor/src/common/leader_judge/LeaderAgent.cpp:108-120 | a campaign has exactly the effect of the role step it stands for |
| LeaderRole.LeadershipOverEveryRun | mindie_motor/src/common/leader_judge/LeaderAgent.cpp:34-41 | over every run: leader implies locked, the controller flag mirrors leadership, promotions and demotions alternate, every promotion but a first-role one is followed by exactly one failover event |
| LeaderRole.LeadsNextIff | mindie_motor/src/common/leader_judge/DistributedPolicy.cpp:547-613 | after every run, exactly when the client is locked and when it leads after one more campaign, watch tick or lost lease |
| LeaderRole.LockedFollower | mindie_motor/src/common/leader_judge/DistributedPolicy.cpp:576-595 | locked does not imply leader: a client demoted by a watch tick stays a locked follower over any further ticks |
| LeaderRole.LockedImpliesLeaderIff | mindie_motor/src/common/leader_judge/DistributedPolicy.cpp:576-595 | locked implies leader in every state of a run if and only if no watch tick of the run finds the key gone while the client is locked |
| SingleLeader.AtMostOneLeader | mindie_motor/src/controller/leader_judge/ControllerLeaderAgent.cpp:22-38 | in every joint run of lock calls, callbacks, watch ticks and campaigns of any number of clients, under safe timing: the leader flag is up exactly while the client is locked, for at most one client, and that one owns the key on the server |
| CasWrites.SuccessLosesNoUpdate | mindie_motor/src/common/leader_judge/DistributedPolicy.cpp:257-306 | in every interleaving a SafePut that reports success took effect with no other write to the key between its read and its transaction |
| CasWrites.OneWinnerPerRevision | mindie_motor/src/common/leader_judge/DistributedPolicy.cpp:238-306 | of calls that read the same revision of a key at most one takes effect, whatever they report |
| CasWrites.ServedAndAnsweredIff | mindie_motor/src/common/leader_judge/DistributedPolicy.cpp:257-306 | in every reachable state a transaction stores its value if and only if the key was left alone since the read, and the call answers true if and only if it did and the reply arrives |
| CasWrites.EtcdServer.GetCurrentModVer | mindie_motor/src/common/leader_judge/DistributedPolicy.cpp:238-252 | answers the revision, or 0 when the key is absent or the read fails |
| CasWrites.EtcdServer.SafePut | mindie_motor/src/common/leader_judge/DistributedPolicy.cpp:257-306 | with arbitrary writes between a delivered read and the transaction, it reports success exactly when the reply arrives and none of them hit the key; the value is stored on every success and on no reported failure; server and answer are those of the steps of the interleaved system |
| Cluster.NodeStatus.AddNode | mindie_motor/src/controller/cluster_status/NodeStatus.cpp:101-114 | stores exactly the node and takes its id off the faulty ones |
| Cluster.NodeStatus.RemoveNode | mindie_motor/src/controller/cluster_status/NodeStatus.cpp:744-755 | removes exactly the node |
| Cluster.NodeStatus.AddExpiredNode | mindie_motor/src/controller/cluster_status/NodeStatus.cpp:145-150 | banishes exactly the id |
| Cluster.NodeStatus.RemoveExpiredNode | mindie_motor/src/controller/cluster_status/NodeStatus.cpp:757-766 | lifts exactly that banishment |
| Cluster.NodeStatus.UpdateNodeDeleteTime | mindie_motor/src/controller/cluster_status/NodeStatus.cpp:725-742 | only the first deletion time sticks, nothing else changes |
| Cluster.NodeStatus.UpdateGroup | mindie_motor/src/controller/cluster_status/NodeStatus.cpp:438-450 | replaces the lists of a known group only |
| Cluster.NodeStatus.UpdateRoleStateAndPeers | mindie_motor/src/controller/cluster_status/NodeStatus.cpp:289-315 | sets peers and active peers of one stored node and no other |
| Cluster.NodeStatus.LinkNodes | mindie_motor/src/controller/fault_manager/FaultManager.cpp:429-468 | the loop gives every stored id of a list the same peers and leaves all others alone |
| Cluster.NodeStatus.DetectNodeChanges | mindie_motor/src/controller/cluster_status/NodeStatus.cpp:643-692 | the two loops compute the declarative diff of record and rank table: removed, new and reappeared ids, both directions |
| Cluster.IsDeviceInfoChanged | mindie_motor/src/controller/cluster_status/NodeStatus.cpp:588-608 | true exactly when server counts differ or a table device is unknown to the stored server |
| Cluster.UnchangedIff | mindie_motor/src/controller/cluster_status/NodeStatus.cpp:588-608 | a row counts as unchanged if and only if it has as many servers and each lists no device that is not stored, so lost devices go unnoticed |
| Cluster.DiffIff | mindie_motor/src/controller/cluster_status/NodeStatus.cpp:643-692 | for each row, on the stored fields, exactly when its id is reported new, removed or reappeared |
| FaultManagement.FaultManager.BuildGroupUpdateMsg | mindie_motor/src/controller/fault_manager/FaultManager.cpp:357-384 | the message holds the edited lists and which roles changed |
| FaultManagement.FaultManager.IsAllPeersUnAvailable | mindie_motor/src/controller/fault_manager/FaultManager.cpp:386-427 | a node is unscalable exactly when its group is not empty, all its peers are gone and the update brings none of the other role; it is then dropped from its list |
| FaultManagement.FaultManager.FilterUnscalableInstances | mindie_motor/src/controller/fault_manager/FaultManager.cpp:284-306 | prunes exactly the unscalable ones, one after the other |
| FaultManagement.FaultManager.UpdateGroupRoleStateAndPeers | mindie_motor/src/controller/fault_manager/FaultManager.cpp:429-468 | publishes lists first, then the peers of the roles whose opposite changed |
| FaultManagement.FaultManager.ScalingUpdateAllGroups | mindie_motor/src/controller/fault_manager/FaultManager.cpp:308-355 | updates each changed group once in some order; only an interrupted scale-out stops early |
| FaultManagement.FaultManager.ProcessScaleIn | mindie_motor/src/controller/fault_manager/FaultManager.cpp:473-496 | the loops have the effect of the scale-in function for every removed-id list |
| FaultManagement.FaultManager.SelectBestGroup | mindie_motor/src/controller/fault_manager/FaultManager.cpp:798-819 | the loop answers the deterministic target group of the role |
| FaultManagement.FaultManager.PreAddAvailableServers2Group | mindie_motor/src/controller/fault_manager/FaultManager.cpp:666-695 | the predicted counts per group |
| FaultManagement.FaultManager.AddInstance2Group | mindie_motor/src/controller/fault_manager/FaultManager.cpp:829-871 | the verdict of the target group and the node as it joins |
| FaultManagement.FaultManager.ProcessScaleOut | mindie_motor/src/controller/fault_manager/FaultManager.cpp:697-762 | the loops have the effect of the scale-out function, refused servers banished |
| FaultManagement.FaultManager.ScalingInstance | mindie_motor/src/controller/fault_manager/FaultManager.cpp:159-167 | every call is a valid reconcile round with the round's result |
| PeerGraph.BuildMsgMembers | mindie_motor/src/controller/fault_manager/FaultManager.cpp:29-49 | which ids a message lists after removals or additions, without duplicates |
| PeerGraph.ScaleInKeepsBut | mindie_motor/src/controller/fault_manager/FaultManager.cpp:473-496 | scale-in keeps every consistent group consistent and every damaged one listed properly, and repairs the damaged groups it takes both roles from |
| PeerGraph.ScaleInKeepsInv | mindie_motor/src/controller/fault_manager/FaultManager.cpp:473-496 | scale-in keeps the peer graph consistent |
| PeerGraph.ScaleOutKeepsBut | mindie_motor/src/controller/fault_manager/FaultManager.cpp:697-762 | scale-out, interrupted or not, keeps every consistent group consistent and every damaged one listed properly, and repairs the damaged groups it brings both roles to |
| PeerGraph.ScaleOutKeepsInv | mindie_motor/src/controller/fault_manager/FaultManager.cpp:697-762 | scale-out, interrupted or not, keeps the peer graph consistent |
| Release.Releaser.GetGroupActivePrefillInstanceCnt | mindie_motor/src/controller/fault_manager/FaultManager.cpp:601-637 | counts the prefill nodes with active peers or without peers, divided by the nodes per instance |
| Release.ActiveInstancesExact | mindie_motor/src/controller/fault_manager/FaultManager.cpp:610-636 | for any list without repetitions the count is the number of stored listed nodes with active peers or no peers, divided by the instance size of the last stored one |
| Release.ActiveInstancesIff | mindie_motor/src/controller/fault_manager/FaultManager.cpp:572-637 | with instances of k nodes a release goes ahead if and only if at least 2k listed nodes have active peers or no peers |
| Release.Releaser.ReleaseDpGroupPeersForNode | mindie_motor/src/controller/fault_manager/FaultManager.cpp:531-569 | succeeds exactly when the node and some member of its instance exist and that member stops; success releases the whole instance, failure changes nothing |
| Release.Releaser.ReleasePrefillInstances | mindie_motor/src/controller/fault_manager/FaultManager.cpp:572-599 | succeeds exactly when more than one instance is active and some listed node can be released, and then releases the instance of one such node |
| Release.Releaser.TerminateInstance | mindie_motor/src/controller/alarm_manager/alarm_listener/AlarmListener.cpp:277-310 | on success banishes exactly the members of the instance and leaves lists and peers alone; an unknown node or a refused termination changes nothing |
| Release.BanishKeepsBut | mindie_motor/src/controller/alarm_manager/alarm_listener/AlarmListener.cpp:303-307 | termination neither damages a group nor repairs one |
| Release.ReleaseKeepsBut | mindie_motor/src/controller/fault_manager/FaultManager.cpp:531-569 | release keeps every consistent group consistent: decode nodes keep only listed or released prefill peers |
| Release.ReleaseLeavesAnInstance | mindie_motor/src/controller/fault_manager/FaultManager.cpp:572-637 | with instances of k nodes a release takes exactly k ids off and leaves at least k listed nodes that have active peers or no peers; the released ones stay stored and are banished |
| Links.NodeScheduler.BatchUnlinkNodes | mindie_motor/src/controller/node_scheduler/NodeScheduler.cpp:1304-1350 | succeeds exactly when every node in turn has peers that all exist and the posts are accepted; the stored links afterwards, also when it fails half-way at a node or a missing peer |
| Links.NodeScheduler.BatchLinkNodes | mindie_motor/src/controller/node_scheduler/NodeScheduler.cpp:1352-1403 | rebuilds the links of every group concerned once, or nothing when a node is missing; succeeds exactly when all nodes exist, accept and report ready |
| Links.NodeScheduler.ProcessBatchUnlinkAndLink | mindie_motor/src/controller/node_scheduler/NodeScheduler.cpp:1405-1427 | when a recovery succeeds, and the record it leaves in each of its outcomes |
| Links.LinkRepairs | mindie_motor/src/controller/node_scheduler/NodeScheduler.cpp:1352-1403 | linking makes a group consistent whatever its peers were before, and touches no other group |
| Links.LinkKeepsBut | mindie_motor/src/controller/node_scheduler/NodeScheduler.cpp:1352-1403 | linking repairs all groups it is called for, damaged or not, and leaves the others as they were |
| Links.UnlinkSucceedsIff | mindie_motor/src/controller/node_scheduler/NodeScheduler.cpp:1304-1350 | in a consistent group unlinking gets through exactly when no node to unlink is without peers |
| Links.UnlinkRemovesExactly | mindie_motor/src/controller/node_scheduler/NodeScheduler.cpp:1304-1350 | unlinking removes every edge between listed nodes that touches the unlinked ones, in both directions, and no other; nodes on no list keep all their edges |
| Links.UnlinkLinkRoundTrip | mindie_motor/src/controller/node_scheduler/NodeScheduler.cpp:1405-1427 | unlink then link gives every node its original peers back |
| Links.RelinkKeepsBut | mindie_motor/src/controller/node_scheduler/NodeScheduler.cpp:1405-1427 | a recovery that gets as far as linking damages no group and repairs those of its nodes, whatever nodes it is called for |
| LinkDamage.UnlinkDamagesIff | mindie_motor/src/controller/node_scheduler/NodeScheduler.cpp:1314-1347 | a consistent group survives an unlink without a following link if and only if none of the nodes unlinked is a prefill node it lists, or a decode node it lists next to prefill nodes |
| LinkDamage.FailedRecovery | mindie_motor/src/controller/node_scheduler/NodeScheduler.cpp:1405-1413 | a failed recovery, wherever it stops, damages exactly those groups of the whole graph |
| LinkDamage.RetryDoesNothing | mindie_motor/src/controller/node_scheduler/NodeScheduler.cpp:1320-1323 | repeating a recovery that unlinked a node before it failed fails at once and changes nothing |
| LinkDamage.RefusedPostDamages | mindie_motor/src/controller/node_scheduler/NodeScheduler.cpp:1337-1347 | at an input: one prefill and one decode node, and a refused role message |
| Rounds.RoundKeepsBut | mindie_motor/src/controller/fault_manager/FaultManager.cpp:159-167 | a reconcile round damages no group and repairs those it scales in both roles |
| Rounds.RoundKeepsInv | mindie_motor/src/controller/fault_manager/FaultManager.cpp:159-167 | a reconcile round keeps the peer graph consistent |
| Rounds.AdmitAllExact | mindie_motor/src/controller/fault_manager/FaultManager.cpp:697-762 | exactly the joining servers are stored and exactly the refused ones are banished |
| Rounds.ScaleInListsIff | mindie_motor/src/controller/fault_manager/FaultManager.cpp:309-325 | a scale-in takes exactly the removed ids off the lists |
| Rounds.DeletionTimeStep | mindie_motor/src/controller/cluster_status/NodeStatus.cpp:725-742 | after any event a node that stays stored has the time of the event as deletion time if and only if it is released or terminated and had none |
| Rounds.FirstDeletionTimeStays | mindie_motor/src/controller/cluster_status/NodeStatus.cpp:725-742 | over every run the first deletion time of a node stays as long as the rank table lists it |
| Rounds.OneRoundConverges | mindie_motor/src/controller/cluster_status/NodeStatus.cpp:643-692 | for any record with proper lists, damaged peers or not, diffing the same table after any round: nothing removed, the same reappeared, new exactly those that did not answer or could not be grouped, or all of them if no scale-out took place |
| Rounds.RoundKeepsBanished | mindie_motor/src/controller/cluster_status/NodeStatus.cpp:651-687 | a banished id stays banished and unreported through a round while the table lists it |
| Rounds.GraphOverEveryRun | mindie_motor/src/controller/node_scheduler/NodeScheduler.cpp:687-697 | after every run of rounds, releases, terminations, status reports and link recoveries, succeeding or failing anywhere: every group is consistent that no failed recovery damaged, or that was repaired since, and all lists are proper |
| Rounds.ConsistentWithoutDamage | mindie_motor/src/controller/node_scheduler/NodeScheduler.cpp:1405-1427 | over a run whose failed recoveries damage nothing the whole peer graph is consistent |
| Rounds.ConsistentNextIff | mindie_motor/src/controller/node_scheduler/NodeScheduler.cpp:1405-1427 | from a consistent graph an event leads to an inconsistent one if and only if it is a failed recovery that damages a group |
| Rounds.BanishedOverEveryRun | mindie_motor/src/controller/cluster_status/NodeStatus.cpp:651-687 | released ids are never reported new or reappeared until they leave the table; refused ids never again |
| PreAddition.TargetIsListed | mindie_motor/src/controller/fault_manager/FaultManager.cpp:798-819 | for a P or D server the selected group is one of the listed ones |
| PreAddition.NextGroupWinsIff | mindie_motor/src/controller/fault_manager/FaultManager.cpp:798-819 | a further group takes over if and only if it has fewer nodes of the role than the selected one has of the other role |
| PreAddition.BalancedSelectsLeast | mindie_motor/src/controller/fault_manager/FaultManager.cpp:798-819 | where all groups have as many P as D nodes, the first of the smallest is selected |
| PreAddition.PredictionExactIff | mindie_motor/src/controller/fault_manager/FaultManager.cpp:666-762 | predicted counts of an accepted group equal the lists then built if and only if no server headed there fails DP grouping; they are never too low |
| PreAddition.PublishedServesIff | mindie_motor/src/controller/fault_manager/FaultManager.cpp:284-320 | a group updated by a scale-out is published with both roles if and only if it had both, gets both, or gets the one it lacks while a listed node of the other is live |
| PreAddition.AcceptedGroupServesIff | mindie_motor/src/controller/fault_manager/FaultManager.cpp:829-871 | for an accepted group that was not empty and loses no server to DP grouping the condition, on the state before, is: it had both roles, both head for it, or it lists a live node |
| PreAddition.DeletedCounterpart | mindie_motor/src/controller/fault_manager/FaultManager.cpp:284-306 | at an input: the only D node is terminated but still listed, and the accepted P server is not published |
| PreAddition.PublishedMembersIff | mindie_motor/src/controller/fault_manager/FaultManager.cpp:284-320 | the lists of a group updated by a scale-out are the old ones and exactly those joining servers that find an empty group, a joining server of the other role, or a live listed one |
| PreAddition.ServerIsCounted | mindie_motor/src/controller/fault_manager/FaultManager.cpp:666-695 | every available server counts towards its target group in its role |
| PreAddition.RefusedIff | mindie_motor/src/controller/fault_manager/FaultManager.cpp:829-871 | a server is refused if and only if its target group has nodes and lacks a role that no available server headed there brings, or has the id 999999; an empty group refuses nobody |
| PreAddition.ScaleOutOutcome | mindie_motor/src/controller/fault_manager/FaultManager.cpp:697-762 | every available server is banished exactly when refused, and otherwise stored, live and in its target group, exactly when its DP grouping succeeds |
| PreAddition.MixedShareIsAccepted | mindie_motor/src/controller/fault_manager/FaultManager.cpp:829-871 | a share with a P and a D server is not refused |
| PreAddition.MixedShareIsNotPruned | mindie_motor/src/controller/fault_manager/FaultManager.cpp:284-306 | an update that brings both roles is not pruned |
| PreAddition.ShareFaresAlike | mindie_motor/src/controller/fault_manager/FaultManager.cpp:829-871 | two servers headed for one group get the same verdict although each is judged at its own turn of the admission loop |
| FaultClassify.HasCriticalFaultLevel | mindie_motor/src/controller/fault_manager/NPURecoveryManager.cpp:64-97 | for an unhealthy node: critical unless a recovery is running and every unhealthy device lists only lowest-level or whitelisted codes |
| FaultClassify.ExtractValidSwitchFaults | mindie_motor/src/controller/fault_manager/NPURecoveryManager.cpp:541-579 | the loops answer the whitelisted faults whose id is in neither memory, in order |
| FaultClassify.FindFaultyInstances | mindie_motor/src/controller/fault_manager/NPURecoveryManager.cpp:476-538 | one pass equals the two-pass specification: an instance qualifies exactly when no node of it is critical anywhere and some node has a valid fault; restart exactly when some instance is critical |
| FaultCriteria.BlacklistedIff | mindie_motor/src/controller/fault_manager/NPURecoveryManager.cpp:64-97 | on the message fields: an instance is ruled out if and only if a node of it is unhealthy and no running recovery explains all of it |
| FaultCriteria.RestartWithoutRecoveryIff | mindie_motor/src/controller/fault_manager/NPURecoveryManager.cpp:66-68 | without a running recovery a restart is asked for if and only if a node of a known instance is unhealthy, and no instance with one qualifies |
| FaultCriteria.OtherLevelsAreHarmless | mindie_motor/src/controller/fault_manager/NPURecoveryManager.cpp:492-500 | a node of another level never rules its instance out |
| FaultCriteria.SparedDuringRecoveryIff | mindie_motor/src/controller/fault_manager/NPURecoveryManager.cpp:69-94 | during a recovery an instance is spared if and only if all unhealthy devices list as many codes as levels, at least one, and only lowest-level or the five expected codes |
| FaultCriteria.QualifiesIff | mindie_motor/src/controller/fault_manager/NPURecoveryManager.cpp:476-579 | an instance qualifies if and only if no node rules it out and some device of it has a switch fault that contains the one whitelisted code and is in neither memory |
| FaultClassify.OrderDoesNotMatter | mindie_motor/src/controller/fault_manager/NPURecoveryManager.cpp:476-538 | permuting the message changes neither the qualifying instances, nor their nodes as multisets, nor the need to restart |
| FaultClassify.RememberedIff | mindie_motor/src/controller/fault_manager/NPURecoveryManager.cpp:510-528 | a fault is remembered exactly when some instance qualifies and the fault is valid on a node up to which its instance has no critical node |
| FaultClassify.QualifyingFaultsAreRemembered | mindie_motor/src/controller/fault_manager/NPURecoveryManager.cpp:510-528 | every fault behind a qualification is remembered |
| FaultClassify.RememberedDependsOnOrder | mindie_motor/src/controller/fault_manager/NPURecoveryManager.cpp:492-528 | if another instance qualifies, swapping a faulty and a critical node of one instance changes what is remembered |
| FaultOrder.RememberedInEveryOrderIff | mindie_motor/src/controller/fault_manager/NPURecoveryManager.cpp:492-528 | a fault is remembered whatever the order of the message if and only if a node has it whose instance has no critical node |
| FaultOrder.RememberedInSomeOrderIff | mindie_motor/src/controller/fault_manager/NPURecoveryManager.cpp:492-528 | it is remembered in some order if and only if some instance qualifies and a node of a known instance has it that is not critical itself |
| FaultOrder.OrderIrrelevantIff | mindie_motor/src/controller/fault_manager/NPURecoveryManager.cpp:492-528 | the order of a message is irrelevant to what is remembered if and only if no instance qualifies, or every fault on a node of a known instance that is not critical is also on a node whose instance has no critical node |
| FaultClassify.IdIsUniqueIff | mindie_motor/src/controller/fault_manager/NPURecoveryManager.h:52-55 | a fault shares its id with no other if and only if none of its four fields holds the separator |
| FaultClassify.RecordedIdIsUniqueIff | mindie_motor/src/controller/fault_manager/NPURecoveryManager.cpp:1486-1494 | among whitelisted faults, for a code that merely contains a whitelisted one: if and only if no field behind the code holds the separator and no part of the code up to a separator is whitelisted itself |
| FaultClassify.SeparatorHidesFault | mindie_motor/src/controller/fault_manager/NPURecoveryManager.cpp:541-579 | at an input: two whitelisted faults with one id, the second no longer valid once the first is processed |
| SwitchFaults.NPURecoveryManager.RecordWhileNotReady | mindie_motor/src/controller/fault_manager/NPURecoveryManager.cpp:429-443 | remembers exactly the ids of all whitelisted faults of the message |
| SwitchFaults.NPURecoveryManager.UpdateProcessedSwitchFaults | mindie_motor/src/controller/fault_manager/NPURecoveryManager.cpp:656-669 | the processed set grows by exactly the new ids; a save adds to the file but replaces the etcd value |
| SwitchFaults.NPURecoveryManager.ProcessFaultMessage | mindie_motor/src/controller/fault_manager/NPURecoveryManager.cpp:419-474 | a message steps the fault memory and answers the qualifying instances and the restart flag, in all three modes |
| SwitchFaults.NPURecoveryManager.RecoveryNPUFaultID | mindie_motor/src/controller/node_scheduler/NodeScheduler.cpp:533-562 | a readable store is merged into the processed set, an unreadable one changes nothing |
| SwitchFaults.NeverActedOnTwice | mindie_motor/src/controller/fault_manager/NPURecoveryManager.cpp:541-710 | over every run of messages, successful saves, crashes and completed reloads, with either store, an id that qualified an instance never qualifies one again |
| SwitchFaults.NotReadyIdsNeverActedOn | mindie_motor/src/controller/fault_manager/NPURecoveryManager.cpp:429-443 | an id seen while the coordinator was not ready is never acted on in that process lifetime |
| SwitchFaults.DisabledIsIgnored | mindie_motor/src/controller/fault_manager/NPURecoveryManager.cpp:419-428 | a report that is not enabled changes nothing and is never acted on |
| SwitchFaults.ReadyLatches | mindie_motor/src/controller/fault_manager/NPURecoveryManager.cpp:429-443 | a coordinator that was ready once counts as ready until the process ends |
| SwitchFaults.FileNeverForgets | mindie_motor/src/controller/fault_manager/NPURecoveryManager.cpp:581-655 | over every run, faithful or not, the file never loses an id |
| SwitchFaults.KeyForgetsIff | mindie_motor/src/controller/fault_manager/NPURecoveryManager.cpp:656-710 | a save to the etcd key loses an id if and only if it is neither processed nor among the new ones |
| SwitchFaults.CanActIff | mindie_motor/src/controller/fault_manager/NPURecoveryManager.cpp:541-579 | in any state an id can be acted on next if and only if neither memory holds it |
| SwitchFaults.CrashRepeats | mindie_motor/src/controller/fault_manager/NPURecoveryManager.cpp:581-710 | after a failed save or without the reload, a crash makes the same message act on the same id again |
| NpuRecovery.NPURecoveryManager.FullNPURecovery | mindie_motor/src/controller/fault_manager/NPURecoveryManager.cpp:892-952 | an instance stays queued exactly when it was new and all its pods acknowledge PAUSE and then REINIT; otherwise STOP is sent and it leaves |
| NpuRecovery.NPURecoveryManager.LLMEngineAlarm | mindie_motor/src/controller/fault_manager/NPURecoveryManager.cpp:101-164 | one report per non-recoverable code and nothing else; otherwise an alarm only for an instance not already alarmed, then full recovery, or STOP when disabled |
| NpuRecovery.NPURecoveryManager.InstanceFaults | mindie_motor/src/controller/fault_manager/NPURecoveryManager.cpp:758-796 | handles instances in turn up to the first double fault, which is stopped and dequeued |
| NpuRecovery.NPURecoveryManager.Restart | mindie_motor/src/controller/fault_manager/NPURecoveryManager.cpp:731-756 | takes nodes out of service and sends STOP where there are pods, without touching the queue |
| NpuRecovery.NPURecoveryManager.Abort | mindie_motor/src/controller/fault_manager/NPURecoveryManager.cpp:1459-1483 | dequeues, stops polling on an empty queue, restarts the instance |
| NpuRecovery.NPURecoveryManager.RoCERecovery | mindie_motor/src/controller/fault_manager/NPURecoveryManager.cpp:254-414 | reports, leaves the queue as it was, and returns nodes to service only after PAUSE, relink and START all succeed |
| NpuRecovery.NPURecoveryManager.CheckInstancesRecoveryStatus | mindie_motor/src/controller/fault_manager/NPURecoveryManager.cpp:1304-1332 | partitions the queue into timed out, recovered and waiting |
| NpuRecovery.NPURecoveryManager.OnGlobalNPUPollTimerExpired | mindie_motor/src/controller/fault_manager/NPURecoveryManager.cpp:1253-1385 | the loops of a tick, in whatever order, have the effect of one simultaneous update |
| NpuRecoverySafety.RecoveryOverEveryRun | mindie_motor/src/controller/fault_manager/NPURecoveryManager.cpp:758-952 | over every run: polling whenever the queue is not empty; queued instances had PAUSE then REINIT acknowledged by all pods and nothing but STOP and reports since; the alarm set holds queued instances only, with at most one alarm for a recoverable code per stay, while reports for non-recoverable codes and before RoCE recovery are not bounded |
| NpuRecoverySafety.TickQueueIff | mindie_motor/src/controller/fault_manager/NPURecoveryManager.cpp:1304-1385 | a tick keeps exactly the instances within 60 s that have a pod not ready, with their start times |
| NpuRecoverySafety.DeadlineOverEveryRun | mindie_motor/src/controller/fault_manager/NPURecoveryManager.cpp:1304-1332 | in any run the first tick at or after 60 s removes an instance |
| NpuRecoverySafety.TickRestoresIff | mindie_motor/src/controller/fault_manager/NPURecoveryManager.cpp:1387-1448 | a tick makes a node available if and only if its instance is in time, all pods are ready and all acknowledge START |
| NpuRecoverySafety.TickStartsOrStops | mindie_motor/src/controller/fault_manager/NPURecoveryManager.cpp:1334-1430 | whatever a tick dequeues ends with START acknowledged by all or with STOP |
| NpuRecoverySafety.OnlyStartRestores | mindie_motor/src/controller/fault_manager/NPURecoveryManager.cpp:1412-1448 | no handler returns a node to service except by a START that, within that step, all pods of the node's own instance acknowledge |
| NpuRecoveryOutcomes.RoceRestoresIff | mindie_motor/src/controller/fault_manager/NPURecoveryManager.cpp:360-414 | a RoCE recovery returns a node to service if and only if the node belongs to the instance, which is not queued and has pods, all pods acknowledge PAUSE, the links are rebuilt and all pods acknowledge START |
| NpuRecoveryOutcomes.RoceServiceIff | mindie_motor/src/controller/fault_manager/NPURecoveryManager.cpp:360-414 | the same for every node, in service before or not |
| NpuRecoveryOutcomes.RoceStartsOrStops | mindie_motor/src/controller/fault_manager/NPURecoveryManager.cpp:360-414 | in every other case that is handled at all the last command is STOP to the same pods; the queue stays as it was |
| NpuRecoveryOutcomes.FullRecoveryOutcome | mindie_motor/src/controller/fault_manager/NPURecoveryManager.cpp:892-952 | takes the nodes out of service, queues exactly when all pods acknowledge PAUSE and REINIT, and otherwise ends in STOP |
| NpuRecoveryOutcomes.AlarmWithoutRecovery | mindie_motor/src/controller/fault_manager/NPURecoveryManager.cpp:101-151 | ignored, reported code by code, or answered with STOP, and nothing else |
| NpuRecoveryOutcomes.AlarmWithRecovery | mindie_motor/src/controller/fault_manager/NPURecoveryManager.cpp:151-163 | raises an alarm unless one is open and recovers unless queued |
| NpuRecoveryOutcomes.FaultsOutcome | mindie_motor/src/controller/fault_manager/NPURecoveryManager.cpp:758-796 | each entry of a message is stopped, isolated or recovered by itself, up to the first queued instance, behind which nothing changes |
| NpuRecoveryOutcomes.RestartOutcome | mindie_motor/src/controller/fault_manager/NPURecoveryManager.cpp:731-756 | exactly the nodes of the listed instances go out of service |
| NpuRecoveryOutcomes.RestartStops | mindie_motor/src/controller/fault_manager/NPURecoveryManager.cpp:731-756 | STOP goes once to each listed instance with nodes and pods |
| NpuRecoveryOutcomes.AbortOutcome | mindie_motor/src/controller/fault_manager/NPURecoveryManager.cpp:1459-1483 | dequeues, takes the nodes out of service and sends STOP if there are nodes and pods left |
| NpuRecoveryOutcomes.LeavesByStopIff | mindie_motor/src/controller/fault_manager/NPURecoveryManager.cpp:758-952 | an instance that leaves the queue other than by a tick was sent STOP, except if and only if it is aborted without nodes or pods |
| NpuRecoveryOutcomes.QueuedIsOutOfService | mindie_motor/src/controller/fault_manager/NPURecoveryManager.cpp:892-910 | over every run all nodes of a queued instance are out of service, as long as they are its own |
| StateFile.ControllerFile.SaveFaultsWithLock | mindie_motor/src/controller/fault_manager/NPURecoveryManager.cpp:622-654 | success merges the ids into the file, any failure leaves the file alone |
| StateFile.ControllerFile.SaveStatusToFile | mindie_motor/src/controller/process_manager/ProcessManager.cpp:729-761 | success replaces the node section and keeps the ids, any failure leaves the file alone |
| StateFile.SavesAreSerial | mindie_motor/src/controller/process_manager/ProcessManager.cpp:729-761 | every interleaving of savers, failures and crashes leaves the file of the completed saves in rename order |
| StateFile.ServerListKeepsInv | mindie_motor/src/controller/process_manager/ProcessManager.cpp:769-773 | the initial server list, written without lock or merge while no saver is at work, acts as a status save that read nothing |
| StateFile.LoadedIsSaved | mindie_motor/src/controller/process_manager/ProcessManager.cpp:198-212 | with a readable file the loaded node section is the last completed status save and the loaded ids are all ids of completed fault saves |
| StateFile.LoadedIsSavedIff | mindie_motor/src/controller/json_file_loader/JsonFileLoader.cpp:17-33 | in general the node section is kept if and only if a status was saved since the last unreadable read, or was empty; and the ids are kept if and only if each was saved again since then |
| StateFile.UnreadableFileLosesIds | mindie_motor/src/controller/json_file_loader/JsonFileLoader.cpp:17-33 | one status save with an unreadable file loses all ids saved before |
| DpGrouping.NodeInfo.ProcessSingleServerGrouping | mindie_motor/src/controller/common/DpGroupingUtil.cpp:68-81 | the nested loops number the whole groups of the servers consecutively |
| DpGrouping.NodeInfo.ProcessCrossServerGrouping | mindie_motor/src/controller/common/DpGroupingUtil.cpp:84-140 | succeeds exactly on non-zero, divisible sizes, and then puts full sets of neighbouring servers into shared groups |
| DpGrouping.NodeInfo.ProcessSingleNodeDpGrouping | mindie_motor/src/controller/common/DpGroupingUtil.cpp:142-172 | exactly when grouping is accepted, which grouping results, and no change on refusal |
| DpPartition.SinglyCoversIff | mindie_motor/src/controller/common/DpGroupingUtil.cpp:68-81 | for servers of any sizes no device of a server is left out if and only if its count is a multiple of the group size |
| DpPartition.SinglyPartitionIff | mindie_motor/src/controller/common/DpGroupingUtil.cpp:42-81 | servers that pass the count check are grouped into a partition if and only if each has a multiple of the group size |
| DpPartition.AcrossGroups | mindie_motor/src/controller/common/DpGroupingUtil.cpp:104-140 | for servers of any sizes a server lies whole in one group or, past the last full set, in none |
| DpPartition.AcrossPartitionIff | mindie_motor/src/controller/common/DpGroupingUtil.cpp:104-140 | grouping across servers gives a partition if and only if there are exactly dp full sets of neighbouring servers, each with the devices of one group, and no devices on the rest |
| DpPartition.ExactPartition | mindie_motor/src/controller/common/DpGroupingUtil.cpp:42-172 | for uniform servers: exactly dp groups, each of tp * cp devices over all servers, every device in exactly one group |
| DpPartition.UniformAcceptedIff | mindie_motor/src/controller/common/DpGroupingUtil.cpp:142-172 | servers of one size are accepted if and only if the role is known, they hold dp groups unless the instance is distributed, and one server holds a group or divides one |
| DpPartition.IdsNeverCollide | mindie_motor/src/controller/constant/ControllerConfig.cpp:95-101 | with dp at most 512 group ids of all nodes are distinct and fit 64 bits |
| DpPartition.UnevenServersLoseDevices | mindie_motor/src/controller/common/DpGroupingUtil.cpp:42-81 | sizes that the count check accepts and that are not partitioned |
| Base64.Base64Encode | mindie_motor/src/controller/request_handler/CCAERequestHandler.cpp:35-69 | for every byte string the wrapping 32-bit accumulator loop yields the encoding of section 4 of RFC 4648 |
| Base64.EncodedLength | mindie_motor/src/controller/request_handler/CCAERequestHandler.cpp:64-66 | the length is four for every three bytes begun |
| Base64.SplitJoin | mindie_motor/src/controller/request_handler/CCAERequestHandler.cpp:52-59 | four sextets are the same 24-bit number as three bytes, and joining inverts splitting |
| Base64.DecodeEncode | mindie_motor/src/controller/request_handler/CCAERequestHandler.cpp:35-69 | decoding the encoding returns the input |
| JsonEscape.SanitizeStringForJson | mindie_motor/src/common/securityutils/SecurityUtils.cpp:36-71 | the loop yields the escapes of all bytes in order |
| JsonEscape.UnescapeSanitized | mindie_motor/src/common/securityutils/SecurityUtils.cpp:36-71 | un-escaping by section 7 of RFC 8259, which rejects raw control bytes and raw quotes, returns the input |
| JsonEscape.ShortestText | mindie_motor/src/common/securityutils/SecurityUtils.cpp:36-71 | no other text that reads back as the input is shorter |
| JsonEscape.NoRawControl | mindie_motor/src/common/securityutils/SecurityUtils.cpp:54-62 | the output has no control byte |
| JsonEscape.QuoteStaysOutside | mindie_motor/src/common/securityutils/SecurityUtils.cpp:45-46 | embedded between quotes in any text, the string ends exactly where the output ends |
| JsonEscape.HexRoundTrip | mindie_motor/src/common/securityutils/SecurityUtils.cpp:31-34 | hexadecimal digits are the lower-case ones and read back as their value |
| Arbitration.CoordinatorBackupHandler.SetCoordinatorIsMasterBackup | mindie_motor/src/controller/request_handler/CoordinatorBackupHandler.cpp:111-136 | the pick between two claimants, the random-pick flag, and that a look-up adds unknown addresses as not master |
| Arbitration.CoordinatorBackupHandler.UpdateCoordinatorMasterInfo | mindie_motor/src/controller/request_handler/CoordinatorBackupHandler.cpp:148-173 | the decision of a round and that the memory mirrors the resulting flags |
| Arbitration.AtMostOneMaster | mindie_motor/src/controller/request_handler/CoordinatorBackupHandler.cpp:148-173 | after every round of every run with two fixed addresses at most one is master and the memory mirrors the flags |
| Arbitration.DoubleClaimIsSettled | mindie_motor/src/controller/request_handler/CoordinatorBackupHandler.cpp:111-136 | in any run a double claim with the same traffic yields exactly one master, the one not remembered, else the first |
| Arbitration.ReportedFlagsStand | mindie_motor/src/controller/request_handler/CoordinatorBackupHandler.cpp:148-173 | in any run, with the same traffic and at most one claim, both flags stand as reported and are remembered |
| Arbitration.ReceiverIsMaster | mindie_motor/src/controller/request_handler/CoordinatorBackupHandler.cpp:158-161 | any traffic that is not the same on both sides makes exactly those that receive requests master |
| Arbitration.OneMasterIff | mindie_motor/src/controller/request_handler/CoordinatorBackupHandler.cpp:111-136 | for any memory a settled claim has one master if and only if none, or exactly one of the two, is remembered |
| Arbitration.StaleMemoryMakesTwo | mindie_motor/src/controller/request_handler/CoordinatorBackupHandler.cpp:127-132 | a remembered third address makes both claimants master |

## Left out

- HTTP, gRPC and TLS plumbing, configuration parsing, logging, alarm contents: their outcomes are parameters.
- Thread-level races inside a handler, such as a poll tick between enqueueing an instance and its REINIT; the recovery claims hold at handler granularity.
- Cluster.NodeStatus.UpdateNodeDeleteTime: the health and initialised flags it clears are not part of the record, because no property here reads them.
- Cluster.NodeStatus.UpdateRoleStateAndPeers: the role state and the retry counter it sets are not part of the record, for the same reason.
- StateFile.SavesAreSerial: a server list written while a saver is at work is not modelled; the code writes it during initialisation, ahead of the savers.
- Prefill isolation timers: isolation takes nodes out of service in the model, the timer that brings them back is not a step of it; failure to create a timer thread is not modelled either.
- `Stop` of the leader agent and the gap between `TryLock` and promotion inside `Campaign`.
- Flex groups (rejected by the configuration), role switching, group generation, rank-table loading and single-node deployment.
- The JSON syntax of the state file: a document is its node section and its id array, and a section of the wrong JSON type is not modelled.
- Arbitration when coordinator addresses change is covered only by `OneMasterIff` and `StaleMemoryMakesTwo`, not by a run theorem.
- Surrogate pairs in `\u` escapes are rejected by the reader of the JSON model; the sanitizer never produces them.
- Rounds.GraphOverEveryRun: the damaged groups are an upper bound, since a damaged group also becomes consistent again when its unlinked nodes leave the table; the condition on one step is exact (`ConsistentNextIff`).
- Release.ReleaseLeavesAnInstance: stated for instances of one size, as the code itself takes the size from the last listed node (`ActiveInstancesExact` has no such condition).
- NpuRecoveryOutcomes.QueuedIsOutOfService: for as long as the nodes of the instance do not change; a scaling round that changes them during a recovery is not part of that run.
- LeaseLockSafety.MutualExclusion: clocks of clients and server advance at the same rate; clock drift is not modelled.
