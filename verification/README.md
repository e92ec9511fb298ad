# CloudNativePG operator: a verified model of its decision protocols

The project models the parts of the CloudNativePG operator that decide something that cannot be taken
back: which instance becomes the primary, which pod is restarted or deleted next, which backup may run,
how a configuration file is rewritten, when certificates are renewed and which serial a new instance gets.
`dafny verify dfyconfig.toml` checks everything.

Where the source changes something step by step, the model does too: a class or an array, methods, loops.
Each such method is proved equal to a specification function or predicate, and the properties are proved
about that specification, for every input, every run, or every interleaving.

| file | what it models |
|---|---|
| `Names.dfy` | optional values, and the order of names |
| `StatusList.dfy` | the list of instance reports and its order |
| `FailoverQuorum.dfy` | the R + W > N decision |
| `PrimaryElection.dfy` | one reconciliation pass up to the choice of a primary, with a crash possible at each write |
| `ElectionProperties.dfy` | what a pass can do to the target primary; the failover delay over runs |
| `ElectionOutcomes.dfy` | each outcome of a pass, exactly when it comes about and what is stored then |
| `FailoverSafety.dfy` | passes interleaved with writing, replication, acknowledgement, reconfiguration and promotion |
| `Rollout.dfy` | rolling updates |
| `BackupAdmission.dfy`, `BackupRuns.dfy` | which backup may proceed; the backup reconciler over runs |
| `ScheduledBackups.dfy` | the cron state machine with its crash points |
| `ConfigLines.dfy`, `ConfigFile.dfy`, `ConfigProperties.dfy` | rewriting of PostgreSQL configuration files |
| `Certificates.dfy` | creation and renewal of certificates |
| `NodeSerials.dfy` | allocation and restoration of instance serials |
| `ScaleDown.dfy` | the choice of the instance to give up |
| `Latch.dfy` | the one-shot latch of goroutines |

## Main results

* **No acknowledged commit is lost by an automatic failover** (`FailoverSafety.NoAcknowledgedCommitIsLost`),
  over every run of a cluster with the quorum protection, however passes fail midway. The primary goes on writing
  while nobody can reach it. Once it is replaced, it still writes, feeds the standbys that did not leave it, and
  acknowledges what its settings let it acknowledge; none of that is lost either. What is relied on:
  1. reports are truthful and sorted; standbys that reported a stopped WAL receiver stay stopped until the elected
     instance promoted itself, and do not go back to a primary that was replaced;
  2. the record that an electing pass reads answers for the settings in force. It may be out of date in any way;
     which records are good enough is decided by comparing sizes (`FailoverQuorum.OutdatedRecordIsSoundExactly`);
  3. the head that is elected does not still report to be a primary;
  4. nor has it left the history of the current primary;
  5. settings do not change between an election and the promotion, or after a primary was replaced;
  6. no promotion happens before the settings in force acknowledged a commit after the older ones.

  The code does not enforce 2 to 6. For each of them there is a concrete state in which leaving it out loses a
  commit. Passes that name no other instance need none of 2 to 4.
* **Exactly which elections are safe** (`FailoverSafety.ElectionKeepsAcksExactly`, and
  `FailoverQuorum.ElectionIsSafeExactly` in terms of the reports), whoever is elected and whatever the record says.
* **The quorum check is exact, and is never bypassed**: it allows a failover exactly when every set of
  standbys able to acknowledge a commit has a promotable member, and with a current primary no pass moves the
  target away without having made that check in the same pass, wherever the pass crashes. Leaving a node that is
  being drained is the exception: it starts from a working primary, and makes no check.
* **No failover before its delay**, over all runs.
* **Every outcome of a pass is known exactly** (`ElectionOutcomes`): from what is read, without reference to how the
  pass is performed, whether it elects, waits, gives up or fails, and what it stores.
* **A rolling update ends**, touches the primary last, leaves nothing undone, and acts on nothing that is not due;
  its need does not depend on the random order of the checkers.
* **Exactly one unfinished backup is admitted**, for any list in any order, and **at most one is active** in
  every run whose backups leave the empty phase and report in order, also after a pass that died halfway. At most
  one worker runs as long as no step loses track of one, and which steps do is exact.
* **Rewriting a configuration keeps its meaning**: lookups are the old ones overridden by the options, other
  lines keep their order, and rewriting twice is rewriting once, through the file as well unless some value has a
  line break.
* **Certificates stay valid** over any run of passes, under a condition on the interval that is proved exact.
* **Serials never collide**, and a blank primary is created at most once, over all interleavings of racing
  passes whose restorations list the greatest serial in use, as those from a current copy do.
* **No schedule point is repeated**, crashes included.

## Where the code does less than it says

Each of these is proved, with the exact condition or a concrete state.

* The comparison used to sort instance reports places two reports each before the other, when in a replica
  cluster the designated primary is level with a standby of an earlier name
  (`StatusList.OrderContradictsItselfExactly`).
* `evaluateQuorumCheck` does not look at the primary named in the record. A record left over from the
  primary before the current one can allow an unsafe election (`FailoverSafety.StaleRecordCanLoseCommits`).
* Looking at it would not be enough. The record is only zeroed before a reload: when PostgreSQL is restarted, new
  settings come into force under the old record (`FailoverSafety.RestartCanLoseCommits`). And the operator may read a
  record that has been replaced since (`FailoverSafety.OutdatedReadCanLoseCommits`).
* Settings that change after an election make it worthless, before the promotion
  (`FailoverSafety.LateSettingsCanLoseCommits`) and after it (`FailoverSafety.FormerSettingsCanLoseCommits`).
* A single instance that still reports to be a primary heads the list however little it received, and is
  elected (`FailoverSafety.StalePrimaryCanLoseCommits`).
* The comparison looks at log positions and not at timelines, although instances report theirs. A standby that
  returns with more of a history that was given up is elected over one that holds every acknowledged commit
  (`FailoverSafety.DivergedStandbyCanLoseCommits`).
* Right after a change of the synchronous settings, commits acknowledged under the older ones are not
  protected until a new one was acknowledged (`FailoverSafety.UncoveredCommitCanBeLost`, and when exactly they are
  kept `FailoverSafety.ElectedHoldsAckedExactly`).
* Two kinds of passes start the failover delay over although the primary never recovered: those whose quorum
  check is denied, and those that find a head that did not report, even while the delay is still running
  (`ElectionProperties.MarkIsClearedExactly`, `ElectionProperties.QuorumDenialRestartsDelay`).
  `docs/src/failover.md` counts the delay from the moment the primary was found unhealthy.
* Whether a primary with missing PVCs is recreated in place or switched over depends on the random order of
  the checkers, exactly when another common check fails too
  (`Rollout.ForcedRecreationDependsOnOrderExactly`).
* When the current primary of a replica cluster is listed third or later, a rolling update switches over to the
  second listed instance and not to the most advanced one (`Rollout.SuccessorIsFirstExactly`).
* The election of a replica cluster does not ask whether the head reported. A silent instance is selected
  (`ElectionProperties.SilentHeadIsSelected`), when exactly is `ElectionProperties.SilentSelectionExactly`, and it
  takes that nobody reports and nobody is ready (`ElectionProperties.SilentSelectionNeedsSilence`).
* A backup created later with an earlier name is first parked as pending and then started beside the active
  one (`BackupRuns.OutOfOrderBackupsOverlap`, and when exactly `BackupRuns.OverlapsExactly`).
* An instance manager stores its reports without a look at the phase. A backup that was recorded as failed is set
  back to running by a late report, beside another one (`BackupRuns.LateReportIsSafeExactly`).
* A backup that was created but not recorded in its schedule blocks the schedule until it is deleted
  (`ScheduledBackups.UnrecordedBackupStopsSchedule`); one deleted before it was recorded is taken again
  (`ScheduledBackups.EarlyDeletionRepeatsTick`, and when exactly an instant is forgotten
  `ScheduledBackups.DeletionForgetsExactly`).
* A quoted value with a line break is read back as two lines, and each rewriting of the file adds the second one
  again (`ConfigProperties.BrokenValueGrowsFile`).
* A CA secret that was deleted is replaced without a look at the leaf certificate, which then does not chain
  until it is renewed (`Certificates.ChainAfterPassExactly`). A threshold that reaches the life of a
  certificate makes every pass renew it (`Certificates.RenewalLoopsExactly`).
* Restoring a cluster patches the latest serial without checking that the copy is current
  (`NodeSerials.RestoreIsSafeExactly`, `NodeSerials.StaleRestoreCollides`).
* `findDeletableInstance` deletes from `status.instanceNames` in place: the list in memory is left with the
  names without a pod first and blank entries after them (`ScaleDown.FindDeletableInstance`).

## Model

| member | source | states |
|---|---|---|
| StatusList.OrderIsTotal | pkg/postgres/status.go:280-324 | outside replica clusters the order of reports is strict, total on distinct pods, and transitive |
| StatusList.OrderContradictsItselfExactly | pkg/postgres/status.go:313-323 | two reports are each placed before the other exactly in a replica cluster, when they are tied and the designated primary has the later name |
| StatusList.SortedListIsUnique | pkg/postgres/status.go:277-324 | the sorted list, and so the candidate, is determined by the reports |
| StatusList.HeadIsMostAdvanced | internal/controller/cluster_controller.go:489-494 | unless a primary is first, the head was collected and has received at least as much as any collected report |
| StatusList.HeadBreaksTies | pkg/postgres/status.go:308-323 | among those that received as much the head replayed most, then comes the designated primary of a replica cluster, then the first name |
| StatusList.HeadIsPrimaryIfAny | pkg/postgres/status.go:281-301 | a collected primary puts a primary at the head, the one of the first name; a head that was not collected means that none was |
| FailoverQuorum.PigeonholeIsExact | internal/controller/replicas_quorum.go:96-117 | R + W > N holds if and only if every set of W of the named standbys meets the promotable ones |
| FailoverQuorum.EvaluateQuorumCheckWithStatus | internal/controller/replicas_quorum.go:65-134 | the failover is allowed if and only if the record is coherent and each acknowledging set has a promotable member |
| FailoverQuorum.EvaluateQuorumCheck | internal/controller/replicas_quorum.go:40-61 | only a failing read is an error, a missing record denies |
| FailoverQuorum.ZeroedRecordDenies | internal/controller/replicas_quorum.go:75-86 | a record without a number or without names denies the failover |
| FailoverQuorum.PromotableExactly | internal/controller/replicas_quorum.go:88-94 | promotable are exactly the ready instances whose report was collected |
| FailoverQuorum.QuorumIsMonotone | internal/controller/replicas_quorum.go:88-117 | more promotable instances never turn an allowed failover into a denied one |
| FailoverQuorum.HeadCoversEveryAck | internal/controller/replicas_quorum.go:105-106 | after a passed check the head is at least as advanced as some member of each acknowledging set |
| FailoverQuorum.OutdatedRecordIsSoundExactly | internal/controller/replicas_quorum.go:96-117 | a check made on a record answers for settings that are different if and only if these cannot acknowledge at all, or the names they share and their number outweigh their names and the recorded number |
| FailoverQuorum.SoundCheckAnswers | internal/controller/replicas_quorum.go:96-117 | a check passed on a sound record leaves a promotable member in each set able to acknowledge under the settings in force |
| FailoverQuorum.ElectionIsSafeExactly | internal/controller/replicas_quorum.go:35-38 | the head, whoever it is, holds all that can have been acknowledged, wherever silent instances are, if and only if each acknowledging set has a reporting member that is not ahead of it |
| FailoverQuorum.StandbyElectionIsSafeExactly | internal/controller/replicas_quorum.go:105-117 | for a standby that heads a sorted list, that is if and only if each acknowledging set has a reporting member |
| PrimaryElection.ClusterReconciler.RegisterPhase | internal/controller/cluster_status.go:701-713 | writes the phase and nothing else, or fails without effect on what is stored |
| PrimaryElection.ClusterReconciler.SetPrimaryInstance | internal/controller/cluster_status.go:688-697 | writes the target primary and nothing else, or fails without effect on what is stored |
| PrimaryElection.ClusterReconciler.EvaluateFailoverDelay | internal/controller/replicas.go:378-406 | stamps a missing failing-since mark and lets go exactly when the delay has passed since the mark |
| PrimaryElection.ClusterReconciler.EnforceFailoverDelay | internal/controller/replicas.go:367-376 | two evaluations in a row stamp at most once and wait for the longer of the delays that apply |
| PrimaryElection.ClusterReconciler.ElectNonReplica | internal/controller/replicas.go:91-181 | stores exactly a prefix of the planned writes of the election, and all of them unless a write fails |
| PrimaryElection.ClusterReconciler.ElectHead | internal/controller/replicas.go:124-180 | marks a failover as pending, waits for the WAL receivers, and names the head, in a prefix of the planned writes |
| PrimaryElection.ClusterReconciler.ElectReplica | internal/controller/replicas.go:294-337 | the same for the election of a designated primary |
| PrimaryElection.ClusterReconciler.GetPodsNotOnPrimaryNode | internal/controller/replicas.go:340-357 | the reports of other pods on other nodes, in their order |
| PrimaryElection.ClusterReconciler.FindSuccessor | internal/controller/replicas.go:249-280 | the first candidate that is ready, streaming and not on a node known to be drained |
| PrimaryElection.ClusterReconciler.SetPrimaryOnSchedulableNode | internal/controller/replicas.go:212-289 | stores exactly a prefix of the planned writes of a drain-triggered switchover |
| PrimaryElection.ClusterReconciler.ReconcileTargetPrimaryFromPods | internal/controller/replicas.go:51-87 | the drain check comes first, then the election of the kind of cluster |
| PrimaryElection.ClusterReconciler.PerformSwitchover | internal/controller/cluster_controller.go:641-702 | no election for a fenced or recovering primary; a completed one clears the mark |
| PrimaryElection.ClusterReconciler.UpdateResourceStatus | internal/controller/cluster_status.go:250-275 | a target that is not an active pod is put back to the current primary, in at most one write |
| PrimaryElection.ClusterReconciler.Continue | internal/controller/cluster_controller.go:354-539 | the guards, their phases and their order, before the switchover handling |
| PrimaryElection.ClusterReconciler.Reconcile | internal/controller/cluster_controller.go:335-567 | whatever write fails, what is stored is a prefix of the plan of the pass, and the outcome is that of the plan when none does |
| ElectionProperties.ElectionWrites | internal/controller/replicas.go:104-180 | an election never changes the current primary; it changes the target only to the marker, or to the head once the receivers are down, and after a quorum check when that is due |
| ElectionProperties.ReplicaElectionWrites | internal/controller/replicas.go:302-336 | a designated primary is only replaced when it is not listed any more, by the head, once the receivers are down |
| ElectionProperties.SilentSelectionNeedsSilence | internal/controller/replicas.go:305-336 | outside drains the head is selected; a head that did not report only in a replica cluster of which nobody reported and nobody is ready |
| ElectionProperties.SilentSelectionExactly | internal/controller/replicas.go:302-336 | a head that did not report is selected exactly by an election of a replica cluster whose target is not listed, with the delay over and the receivers down |
| ElectionProperties.SilentHeadIsSelected | internal/controller/replicas.go:302-336 | a pass that selects an instance that neither reports nor is ready |
| ElectionProperties.PassKeepsCurrentPrimary | internal/controller/cluster_status.go:688-697 | no pass changes the current primary, wherever it crashes, drains included |
| ElectionProperties.DrainSelectsFirstAble | internal/controller/replicas.go:228-280 | a drained primary hands over to the first listed instance of another node that is ready, streaming and not drained, and not before all are ready unless some pod failed |
| ElectionProperties.TargetMovesOnlyWithQuorum | internal/controller/replicas.go:113-122 | with a current primary and quorum failover, wherever the pass crashes, the stored target leaves the current primary only for the marker or the head, after a passed check of that same pass, unless the pass leaves a drained node |
| ElectionProperties.InactiveTargetIsUndone | internal/controller/cluster_status.go:252-274 | the pending marker, like any target that is not active, does not survive the next status update |
| ElectionProperties.SwitchingTargetNeedsNoPrimary | internal/controller/replicas.go:165-177 | the branch that switches an unhealthy target is only reached while there is no current primary |
| ElectionProperties.LiveTargetIsKept | internal/controller/cluster_controller.go:361-369 | a switchover in progress to an active pod is never disturbed, wherever the pass crashes |
| ElectionProperties.QuorumDenialRestartsDelay | internal/controller/cluster_controller.go:692-699 | a denied check clears the failing-since mark |
| ElectionProperties.MarkIsClearedExactly | internal/controller/replicas.go:99-122 | a pass that reaches the election clears the mark exactly when the target heads the list, the head did not report, or the quorum check is denied after the delay |
| ElectionProperties.MarkAfterPass | internal/controller/cluster_controller.go:668-699 | a pass keeps the mark, clears it, or sets it to its own time; it is cleared when the election completed without a choice |
| ElectionProperties.CompletionClearsMark | internal/controller/cluster_controller.go:692-699 | an election that ends without an error and without a choice leaves no mark |
| ElectionProperties.MarkIsAfterLastCompletion | internal/controller/replicas.go:387-392 | in any run a mark is younger than every earlier pass whose election completed without a choice |
| ElectionProperties.NoFailoverBeforeDelay | internal/controller/replicas.go:367-406 | in any run, a pass that selects a new primary comes at least the configured delay after the mark, and at least 30 seconds during an online upgrade, with no completed election in between |
| ElectionOutcomes.ElectionIsReachedExactly | internal/controller/cluster_controller.go:354-666 | the reports, guards and states of the primary with which a pass gets to the election |
| ElectionOutcomes.GuardsStore | internal/controller/cluster_controller.go:273-539 | a pass that a guard ends stores the observations and the phase of that guard, and nothing else |
| ElectionOutcomes.PrimaryIsLeftAlone | internal/controller/cluster_controller.go:648-666 | a primary that is fenced, recovers or restarts in place is left alone, and the end of a restart is recorded |
| ElectionOutcomes.NothingToDecide | internal/controller/replicas.go:59-63 | without reports nothing is elected and the mark is cleared |
| ElectionOutcomes.FailoverExactly | internal/controller/replicas.go:99-181 | exactly when the head is elected or the election fails, and the status that is stored then |
| ElectionOutcomes.FailoverWaitsExactly | internal/controller/replicas.go:99-149 | exactly when an election waits for the delay or for the receivers, or gives up, and the status that is stored then |
| ElectionOutcomes.FailoverIsAnnounced | internal/controller/replicas.go:124-164 | the pending marker is stored before the successor is named, and the phase of a failover before either |
| ElectionOutcomes.SwitchIsNotAnnounced | internal/controller/replicas.go:165-177 | when a target that went away is replaced, neither the marker nor a failover is stored in between |
| ElectionOutcomes.ReplicaFailoverExactly | internal/controller/replicas.go:302-336 | exactly when a designated primary is kept, waited for, or replaced by the head, and the status that is stored then |
| ElectionOutcomes.HandoverExactly | internal/controller/replicas.go:65-79 | exactly when a working primary leaves a drained node, and the status that is stored then |
| FailoverSafety.ElectionCoversEveryAck | internal/controller/replicas.go:113-180 | once all receivers but that of the primary are reported as stopped, the elected head has received as much as a stopped member of every set able to acknowledge under the settings in force |
| FailoverSafety.FollowKeepsInv | internal/controller/replicas.go:145-149 | standbys that stream or rewind keep the invariant while reported ones stay stopped; they leave every replaced primary |
| FailoverSafety.AcknowledgeKeepsInv | internal/controller/replicas_quorum.go:96-108 | commits acknowledged late, by a primary nobody can reach, keep the invariant |
| FailoverSafety.StepKeepsRecordCurrent | internal/management/controller/instance_sync.go:34-95 | a record zeroed or published by the current primary goes on telling the settings in force through every step but a restart |
| FailoverSafety.RecordStaysSound | internal/management/controller/instance_controller.go:269-295 | in every run without such a restart a published record is sound for the settings in force |
| FailoverSafety.SettingsKeepInv | internal/management/controller/instance_controller.go:262-295 | settings that change by a reload or a restart, whatever the record says, keep the invariant while no elected instance is about to promote itself |
| FailoverSafety.PromotionKeepsInv | internal/management/controller/instance_controller.go:1228-1280 | the elected instance promotes itself, keeps all covered commits, and drops none when all are covered |
| FailoverSafety.PromotionLeavesFormerHarmless | internal/controller/replicas.go:124-149 | once a primary is replaced, each set that could acknowledge for it has a member that left it with no more than the successor took over |
| FailoverSafety.FormerStepKeepsInv | internal/controller/replicas.go:124-149 | a replaced primary that writes and feeds standbys keeps the invariant |
| FailoverSafety.FormerAckKeepsInv | internal/controller/replicas.go:124-149 | what a replaced primary can still acknowledge is in the log of the current one, so that nothing is lost |
| FailoverSafety.ElectedHoldsAckedExactly | internal/controller/replicas_quorum.go:105-106 | the elected instance has all that was ever acknowledged if and only if it received as much; it did when the settings in force cover it |
| FailoverSafety.PassKeepsInv | internal/controller/replicas.go:99-180 | a pass, complete or not and whatever record it reads, keeps the invariant; only one that names another instance needs trustworthy information |
| FailoverSafety.StepKeepsInv | internal/controller/replicas.go:99-180 | every step of the run machine keeps the invariant |
| FailoverSafety.StepKeepsAcked | internal/controller/replicas_quorum.go:35-38 | a step only extends what was acknowledged, but for a promotion before everything is covered |
| FailoverSafety.RunKeepsInv | internal/controller/replicas.go:99-180 | the invariant holds in every state of every run |
| FailoverSafety.NoAcknowledgedCommitIsLost | internal/controller/replicas_quorum.go:35-38 | in every run, all that was acknowledged is in the log of every later current primary, when promotions come in time |
| FailoverSafety.PromotionKeepsCovered | internal/controller/replicas_quorum.go:105-106 | without a condition on timing, a promotion keeps all that the settings in force acknowledged up to that step |
| FailoverSafety.ElectionKeepsAcksExactly | internal/controller/replicas_quorum.go:105-106 | electing an instance keeps all that may have been acknowledged if and only if each acknowledging set has a member that shares no more with the current primary than that instance does |
| FailoverSafety.TrustworthyElectionKeepsAcks | internal/controller/replicas.go:113-180 | what the run machine demands of an election is enough for that |
| FailoverSafety.StaleRecordCanLoseCommits | internal/controller/replicas_quorum.go:47-60 | a record of an earlier primary allows an election that loses a commit: the code ignores its primary field |
| FailoverSafety.RestartCanLoseCommits | internal/management/controller/instance_controller.go:262-295 | a run in which a restart puts new settings into force under the record of the same primary, and an election loses a commit |
| FailoverSafety.OutdatedReadCanLoseCommits | internal/controller/replicas_quorum.go:47-60 | a record that was replaced since it was read allows such an election too |
| FailoverSafety.LateSettingsCanLoseCommits | internal/management/controller/instance_controller.go:262-295 | settings that change after an election let a commit be acknowledged that the elected instance misses |
| FailoverSafety.FormerSettingsCanLoseCommits | internal/management/controller/instance_controller.go:262-295 | settings that change at a primary that was replaced let it acknowledge a commit that is lost |
| FailoverSafety.StalePrimaryCanLoseCommits | internal/controller/cluster_controller.go:407-426 | one instance that still reports to be a primary is elected over a standby that has every commit |
| FailoverSafety.DivergedStandbyCanLoseCommits | pkg/postgres/status.go:303-306 | a standby of another history with a greater position is elected over one that has every commit |
| FailoverSafety.UncoveredCommitCanBeLost | internal/management/controller/instance_controller.go:269-290 | after a change of settings a commit acknowledged before can be lost |
| Rollout.ApplyCheckers | internal/controller/cluster_upgrade.go:340-356 | the first outdated finding in the order of iteration, skipping failing checks |
| Rollout.IsPodNeedingRollout | internal/controller/cluster_upgrade.go:334-397 | common checks, then the pod specification, or the legacy checks without one |
| Rollout.NeedIgnoresOrder | internal/controller/cluster_upgrade.go:340-396 | whether a pod needs a rollout is the same for every order of the checkers, and when it does |
| Rollout.ForcedRecreationDependsOnOrderExactly | internal/controller/cluster_upgrade.go:358-363 | forced recreation depends on the order exactly when PVCs are missing and another common check fails |
| Rollout.UpdatePrimaryPod | internal/controller/cluster_upgrade.go:147-243 | what is done about the primary: wait, restart, recreate or switch over to a streaming successor |
| Rollout.RolloutRequiredInstances | internal/controller/cluster_upgrade.go:54-145 | acts on the last listed replica in need, on the primary only when there is none, and on at most one pod |
| Rollout.DecisionIsUnique | internal/controller/cluster_upgrade.go:62-145 | that description leaves one outcome only |
| Rollout.NeedsExactly | internal/controller/cluster_upgrade.go:287-320 | in terms of the findings, in any order of the checkers: which instances need something, and which of them a restart is enough for |
| Rollout.PrimaryIsRolledOutLast | internal/controller/cluster_upgrade.go:67-71 | the primary is touched or replaced only when no unfenced replica is due |
| Rollout.ActsOnDueInstance | internal/controller/cluster_upgrade.go:64-101 | what is acted upon is due, not fenced and let go by the coordinator; among the replicas it is the last one listed |
| Rollout.DelayedMeansHeldBack | internal/controller/cluster_upgrade.go:82-93 | a delayed rollout found something due that the coordinator holds back |
| Rollout.PrimaryIsUpdatedExactly | internal/controller/cluster_upgrade.go:147-243 | exactly when the user is waited for, the primary is restarted in place, recreated, or its role handed over |
| Rollout.RefusalMeansNotStreaming | internal/controller/cluster_upgrade.go:208-222 | the hand-over is refused only for a replica among the first two that is not streaming |
| Rollout.SuccessorIsFirstExactly | internal/controller/cluster_upgrade.go:193-231 | the instance that takes over is streaming, and is the first listed replica exactly when the current primary is one of the first two listed |
| Rollout.RolloutMakesProgress | internal/controller/cluster_upgrade.go:62-145 | each acting call lowers twice the due pods plus one for a due primary, switchovers included; a restart in place is only used where it is enough |
| Rollout.IdleMeansDone | internal/controller/cluster_upgrade.go:116-126 | with nothing holding it back, a call that does nothing finds nothing due: no outdated check, no pending restart, every executable hash reported |
| Rollout.RollingUpdateTerminates | internal/controller/cluster_upgrade.go:54-243 | an update takes at most two actions per due pod, plus one |
| BackupAdmission.BackupList.SortByName | api/v1/backup_funcs.go:195-200 | sorted in place, a permutation |
| BackupAdmission.BackupList.GetPendingBackupNames | api/v1/backup_funcs.go:146-159 | the names that are neither done nor in progress, in order |
| BackupAdmission.FirstWaitingLeads | api/v1/backup_funcs.go:185-188 | on a sorted list the first pending name is the least one of the backups that wait |
| BackupAdmission.PendingNamesExactly | api/v1/backup_funcs.go:139-159 | the pending names are those of backups that did not begin or are past the copy |
| BackupAdmission.InProgressIsAdmittedExactly | api/v1/backup_funcs.go:173-183 | a backup in progress is admitted if and only if its name is the first of those |
| BackupAdmission.AllDoneAdmitsAnybody | api/v1/backup_funcs.go:185-191 | when all listed backups ended, whoever asks is admitted |
| BackupAdmission.BackupList.CanExecuteBackup | api/v1/backup_funcs.go:168-192 | the answer is a property of the set of backups: the first name in progress, or else the first waiting one; the list is left sorted |
| BackupAdmission.ExactlyOneIsAdmitted | api/v1/backup_funcs.go:161-167 | while a backup is unfinished exactly one unfinished backup is admitted |
| BackupRuns.BackupReconciler.Reconcile | internal/controller/backup_controller.go:116-212 | the phase after a pass, that no other backup is touched, and what is stored and sent in which order |
| BackupRuns.DoneIsFinal | internal/controller/backup_controller.go:128-131 | a backup that ended is left alone |
| BackupRuns.NewBackupExactly | internal/controller/backup_controller.go:133-294 | exactly when a new backup starts, waits, or fails |
| BackupRuns.CommandIsSentExactly | internal/controller/backup_controller.go:181-212 | the command is sent exactly for an admitted backup without a worker, to a pod that is ready |
| BackupRuns.RunningIsEndedExactly | internal/controller/backup_controller.go:502-510 | a running backup is left alone, and exactly when its end is recorded all the same |
| BackupRuns.GoneIsNoticed | internal/controller/backup_controller.go:512-539 | a backup whose manager restarted fails, and one whose worker is gone is started again |
| BackupRuns.LosesTrackExactly | internal/controller/backup_controller.go:296-330 | exactly which steps leave a worker running that is not recorded |
| BackupRuns.AtMostOneWorker | internal/controller/backup_controller.go:997-1081 | in every run that loses track of no worker, at most one is running |
| BackupRuns.InvIsExclusive | internal/controller/backup_controller.go:1055-1078 | the invariant leaves at most one active backup |
| BackupRuns.ActiveIsAdmitted | internal/controller/backup_controller.go:1066-1078 | with an active backup around, no other one is admitted |
| BackupRuns.ReconcileKeepsInv | internal/controller/backup_controller.go:1048-1081 | a pass keeps every earlier name than the active one out of progress |
| BackupRuns.AtMostOneBackupRuns | internal/controller/backup_controller.go:997-1081 | in every run whose backups leave the empty phase and report in order, at most one is active |
| BackupRuns.LateReportIsSafeExactly | internal/controller/backup_controller.go:952-958 | a report about a backup that was already recorded as failed keeps the invariant if and only if that backup may be running, and exclusion if and only if no other is active |
| BackupRuns.CommandsAreExclusive | internal/controller/backup_controller.go:926-951 | when the command to take a backup is sent, the backup is already stored as started and is the only active one |
| BackupRuns.CrashIsAPass | internal/controller/backup_controller.go:232-294 | wherever a pass dies, it leaves what it found or what a whole pass could have left |
| BackupRuns.OutOfOrderBackupsOverlap | internal/controller/backup_controller.go:1066-1078 | a backup that leaves the empty phase with a name before the active one is started beside it by its second pass |
| BackupRuns.OverlapsExactly | internal/controller/backup_controller.go:1066-1078 | two passes over a new backup keep mutual exclusion if and only if it leaves the empty phase in order |
| ConfigLines.WhiteSpaceExactly | pkg/configfile/configfile.go:67-68 | what is trimmed is the white space of Unicode, by code points |
| ConfigLines.RenderedKey | pkg/configfile/configfile.go:67-80 | what is written for an option is read back as that option, whatever its value is |
| ConfigFile.UpdateConfigurationContents | pkg/configfile/configfile.go:63-100 | compacts in place without overwriting unread lines: the first line of an option is replaced, later ones dropped, missing ones appended in order |
| ConfigFile.RemoveOptionsFromConfigurationContents | pkg/configfile/configfile.go:117-134 | compacts in place to the lines of other options |
| ConfigProperties.EachOptionIsSetOnce | pkg/configfile/configfile.go:70-97 | each option has exactly one line in the result, with its new value |
| ConfigProperties.OtherLinesAreUntouched | pkg/configfile/configfile.go:85-88 | all other lines stay, in their order |
| ConfigProperties.UpdateOverridesLookup | pkg/configfile/configfile.go:61-100 | the last entry for each key is the old one, overridden by the options |
| ConfigProperties.RewriteConfigurationFile | pkg/configfile/configfile.go:46-57 | removes managed options that are not given, then updates |
| ConfigProperties.RemovedOptionsAreAbsent | pkg/configfile/configfile.go:46-52 | a managed option that is not given is absent |
| ConfigProperties.RewritingTwiceIsOnce | pkg/configfile/configfile.go:36-59 | rewriting is a fixpoint |
| ConfigProperties.RewritingFileTwiceIsOnce | pkg/configfile/configfile.go:36-59 | the file itself is a fixpoint when no option is written over several lines |
| ConfigProperties.BrokenValueGrowsFile | pkg/configfile/configfile.go:80-95 | otherwise each rewriting can add a line again, for ever |
| ConfigProperties.EnsureIncludes | pkg/configfile/configfile.go:156-191 | appends a block for each file that is not included, and reports a change exactly when there is one |
| ConfigProperties.BlocksInclude | pkg/configfile/configfile.go:167-188 | afterwards every file is included |
| ConfigProperties.IncludingTwiceIsOnce | pkg/configfile/configfile.go:154-191 | existing lines are kept and a second pass adds nothing |
| Certificates.SortedNamesAreUnique | pkg/certs/certs.go:350-353 | comparing sorted names is comparing them as multisets |
| Certificates.DoAltDNSNamesMatch | pkg/certs/certs.go:344-354 | true exactly when the names agree as multisets; the given names are left sorted |
| Certificates.PublicKeyInfrastructure.EnsureCASecret | internal/controller/cluster_pki.go:170-226 | a missing CA is created, an expiring one renewed under its key |
| Certificates.PublicKeyInfrastructure.EnsureLeafCertificate | internal/controller/cluster_pki.go:319-393 | a missing leaf is created with its hosts added, an expiring or misnamed one renewed under its key |
| Certificates.PublicKeyInfrastructure.Setup | internal/controller/cluster_pki.go:39-72 | the CA first, then the leaf |
| Certificates.InspectedStaysValid | pkg/certs/certs.go:326-341 | what a pass finds good or issues is valid until the next pass is due |
| Certificates.OftenEnoughExactly | pkg/certs/certs.go:504-518 | the condition on the interval is necessary too: the threshold, and the duration less five minutes and the cut to whole seconds |
| Certificates.CertificatesStayValid | internal/controller/cluster_pki.go:170-226 | in any run both certificates are valid at every instant from the first pass on |
| Certificates.ChainAfterPassExactly | pkg/certs/k8s.go:112-131 | when a leaf is signed by the CA after a pass; renewal keeps keys, so earlier leaves still chain |
| Certificates.ChainIsKept | pkg/certs/certs.go:306-316 | once it chains, a leaf chains for ever, whatever is renewed |
| Certificates.NamesSettle | pkg/certs/certs.go:206-215 | after creation at most one renewal is needed for the names to agree |
| Certificates.RenewedAgainExactly | pkg/certs/k8s.go:98-110 | when a renewed leaf is renewed again |
| Certificates.RenewalDateExactly | pkg/certs/certs.go:504-518 | in the days that are configured, or 90 and 7: when a renewed leaf is renewed again |
| Certificates.KeptLeafExactly | pkg/certs/k8s.go:98-110 | exactly which leaves are kept, in the days that are configured or 7 |
| Certificates.IssuedCaSignsItself | pkg/certs/certs.go:302-316 | a CA signs itself under the key it had, or under a new one |
| Certificates.ServerNamesExactly | pkg/certs/certs.go:206-215 | a new leaf carries the names asked for, then each host that is not among them, once |
| Certificates.RenewalLoopsExactly | pkg/certs/certs.go:504-518 | the settings under which every pass renews a certificate that was just issued |
| NodeSerials.GetNodeSerialsFromPVCs | internal/controller/cluster_restore.go:301-322 | the greatest serial, never below zero, and the last primary; an error exactly for a volume without a serial |
| NodeSerials.WorkingCopy.GenerateNodeSerial | internal/controller/cluster_create.go:1049-1056 | one more than the copy when the copy is current, otherwise no effect |
| NodeSerials.WorkingCopy.CreatePrimaryInstance | internal/controller/cluster_create.go:1059-1091 | a blank primary only gets serial one, and only when no serial was generated |
| NodeSerials.WorkingCopy.RestoreClusterStatus | internal/controller/cluster_restore.go:208-219 | a patch of what differs from the copy, without a check that the copy is current |
| NodeSerials.WorkingCopy.ReconcileRestoredCluster | internal/controller/cluster_restore.go:42-98 | restores only a cluster without serials, from readable volumes; starts from the recorded primary, or else the highest serial |
| NodeSerials.StepKeepsInv | internal/controller/cluster_create.go:1049-1091 | each step keeps serials in use at most the recorded one, and a new serial exceeds all in use |
| NodeSerials.RestoreIsSafeExactly | internal/controller/cluster_restore.go:208-219 | a restoration is safe exactly when it leaves the recorded serial alone or no serial in use exceeds the listed volumes |
| NodeSerials.StaleRestoreCollides | internal/controller/cluster_restore.go:208-219 | after a restoration from an outdated copy the next serial is one in use |
| NodeSerials.CurrentCopyRestoresSafely | internal/controller/cluster_restore.go:47-50 | a restoration from a current copy is a safe one |
| NodeSerials.SerialsNeverCollide | internal/controller/cluster_create.go:1049-1091 | in every run with safe restorations, the recorded serial never decreases and bounds all in use, and one blank primary is created at most |
| NodeSerials.FreshSerialIsNew | internal/controller/cluster_create.go:1049-1056 | a serial is handed out once and exceeds all serials in use |
| ScheduledBackups.ScheduledBackupReconciler.CreateBackup | internal/controller/scheduledbackup_controller.go:226-310 | the backup before the status, with a crash possible before each of them |
| ScheduledBackups.ScheduledBackupReconciler.Reconcile | internal/controller/scheduledbackup_controller.go:113-223 | the whole pass, including a stop at an unfinished child |
| ScheduledBackups.PassCreates | internal/controller/scheduledbackup_controller.go:213-222 | a pass only creates the backup due after the recorded check, once it is due, with no child unfinished |
| ScheduledBackups.DueIsTaken | internal/controller/scheduledbackup_controller.go:213-305 | a due instant is taken, and what is recorded |
| ScheduledBackups.NothingIsTakenEarly | internal/controller/scheduledbackup_controller.go:99-121 | nothing happens on hold, beside an unfinished child, or before the instant |
| ScheduledBackups.FirstPassExactly | internal/controller/scheduledbackup_controller.go:188-211 | the first pass takes an immediate backup when asked to, and otherwise only remembers that it looked |
| ScheduledBackups.CrashLeavesUnrecorded | internal/controller/scheduledbackup_controller.go:272-305 | a pass that dies between creating and recording leaves the backup and no trace in the status |
| ScheduledBackups.CheckAdvances | internal/controller/scheduledbackup_controller.go:286-298 | the recorded check moves only past the instant that was due |
| ScheduledBackups.HandledIsKept | internal/controller/scheduledbackup_controller.go:240-305 | an instant whose backup was created stays handled through crashes |
| ScheduledBackups.NoTickIsRepeated | internal/controller/scheduledbackup_controller.go:213-305 | in any run scheduled backups are for instants of the schedule, which strictly increase |
| ScheduledBackups.EarlyDeletionRepeatsTick | internal/controller/scheduledbackup_controller.go:240-244 | a backup deleted before it was recorded is taken again |
| ScheduledBackups.DeletionForgetsExactly | internal/controller/scheduledbackup_controller.go:240-298 | deleting a backup keeps its instant handled if and only if the recorded check has moved past it |
| ScheduledBackups.UnrecordedBackupStopsSchedule | internal/controller/scheduledbackup_controller.go:272-284 | a backup that was not recorded blocks its schedule until it is deleted |
| ScaleDown.FindDeletableInstance | internal/controller/replicas.go:409-446 | the choice, and what is left of the list of names that it works on in place |
| ScaleDown.RemoveAllLeavesWithoutPod | internal/controller/replicas.go:413-418 | the deletions leave exactly the names without a pod, in order |
| ScaleDown.YoungestIsGreatest | internal/controller/replicas.go:420-434 | the running maximum is the greatest serial of the pods that can be given up |
| ScaleDown.ChoiceIsRight | internal/controller/replicas.go:408-446 | the last name without a pod, else the ready, active, non-primary pod of greatest serial, else nothing |
| ScaleDown.ScaleDownCluster | internal/controller/cluster_scale.go:40-73 | nothing is deleted below the synchronous replicas asked for; otherwise the choice is deleted |
| Latch.Executed.constructor | pkg/concurrency/executed.go:60-65 | a latch starts unset, with its lock free |
| Latch.Executed.Wait | pkg/concurrency/executed.go:68-74 | returns when set, otherwise parks and gives the lock back |
| Latch.Executed.BroadcastError | pkg/concurrency/executed.go:83-91 | only the first one sets the latch, keeps its error and wakes all that are parked |
| Latch.FirstErrorIsKept | pkg/concurrency/executed.go:83-100 | readers get no error before the broadcast that sets the latch, and the error of that broadcast for ever after |
| Latch.NoWakeUpIsLost | pkg/concurrency/executed.go:67-91 | in any interleaving nobody stays parked once it is set, a completed wait implies it is set, and the first error is kept |
| Latch.StepWakesExactlyParked | pkg/concurrency/executed.go:83-91 | a step moves its own goroutine, and the broadcast that sets the latch wakes exactly the parked ones |
| Latch.NobodyIsStuck | pkg/concurrency/executed.go:67-91 | once it is set some goroutine can always move: the one that holds the lock, or any that has not returned |

## Left out

- FailoverSafety.NoAcknowledgedCommitIsLost: excludes manual promotions and switchovers triggered by a drain or an upgrade, which start from a working primary and do not use the quorum check; logs are plain sequences, so a timeline is known by its entries.
- FailoverSafety.FormerAckKeepsInv: a reply of a standby that left a replaced primary arrives before the next promotion or never.
- FailoverSafety.StepKeepsRecordCurrent: publishing is one step, although the instance manager may decide to publish on a cluster object that is out of date by the time it writes; what such a record does is FailoverSafety.OutdatedReadCanLoseCommits.
- FailoverSafety.PromotionKeepsInv: promoting is one step too, and an instance whose election was undone does not promote itself on an out-of-date cluster object.
- PrimaryElection.ClusterReconciler.Reconcile: the steps before the status update (defaults, image, plugins, auxiliary objects) either let the pass go on, end it, or end it with some phase; the restoration of a cluster among them is NodeSerials.WorkingCopy.ReconcileRestoredCluster; nobody else writes the status between the writes of a pass, and each clock reading is taken at one of two given instants; phase reasons and timestamps of the primary fields are not kept.
- PrimaryElection.ClusterReconciler.Continue: status fields that are not part of the model, such as what is derived from the reports, are only known by whether storing them failed; why a hook, a full disk, a missing plugin, a replica cluster switch or hibernation ends the pass is an input.
- StatusList.SortedListIsUnique: log positions are numbers; the sort algorithm of the Go library is represented by what sorting guarantees.
- Rollout.RolloutRequiredInstances: failing writes to the API server, and how the coordinator of rollouts spaces them; it is a set of pods that may go.
- Rollout.RollingUpdateTerminates: recreated pods come back up to date and ready, and no pod is fenced.
- BackupRuns.AtMostOneBackupRuns: backups taken as volume snapshots, and with them the phases of finalizing and of failing WAL archiving; those phases are part of BackupAdmission.ExactlyOneIsAdmitted.
- BackupRuns.AtMostOneWorker: a backup that is started again on another pod, because the target primary moved while its worker was running, has two workers for a while.
- BackupRuns.BackupReconciler.Reconcile: the choice of the target pod, the major version and plugin hooks; a pass that fails for their sake changes nothing.
- ConfigProperties.UpdateOverridesLookup: which line sets an option is read the way the operator reads it, by the text before the equals sign; PostgreSQL also accepts entries without one, ignores case and comments.
- ConfigFile.UpdateConfigurationContents: values are taken as already quoted.
- ConfigProperties.RewritingFileTwiceIsOnce: files are read and written by a library that is not part of this model; a written line is read back cut at its line breaks. When a value has some, the file is still a fixpoint if its further lines happen to set managed options that are removed, which is not stated.
- Certificates.CertificatesStayValid: X.509 structures, issuer names and IP addresses; a pass reads the clock once, and no secret is deleted between passes.
- Certificates.NamesSettle: the sort of the Go library is represented by an insertion sort.
- NodeSerials.SerialsNeverCollide: every accepted write gives a new version; jobs, the fencing annotation and orphan services of a restored cluster.
- ScheduledBackups.NoTickIsRepeated: parsing of cron expressions, which are any function to the first due instant on a whole second; the clock never reads before the last recorded check.
- Latch.Executed.Err: reads without the lock, so what it may see during a broadcast is not covered.
- MultipleExecuted, findInstancePodToCreate, the online upgrade of instance managers, the pooler and plugin controllers, services, roles and config maps: easy members beside those above.
