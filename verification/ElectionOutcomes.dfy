/**
 What a pass concludes, in terms of what it reads: for each outcome exactly when it comes about, and what is
 stored then. None of this refers to how the pass is performed.
 */
module ElectionOutcomes {
  import opened Names
  import opened StatusList
  import opened FailoverQuorum
  import opened PrimaryElection
  import opened ElectionProperties

  /** The target once one that cannot be promoted was given up. */
  function LiveTarget(s: ClusterStatus, o: Observation): string {
    if s.currentPrimary == "" || (o.readyInstances > 0 && s.targetPrimary in o.activePods) then s.targetPrimary
    else s.currentPrimary
  }

  /** What is known at the start of the pass proper. */
  function Observed(s: ClusterStatus, o: Observation): ClusterStatus {
    s.(readyInstances := o.readyInstances, hasFailedPods := o.hasFailedPods, targetPrimary := LiveTarget(s, o))
  }

  ghost predicate IsSpared(spec: ClusterSpec, pod: string) { "*" in spec.fenced || pod in spec.fenced }

  /** Two instances report to be primaries. */
  ghost predicate SplitBrain(items: seq<InstanceStatus>) {
    exists i, j :: 0 <= i < j < |items| && items[i].isPrimary && items[j].isPrimary
  }

  /** There are instances that should answer, and none of them did. */
  ghost predicate NobodyAnswers(items: seq<InstanceStatus>) {
    && (exists i :: 0 <= i < |items| && items[i].isPodActive && items[i].isPodReady)
    && (forall i :: 0 <= i < |items| && items[i].isPodActive && items[i].isPodReady ==> items[i].failed)
  }

  ghost predicate SwitchInProgress(s: ClusterStatus, o: Observation) {
    s.currentPrimary != "" && LiveTarget(s, o) != s.currentPrimary
  }

  ghost predicate PrimaryRecovers(s: ClusterStatus, o: Observation) {
    exists i :: 0 <= i < |o.list.items| && o.list.items[i].pod == s.currentPrimary && o.list.items[i].mightBeUnavailable
  }

  /** No guard ends the pass before the switchover handling. */
  ghost predicate PassesGuards(s: ClusterStatus, spec: ClusterSpec, o: Observation) {
    && o.preparation == Prepared && !o.hookStops && !SwitchInProgress(s, o) && !o.promotes && !o.refused
    && !SplitBrain(o.list.items) && !NobodyAnswers(o.list.items)
    && !o.fullDisk && !o.pluginMissing && !(spec.isReplica && o.switching) && !o.hibernating
    && (o.list.items != [] && !o.list.items[0].failed ==> o.list.items[0].isPodReady)
  }

  /** Nor does the state of the current primary forbid an election. */
  ghost predicate MayElect(s: ClusterStatus, spec: ClusterSpec, o: Observation) {
    && PassesGuards(s, spec, o) && !IsSpared(spec, s.currentPrimary) && !PrimaryRecovers(s, o)
    && s.phase != InplaceDeletePrimaryRestart
  }

  function Since(s: ClusterStatus, o: Observation): int {
    if s.failingSince.Some? then s.failingSince.value else o.stampedAt
  }

  /** Both delays that may apply have passed since the mark. */
  ghost predicate DelayIsOver(s: ClusterStatus, spec: ClusterSpec, o: Observation) {
    && (spec.failoverDelay != 0 ==> o.checkedAt - Since(s, o) >= spec.failoverDelay)
    && (s.phase == OnlineUpgrading ==> o.checkedAt - Since(s, o) >= 30)
  }

  ghost predicate HasDelay(s: ClusterStatus, spec: ClusterSpec) {
    spec.failoverDelay != 0 || s.phase == OnlineUpgrading
  }

  /** The status with the mark, when there is a delay to wait for. */
  ghost function Marked(s: ClusterStatus, spec: ClusterSpec, o: Observation): ClusterStatus {
    if HasDelay(s, spec) then Observed(s, o).(failingSince := Some(Since(s, o))) else Observed(s, o)
  }

  ghost predicate ReceiversStopped(s: ClusterStatus, o: Observation) {
    forall i :: 0 <= i < |o.list.items| ==>
      o.list.items[i].pod == s.currentPrimary || !o.list.items[i].isWalReceiverActive
  }

  /** The current primary works, on a node that is being drained. */
  ghost predicate MustLeaveNode(s: ClusterStatus, spec: ClusterSpec, o: Observation) {
    o.list.items != [] &&
    var head := o.list.items[0];
    head.pod == s.currentPrimary && LiveTarget(s, o) == s.currentPrimary &&
    (head.isPrimary || (spec.isReplica && head.isPodReady)) &&
    head.node in o.unschedulable && o.unschedulable[head.node]
  }

  // ---- The guards ----

  lemma ObservedIsReset(s: ClusterStatus, o: Observation)
    ensures ResetTarget(s, o) == Observed(s, o)
  {
  }

  lemma {:induction false} PrimariesAreCounted(items: seq<InstanceStatus>)
    ensures PrimaryNames(items) == [] <==> forall i :: 0 <= i < |items| ==> !items[i].isPrimary
    ensures |PrimaryNames(items)| <= 1 <==> !SplitBrain(items)
  {
    if items != [] {
      var rest := items[1..];
      PrimariesAreCounted(rest);
      assert forall i :: 0 <= i < |rest| ==> rest[i] == items[i + 1];
      if SplitBrain(rest) {
        var i, j :| 0 <= i < j < |rest| && rest[i].isPrimary && rest[j].isPrimary;
        assert items[i + 1].isPrimary && items[j + 1].isPrimary;
      }
      if SplitBrain(items) {
        var i, j :| 0 <= i < j < |items| && items[i].isPrimary && items[j].isPrimary;
        assert rest[j - 1].isPrimary;
        if i > 0 {
          assert rest[i - 1].isPrimary;
        }
      }
      if PrimaryNames(rest) != [] && items[0].isPrimary {
        var j :| 0 <= j < |rest| && rest[j].isPrimary;
        assert items[j + 1].isPrimary;
      }
    }
  }

  lemma UnreachableExactly(list: StatusList)
    ensures AllReadyInstancesUnreachable(list) <==> NobodyAnswers(list.items)
  {
  }

  lemma RecoveryExactly(s: ClusterStatus, o: Observation)
    ensures ReportingMightBeUnavailable(o.list, s.currentPrimary) <==> PrimaryRecovers(s, o)
  {
  }

  lemma ReceiversExactly(s: ClusterStatus, o: Observation)
    ensures AreWalReceiversDown(o.list, s.currentPrimary) <==> ReceiversStopped(s, o)
  {
  }

  lemma DrainExactly(s: ClusterStatus, spec: ClusterSpec, o: Observation)
    ensures LeavesDrainedNode(s, spec, o) <==> MustLeaveNode(s, spec, o)
  {
  }

  lemma ElectionIsReachedExactly(s: ClusterStatus, spec: ClusterSpec, o: Observation)
    ensures ReachesElection(s, spec, o) <==> MayElect(s, spec, o) && o.list.items != []
  {
    PrimariesAreCounted(o.list.items);
    UnreachableExactly(o.list);
    RecoveryExactly(s, o);
  }

  /** Which phase, if any, is registered by a guard, and that nothing else changes. */
  ghost function GuardedStatus(s: ClusterStatus, spec: ClusterSpec, o: Observation): ClusterStatus {
    var r := Observed(s, o);
    if o.preparation == Aborted then s
    else if o.preparation.AbortedWith? then s.(phase := o.preparation.phase)
    else if o.hookStops || SwitchInProgress(s, o) then r
    else if o.promotes then
      if s.phase == UNRECOVERABLE then r else r.(phase := REPLICA_CLUSTER_PROMOTION)
    else if o.refused || SplitBrain(o.list.items) then r
    else if NobodyAnswers(o.list.items) then r.(phase := STATUS_EXTRACTION_ERROR)
    else if o.fullDisk then r.(phase := NOT_ENOUGH_DISK_SPACE)
    else r
  }

  lemma GuardedRest(s: ClusterStatus, spec: ClusterSpec, o: Observation)
    requires o.preparation == Prepared && !PassesGuards(s, spec, o)
    ensures var rest := Rest(Observed(s, o), spec, o);
      && Last(Observed(s, o), rest.writes) == GuardedStatus(s, spec, o)
      && rest.outcome in {Stopped, Failed}
      && (rest.outcome == Failed <==> !o.hookStops && !SwitchInProgress(s, o) && !o.promotes && o.refused)
  {
    PrimariesAreCounted(o.list.items);
    UnreachableExactly(o.list);
  }

  /** A pass that a guard ends stores the observations and the phase of that guard. */
  lemma GuardsStore(s: ClusterStatus, spec: ClusterSpec, o: Observation)
    requires !PassesGuards(s, spec, o)
    ensures Last(s, Pass(s, spec, o).writes) == GuardedStatus(s, spec, o)
    ensures Pass(s, spec, o).outcome in {Stopped, Failed}
    ensures Pass(s, spec, o).outcome == Failed <==>
      o.preparation == Prepared && !o.hookStops && !SwitchInProgress(s, o) && !o.promotes && o.refused
  {
    if o.preparation == Prepared {
      var r := Observed(s, o);
      ObservedIsReset(s, o);
      GuardedRest(s, spec, o);
      LastOfMore(s, Save(s, r), Rest(r, spec, o).writes);
    }
  }

  /** A primary that is fenced, recovers, or is restarted in place is left alone; the end of the restart is recorded. */
  lemma PrimaryIsLeftAlone(s: ClusterStatus, spec: ClusterSpec, o: Observation)
    requires PassesGuards(s, spec, o) && !MayElect(s, spec, o)
    ensures Pass(s, spec, o).outcome == Skipped
    ensures Last(s, Pass(s, spec, o).writes) ==
      if !IsSpared(spec, s.currentPrimary) && !PrimaryRecovers(s, o) && o.readyInstances == spec.instances
      then Observed(s, o).(phase := Healthy) else Observed(s, o)
  {
    PrimariesAreCounted(o.list.items);
    UnreachableExactly(o.list);
    RecoveryExactly(s, o);
  }

  /** Without any report there is nothing to decide on. */
  lemma NothingToDecide(s: ClusterStatus, spec: ClusterSpec, o: Observation)
    requires MayElect(s, spec, o) && o.list.items == []
    ensures Pass(s, spec, o).outcome == Completed
    ensures Last(s, Pass(s, spec, o).writes) == Observed(s, o).(failingSince := None)
  {
    RecoveryExactly(s, o);
  }

  // ---- The election ----

  /** The head is not the target, it reported, and the delays are over. */
  ghost predicate HeadIsDue(s: ClusterStatus, spec: ClusterSpec, o: Observation)
    requires o.list.items != []
  {
    o.list.items[0].pod != LiveTarget(s, o) && !o.list.items[0].failed && DelayIsOver(s, spec, o)
  }

  /** A check is asked for: the current primary is to be replaced under the quorum protection. */
  ghost predicate NeedsCheck(s: ClusterStatus, spec: ClusterSpec, o: Observation) {
    spec.failoverQuorum && LiveTarget(s, o) == s.currentPrimary
  }

  /** The phase of a failover, or of a switch from a target that went away. */
  ghost function PhaseOfElection(s: ClusterStatus, o: Observation): Phase {
    if LiveTarget(s, o) == s.currentPrimary || LiveTarget(s, o) == "pending" then FailOver else Switchover
  }

  /** The election and nothing else decides what a pass concludes that gets to it. */
  lemma PassIsElection(s: ClusterStatus, spec: ClusterSpec, o: Observation)
    requires MayElect(s, spec, o) && o.list.items != [] && !MustLeaveNode(s, spec, o)
    ensures var plan := Election(Observed(s, o), spec, o);
      && Pass(s, spec, o).outcome == plan.outcome
      && Last(s, Pass(s, spec, o).writes) ==
         if plan.outcome == Completed then Last(Observed(s, o), plan.writes).(failingSince := None)
         else Last(Observed(s, o), plan.writes)
  {
    ElectionIsReachedExactly(s, spec, o);
    DrainExactly(s, spec, o);
    ObservedIsReset(s, o);
    var r := Observed(s, o);
    var plan := Election(r, spec, o);
    LastOfMore(s, Save(s, r), HandleSwitchover(r, spec, o).writes);
    LastOfMore(r, plan.writes, Save(Last(r, plan.writes), Last(r, plan.writes).(failingSince := None)));
  }

  lemma LastOfMore(s: ClusterStatus, a: seq<ClusterStatus>, b: seq<ClusterStatus>)
    ensures Last(s, a + b) == Last(Last(s, a), b)
  {
  }

  /** What `Stamp` and `DelayPending` come to. */
  lemma DelayExactly(s: ClusterStatus, spec: ClusterSpec, o: Observation)
    ensures var r := Observed(s, o);
      && Stamp(r, spec, o) == Marked(s, spec, o)
      && (DelayPending(Stamp(r, spec, o), spec, o) <==> !DelayIsOver(s, spec, o))
  {
  }

  /** Exactly when an election selects, waits, fails, or completes, and what is stored then. */
  lemma FailoverExactly(s: ClusterStatus, spec: ClusterSpec, o: Observation)
    requires MayElect(s, spec, o) && o.list.items != [] && !MustLeaveNode(s, spec, o) && !spec.isReplica
    ensures var outcome, last, head := Pass(s, spec, o).outcome, Last(s, Pass(s, spec, o).writes), o.list.items[0];
      var due, checked := HeadIsDue(s, spec, o), NeedsCheck(s, spec, o) ==> QuorumCheck(o.lookup, o.list.items);
      && (outcome == Selected(head.pod) <==> due && checked && ReceiversStopped(s, o))
      && (outcome.Selected? ==> outcome.name == head.pod)
      && (outcome.Selected? ==> last == Marked(s, spec, o).(phase := PhaseOfElection(s, o), targetPrimary := head.pod))
      && (outcome == Failed <==> due && NeedsCheck(s, spec, o) && o.lookup == LookupError)
      && (outcome == Failed ==> last == Marked(s, spec, o))
  {
    PassIsElection(s, spec, o);
    DelayExactly(s, spec, o);
    ReceiversExactly(s, o);
  }

  lemma FailoverWaitsExactly(s: ClusterStatus, spec: ClusterSpec, o: Observation)
    requires MayElect(s, spec, o) && o.list.items != [] && !MustLeaveNode(s, spec, o) && !spec.isReplica
    ensures var outcome, last, head := Pass(s, spec, o).outcome, Last(s, Pass(s, spec, o).writes), o.list.items[0];
      var due, checked := HeadIsDue(s, spec, o), NeedsCheck(s, spec, o) ==> QuorumCheck(o.lookup, o.list.items);
      var early := head.pod != LiveTarget(s, o) && !head.failed && !DelayIsOver(s, spec, o);
      && (outcome == Waiting <==> early || (due && checked && !ReceiversStopped(s, o)))
      && (early ==> last == Marked(s, spec, o))
      && (due && checked && !ReceiversStopped(s, o) ==>
            last == if LiveTarget(s, o) == s.currentPrimary
                    then Marked(s, spec, o).(phase := FailOver, targetPrimary := "pending") else Marked(s, spec, o))
      && (outcome == Completed <==>
            head.pod == LiveTarget(s, o) || head.failed ||
            (due && NeedsCheck(s, spec, o) && o.lookup != LookupError && !QuorumCheck(o.lookup, o.list.items)))
      && (outcome == Completed ==> last == Marked(s, spec, o).(failingSince := None))
  {
    PassIsElection(s, spec, o);
    DelayExactly(s, spec, o);
    ReceiversExactly(s, o);
  }

  lemma FailoverWrites(s: ClusterStatus, spec: ClusterSpec, o: Observation)
    requires MayElect(s, spec, o) && o.list.items != [] && !MustLeaveNode(s, spec, o) && !spec.isReplica
    requires Pass(s, spec, o).outcome.Selected? && LiveTarget(s, o) == s.currentPrimary
    ensures var r, d := Observed(s, o), Marked(s, spec, o);
      var marker := d.(phase := FailOver, targetPrimary := "pending");
      Pass(s, spec, o).writes == (Save(s, r) + Save(r, d)) +
        [d.(phase := FailOver), marker, marker, marker.(targetPrimary := o.list.items[0].pod)]
  {
    ElectionIsReachedExactly(s, spec, o);
    DrainExactly(s, spec, o);
    ObservedIsReset(s, o);
    DelayExactly(s, spec, o);
    ReceiversExactly(s, o);
    var r, d := Observed(s, o), Marked(s, spec, o);
    assert Pass(s, spec, o).writes == Save(s, r) + (Save(r, d) + ReplacePrimary(d, o).writes);
  }

  /** The primary that is replaced is told so before its successor is named. */
  lemma FailoverIsAnnounced(s: ClusterStatus, spec: ClusterSpec, o: Observation) returns (i: nat)
    requires MayElect(s, spec, o) && o.list.items != [] && !MustLeaveNode(s, spec, o) && !spec.isReplica
    requires Pass(s, spec, o).outcome.Selected? && LiveTarget(s, o) == s.currentPrimary
    ensures i < |Pass(s, spec, o).writes| - 1
    ensures Pass(s, spec, o).writes[i] == Marked(s, spec, o).(phase := FailOver, targetPrimary := "pending")
    ensures forall j :: 0 <= j < |Pass(s, spec, o).writes| - 1 ==>
      Pass(s, spec, o).writes[j].targetPrimary in {s.currentPrimary, "pending"}
    ensures forall w :: w in Pass(s, spec, o).writes ==> w.targetPrimary == s.currentPrimary || w.phase == FailOver
  {
    var r, d := Observed(s, o), Marked(s, spec, o);
    var before := Save(s, r) + Save(r, d);
    FailoverWrites(s, spec, o);
    MarkerComesFirst(s.currentPrimary, before, d.(phase := FailOver), o.list.items[0].pod);
    i := |before| + 1;
  }

  lemma MarkerComesFirst(current: string, before: seq<ClusterStatus>, f: ClusterStatus, name: string)
    requires f.phase == FailOver && f.targetPrimary == current && forall w :: w in before ==> w.targetPrimary == current
    ensures var marker := f.(targetPrimary := "pending");
      var writes := before + [f, marker, marker, marker.(targetPrimary := name)];
      && writes[|before| + 1] == marker
      && (forall j :: 0 <= j < |writes| - 1 ==> writes[j].targetPrimary in {current, "pending"})
      && (forall w :: w in writes ==> w.targetPrimary == current || w.phase == FailOver)
  {
    var marker := f.(targetPrimary := "pending");
    var writes := before + [f, marker, marker, marker.(targetPrimary := name)];
    forall j | 0 <= j < |before| ensures writes[j] in before {
      assert writes[j] == before[j];
    }
  }

  /** A target that went away is replaced without such an announcement: no failover is registered in between. */
  lemma SwitchIsNotAnnounced(s: ClusterStatus, spec: ClusterSpec, o: Observation, w: ClusterStatus)
    requires MayElect(s, spec, o) && o.list.items != [] && !MustLeaveNode(s, spec, o) && !spec.isReplica
    requires LiveTarget(s, o) != s.currentPrimary && w in Pass(s, spec, o).writes
    ensures w.phase in {s.phase, PhaseOfElection(s, o)} && w.targetPrimary in {LiveTarget(s, o), o.list.items[0].pod}
  {
    ElectionIsReachedExactly(s, spec, o);
    DrainExactly(s, spec, o);
    ObservedIsReset(s, o);
    DelayExactly(s, spec, o);
  }

  /** In a replica cluster: a target that is listed is kept; otherwise the head replaces it after the delays. */
  lemma ReplicaFailoverExactly(s: ClusterStatus, spec: ClusterSpec, o: Observation)
    requires MayElect(s, spec, o) && o.list.items != [] && !MustLeaveNode(s, spec, o) && spec.isReplica
    ensures var outcome, last := Pass(s, spec, o).outcome, Last(s, Pass(s, spec, o).writes);
      var listed := exists i :: 0 <= i < |o.list.items| && o.list.items[i].pod == LiveTarget(s, o);
      var ready := DelayIsOver(s, spec, o) && ReceiversStopped(s, o);
      && outcome == (if listed then Completed else if ready then Selected(o.list.items[0].pod) else Waiting)
      && last == if listed then Observed(s, o).(failingSince := None)
                 else if ready then Marked(s, spec, o).(phase := FailOver, targetPrimary := o.list.items[0].pod)
                 else Marked(s, spec, o)
  {
    PassIsElection(s, spec, o);
    DelayExactly(s, spec, o);
    ReceiversExactly(s, o);
    assert (exists i :: 0 <= i < |o.list.items| && o.list.items[i].pod == LiveTarget(s, o)) <==>
           (exists i :: i in o.list.items && i.pod == LiveTarget(s, o));
  }

  // ---- Leaving a node ----

  function OnOtherNodes(items: seq<InstanceStatus>, primary: InstanceStatus): set<nat> {
    set i: nat | i < |items| && items[i].pod != primary.pod && items[i].node != primary.node
  }

  lemma {:induction false} OthersAreCounted(items: seq<InstanceStatus>, primary: InstanceStatus)
    ensures |PodsOnOtherNodes(items, primary)| == |OnOtherNodes(items, primary)|
  {
    if items != [] {
      var init, n := items[..|items| - 1], |items| - 1;
      OthersAreCounted(init, primary);
      if items[n].pod != primary.pod && items[n].node != primary.node {
        assert OnOtherNodes(items, primary) == OnOtherNodes(init, primary) + {n};
      } else {
        assert OnOtherNodes(items, primary) == OnOtherNodes(init, primary);
      }
    }
  }

  /** Nothing is on its way that would make it better to wait. */
  ghost predicate ReadyToLeave(spec: ClusterSpec, o: Observation)
    requires o.list.items != []
  {
    o.hasFailedPods ||
    (o.readyInstances == spec.instances && |OnOtherNodes(o.list.items, o.list.items[0])| >= spec.instances - 1)
  }

  /** Exactly when a working primary leaves a node that is being drained, and what is stored then. */
  lemma HandoverExactly(s: ClusterStatus, spec: ClusterSpec, o: Observation)
    requires MayElect(s, spec, o) && MustLeaveNode(s, spec, o)
    ensures var outcome, last, items := Pass(s, spec, o).outcome, Last(s, Pass(s, spec, o).writes), o.list.items;
      var leaves := ReadyToLeave(spec, o) && exists i :: 0 <= i < |items| && IsSuccessor(o, items[0], items[i]);
      && (outcome.Selected? <==> leaves) && (outcome == Completed <==> !leaves)
      && last == if outcome.Selected? then Observed(s, o).(phase := Switchover, targetPrimary := outcome.name)
                 else Observed(s, o).(failingSince := None)
  {
    ElectionIsReachedExactly(s, spec, o);
    DrainExactly(s, spec, o);
    ObservedIsReset(s, o);
    var r, items := Observed(s, o), o.list.items;
    OthersAreCounted(items, items[0]);
    var k := FirstSuccessorIsFirst(o, items, items[0]);
    LastOfMore(s, Save(s, r), HandleSwitchover(r, spec, o).writes);
  }
}
