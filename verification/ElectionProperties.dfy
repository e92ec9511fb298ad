/** What a pass can do to the target primary, and over any run of passes, how long it waits before. */
module ElectionProperties {
  import opened Names
  import opened StatusList
  import opened FailoverQuorum
  import opened PrimaryElection

  /** The pass switches over because the node of a working primary is being drained. */
  predicate LeavesDrainedNode(s: ClusterStatus, spec: ClusterSpec, o: Observation) {
    PrimaryIsDrained(ResetTarget(s, o), spec, o)
  }

  /** The first listed instance may replace a current primary that stopped working. */
  ghost predicate FailoverIsJustified(s: ClusterStatus, spec: ClusterSpec, o: Observation) {
    && o.list.items != []
    && var head := o.list.items[0];
    && !head.failed && head.isPodReady && head.pod != s.currentPrimary
    && QuorumCheck(o.lookup, o.list.items)
    && |PrimaryNames(o.list.items)| <= 1
  }

  lemma AfterIsAWrite(s: ClusterStatus, writes: seq<ClusterStatus>, accepts: nat)
    ensures After(s, writes, accepts) == s || After(s, writes, accepts) in writes
  {
  }

  lemma ReplacementWrites(d: ClusterStatus, o: Observation, w: ClusterStatus)
    requires o.list.items != [] && w in ReplacePrimary(d, o).writes
    ensures w.currentPrimary == d.currentPrimary
    ensures w.phase in {d.phase, FailOver} || (w.phase == Switchover && d.targetPrimary != d.currentPrimary)
    ensures w.targetPrimary in {d.targetPrimary, PENDING_FAILOVER_MARKER} ||
            (w.targetPrimary == o.list.items[0].pod && AreWalReceiversDown(o.list, d.currentPrimary))
  {
  }

  /** The election proper: which targets it writes, and under which phase. */
  lemma ElectionWrites(c: ClusterStatus, spec: ClusterSpec, o: Observation, w: ClusterStatus)
    requires o.list.items != [] && w in ElectForNonReplica(c, spec, o).writes
    ensures w.currentPrimary == c.currentPrimary
    ensures w.phase in {c.phase, FailOver} || (w.phase == Switchover && c.targetPrimary != c.currentPrimary)
    ensures w.targetPrimary != c.targetPrimary ==>
      && !o.list.items[0].failed && o.list.items[0].pod != c.targetPrimary
      && (c.targetPrimary == c.currentPrimary && spec.failoverQuorum ==> QuorumCheck(o.lookup, o.list.items))
      && (w.targetPrimary == PENDING_FAILOVER_MARKER ||
          (w.targetPrimary == o.list.items[0].pod && AreWalReceiversDown(o.list, c.currentPrimary)))
  {
    var d := Stamp(c, spec, o);
    if w in ReplacePrimary(d, o).writes {
      ReplacementWrites(d, o, w);
    }
  }

  /** In a replica cluster, only a designated primary that is not listed any more is replaced, by the head. */
  lemma ReplicaElectionWrites(c: ClusterStatus, spec: ClusterSpec, o: Observation, w: ClusterStatus)
    requires o.list.items != [] && w in ElectForReplica(c, spec, o).writes
    ensures w.currentPrimary == c.currentPrimary && w.phase in {c.phase, FailOver}
    ensures w.targetPrimary != c.targetPrimary ==>
      && w.targetPrimary == o.list.items[0].pod && AreWalReceiversDown(o.list, c.currentPrimary)
      && forall i :: i in o.list.items ==> i.pod != c.targetPrimary
  {
  }

  // ---- Leaving a node that is being drained ----

  /** A ready and streaming instance of another node, which is not known to be drained. */
  predicate IsSuccessor(o: Observation, primary: InstanceStatus, s: InstanceStatus) {
    s.pod != primary.pod && s.node != primary.node && s.isPodReady && s.isWalReceiverActive &&
    !(s.node in o.unschedulable && o.unschedulable[s.node])
  }

  lemma {:induction false} FirstSuccessorOfMore(o: Observation, a: seq<InstanceStatus>, x: InstanceStatus)
    ensures FirstSuccessor(o, a + [x]) ==
      if FirstSuccessor(o, a).Some? then FirstSuccessor(o, a) else if CanTakeOver(o, x) then Some(x.pod) else None
  {
    if a == [] {
      assert a + [x] == [x];
    } else {
      FirstSuccessorOfMore(o, a[1..], x);
      assert (a + [x])[1..] == a[1..] + [x];
    }
  }

  lemma {:induction false} FirstSuccessorIsFirst(o: Observation, items: seq<InstanceStatus>, primary: InstanceStatus)
    returns (i: nat)
    ensures i <= |items| && forall j :: 0 <= j < i ==> !IsSuccessor(o, primary, items[j])
    ensures match FirstSuccessor(o, PodsOnOtherNodes(items, primary))
      case None => i == |items|
      case Some(name) => i < |items| && IsSuccessor(o, primary, items[i]) && items[i].pod == name
  {
    if items == [] {
      i := 0;
    } else {
      var init, last := items[..|items| - 1], items[|items| - 1];
      i := FirstSuccessorIsFirst(o, init, primary);
      var others := PodsOnOtherNodes(init, primary);
      FirstSuccessorOfMore(o, others, last);
      assert items == init + [last];
      assert PodsOnOtherNodes(items, primary) ==
        if last.pod != primary.pod && last.node != primary.node then others + [last] else others;
      if i == |init| && !IsSuccessor(o, primary, last) {
        i := i + 1;
      }
    }
  }

  /**
   A primary on a drained node hands over to the first listed instance of another node that is ready,
   streaming and not being drained; unless some pod failed, not before all instances are ready and moved.
   */
  lemma DrainSelectsFirstAble(s: ClusterStatus, spec: ClusterSpec, o: Observation, name: string) returns (i: nat)
    requires LeavesDrainedNode(s, spec, o) && Pass(s, spec, o).outcome == Selected(name)
    ensures i < |o.list.items| && o.list.items[i].pod == name && name != s.currentPrimary
    ensures IsSuccessor(o, o.list.items[0], o.list.items[i])
    ensures forall j :: 0 <= j < i ==> !IsSuccessor(o, o.list.items[0], o.list.items[j])
    ensures o.hasFailedPods || o.readyInstances == spec.instances
  {
    i := FirstSuccessorIsFirst(o, o.list.items, o.list.items[0]);
  }

  // ---- What a pass writes ----

  /** The pass gets to the election of a new primary, with some report to decide on. */
  predicate ReachesElection(s: ClusterStatus, spec: ClusterSpec, o: Observation) {
    var r := ResetTarget(s, o);
    && o.preparation.Prepared? && !StopsAtGuards(r, o) && !o.promotes && !o.refused
    && o.list.items != [] && |PrimaryNames(o.list.items)| <= 1 && !AllReadyInstancesUnreachable(o.list)
    && !o.fullDisk && !o.pluginMissing && !(spec.isReplica && o.switching)
    && !HeadAwaitsReadiness(o.list) && !o.hibernating
    && !spec.IsFenced(r.currentPrimary) && !ReportingMightBeUnavailable(o.list, r.currentPrimary)
    && r.phase != InplaceDeletePrimaryRestart
  }

  ghost function Election(r: ClusterStatus, spec: ClusterSpec, o: Observation): Plan
    requires o.list.items != []
  {
    if spec.isReplica then ElectForReplica(r, spec, o) else ElectForNonReplica(r, spec, o)
  }

  /** A write of the pass is the reset, a phase that ends it, an election, or the end of the mark. */
  lemma PassWrites(s: ClusterStatus, spec: ClusterSpec, o: Observation, w: ClusterStatus)
    requires w in Pass(s, spec, o).writes && !LeavesDrainedNode(s, spec, o)
    ensures var r := ResetTarget(s, o);
      || (o.preparation.AbortedWith? && w == s.(phase := o.preparation.phase))
      || w == r
      || w == r.(failingSince := None)
      || (w == r.(phase := w.phase) &&
          w.phase in {REPLICA_CLUSTER_PROMOTION, STATUS_EXTRACTION_ERROR, NOT_ENOUGH_DISK_SPACE, Healthy})
      || (ReachesElection(s, spec, o) &&
          var writes := Election(r, spec, o).writes;
          w in writes || w == Last(r, writes).(failingSince := None))
  {
  }

  lemma ElectionKeepsCurrentPrimary(c: ClusterStatus, spec: ClusterSpec, o: Observation, w: ClusterStatus)
    requires w in ReconcileTargetPrimary(c, spec, o).writes
    ensures w.currentPrimary == c.currentPrimary
  {
  }

  lemma SwitchoverKeepsCurrentPrimary(c: ClusterStatus, spec: ClusterSpec, o: Observation, w: ClusterStatus)
    requires w in HandleSwitchover(c, spec, o).writes
    ensures w.currentPrimary == c.currentPrimary
  {
    var writes := ReconcileTargetPrimary(c, spec, o).writes;
    if w in writes {
      ElectionKeepsCurrentPrimary(c, spec, o, w);
    } else if writes != [] {
      ElectionKeepsCurrentPrimary(c, spec, o, Last(c, writes));
    }
  }

  /** No pass changes the current primary, not even one that leaves a drained node: instances do, when they promote. */
  lemma PassKeepsCurrentPrimary(s: ClusterStatus, spec: ClusterSpec, o: Observation, accepts: nat)
    ensures After(s, Pass(s, spec, o).writes, accepts).currentPrimary == s.currentPrimary
  {
    var r, t := ResetTarget(s, o), After(s, Pass(s, spec, o).writes, accepts);
    AfterIsAWrite(s, Pass(s, spec, o).writes, accepts);
    if t in HandleSwitchover(r, spec, o).writes {
      SwitchoverKeepsCurrentPrimary(r, spec, o, t);
    }
  }

  // ---- Silent heads ----

  /**
   Unlike the others, the election of a replica cluster does not ask whether the head reported: it may select a
   silent instance, but only when no instance reported and none is ready.
   */
  lemma SilentSelectionNeedsSilence(s: ClusterStatus, spec: ClusterSpec, o: Observation, name: string)
    requires Sorted(o.list) && !LeavesDrainedNode(s, spec, o) && Pass(s, spec, o).outcome == Selected(name)
    ensures o.list.items != [] && name == o.list.items[0].pod
    ensures o.list.items[0].failed ==>
      spec.isReplica && forall i :: i in o.list.items ==> i.failed && !(i.isPodActive && i.isPodReady)
  {
    var head := o.list.items[0];
    forall i | i in o.list.items && head.failed ensures i.failed {
      var k :| 0 <= k < |o.list.items| && o.list.items[k] == i;
      assert k > 0 ==> !Less(o.list, i, head);
    }
  }

  /** When exactly a head that did not report is selected. */
  lemma SilentSelectionExactly(s: ClusterStatus, spec: ClusterSpec, o: Observation)
    requires o.list.items != [] && o.list.items[0].failed && !LeavesDrainedNode(s, spec, o)
    ensures var r := ResetTarget(s, o);
      Pass(s, spec, o).outcome == Selected(o.list.items[0].pod) <==>
        && ReachesElection(s, spec, o) && spec.isReplica
        && (forall i :: i in o.list.items ==> i.pod != r.targetPrimary)
        && !DelayPending(Stamp(r, spec, o), spec, o) && AreWalReceiversDown(o.list, r.currentPrimary)
  {
  }

  /** The only pod of a replica cluster, neither ready nor reporting, is selected once the target is not listed. */
  lemma SilentHeadIsSelected() returns (s: ClusterStatus, spec: ClusterSpec, o: Observation)
    ensures Sorted(o.list) && o.list.items != [] && o.list.items[0].failed && !o.list.items[0].isPodReady
    ensures Pass(s, spec, o).outcome == Selected(o.list.items[0].pod)
  {
    s := ClusterStatus("a", "a", Healthy, None, 0, false);
    spec := ClusterSpec(1, true, 0, false, {});
    var silent := InstanceStatus("b", "node", true, false, false, true, false, false, 0, 0);
    o := Observation(0, false, {}, Prepared, false, false, false, StatusList([silent], true, "a"),
                     false, false, false, false, NotFound, map[], 0, 0);
    assert PrimaryNames(o.list.items) == [] by {
      assert o.list.items[1..] == [];
    }
    assert ReachesElection(s, spec, o);
    SilentSelectionExactly(s, spec, o);
  }

  // ---- Which target a pass stores ----

  /**
   With the quorum protection on, and whatever the stored status is and wherever the pass fails, a pass
   over a cluster with a current primary moves the target away only after a quorum check of that same
   pass; and an instance is named only once the WAL receivers are down.
   */
  lemma TargetMovesOnlyWithQuorum(s: ClusterStatus, spec: ClusterSpec, o: Observation, accepts: nat)
    requires s.currentPrimary != "" && !spec.isReplica && spec.failoverQuorum && !LeavesDrainedNode(s, spec, o)
    ensures var t := After(s, Pass(s, spec, o).writes, accepts);
      && t.currentPrimary == s.currentPrimary
      && (t.targetPrimary == s.targetPrimary
         || t.targetPrimary == s.currentPrimary
         || (FailoverIsJustified(s, spec, o) && t.targetPrimary == PENDING_FAILOVER_MARKER)
         || (FailoverIsJustified(s, spec, o) && t.targetPrimary == o.list.items[0].pod &&
             AreWalReceiversDown(o.list, s.currentPrimary)))
  {
    var t := After(s, Pass(s, spec, o).writes, accepts);
    AfterIsAWrite(s, Pass(s, spec, o).writes, accepts);
    if t != s {
      var r := ResetTarget(s, o);
      PassWrites(s, spec, o, t);
      if ReachesElection(s, spec, o) {
        var writes := ElectForNonReplica(r, spec, o).writes;
        if t in writes {
          ElectionWrites(r, spec, o, t);
        } else if writes != [] {
          ElectionWrites(r, spec, o, Last(r, writes));
        }
      }
    }
  }

  /** A target naming no active pod, such as the pending marker, does not outlive the next status update. */
  lemma InactiveTargetIsUndone(s: ClusterStatus, spec: ClusterSpec, o: Observation, accepts: nat)
    requires s.currentPrimary != "" && s.targetPrimary !in o.activePods
    ensures ResetTarget(s, o).targetPrimary == s.currentPrimary
    ensures s.targetPrimary != s.currentPrimary && accepts > 0 ==>
      o.preparation.Prepared? ==>
      Pass(s, spec, o).writes != [] && Pass(s, spec, o).writes[0].targetPrimary == s.currentPrimary
  {
  }

  /** An election that replaces a target other than the current primary only happens before there is a primary. */
  lemma SwitchingTargetNeedsNoPrimary(s: ClusterStatus, spec: ClusterSpec, o: Observation, i: nat)
    requires !LeavesDrainedNode(s, spec, o) && o.preparation != AbortedWith(Switchover) && s.phase != Switchover
    requires i < |Pass(s, spec, o).writes| && Pass(s, spec, o).writes[i].phase == Switchover
    ensures s.currentPrimary == "" && !spec.isReplica
  {
    var r, w := ResetTarget(s, o), Pass(s, spec, o).writes[i];
    PassWrites(s, spec, o, w);
    var writes := Election(r, spec, o).writes;
    var v := if w in writes then w else Last(r, writes);
    if v in writes {
      if spec.isReplica {
        ReplicaElectionWrites(r, spec, o, v);
      } else {
        ElectionWrites(r, spec, o, v);
      }
    }
  }

  /** A switchover or failover in progress is never disturbed while its target can still be promoted. */
  lemma LiveTargetIsKept(s: ClusterStatus, spec: ClusterSpec, o: Observation, accepts: nat)
    requires s.currentPrimary != "" && s.currentPrimary != s.targetPrimary
    requires o.readyInstances > 0 && s.targetPrimary in o.activePods
    ensures Pass(s, spec, o).outcome == Stopped
    ensures After(s, Pass(s, spec, o).writes, accepts).targetPrimary == s.targetPrimary
  {
  }

  /**
   A denied quorum check ends the election without an error, which clears the failing-since mark: the
   failover delay starts over although the current primary never recovered.
   */
  lemma QuorumDenialRestartsDelay(s: ClusterStatus, spec: ClusterSpec, o: Observation)
    requires ReachesElection(s, spec, o) && !spec.isReplica && !LeavesDrainedNode(s, spec, o)
    requires s.currentPrimary != "" && ResetTarget(s, o) == s && spec.failoverQuorum
    requires o.list.items[0].pod != s.currentPrimary && !o.list.items[0].failed
    requires !DelayPending(Stamp(s, spec, o), spec, o)
    requires !o.lookup.LookupError? && !QuorumCheck(o.lookup, o.list.items)
    ensures var writes := Pass(s, spec, o).writes; Last(s, writes) == s.(failingSince := None)
  {
  }

  /**
   Which passes start the failover delay over. Only one of the three is meant to, the pass that finds the
   target at the head of the list. The others are a head that did not report, at which the election gives up
   before it looks at the delay, and a denied quorum check.
   */
  lemma MarkIsClearedExactly(s: ClusterStatus, spec: ClusterSpec, o: Observation)
    requires ReachesElection(s, spec, o) && !spec.isReplica && !LeavesDrainedNode(s, spec, o)
    requires s.failingSince.Some?
    ensures var r, head := ResetTarget(s, o), o.list.items[0];
      Last(s, Pass(s, spec, o).writes).failingSince.None? <==>
        || head.pod == r.targetPrimary
        || head.failed
        || (r.targetPrimary == r.currentPrimary && spec.failoverQuorum && !DelayPending(r, spec, o) &&
            !o.lookup.LookupError? && !QuorumCheck(o.lookup, o.list.items))
  {
    var r, head := ResetTarget(s, o), o.list.items[0];
    var plan := ElectForNonReplica(r, spec, o);
    assert Stamp(r, spec, o) == r && Save(r, r) == [];
    if plan.outcome == Completed {
      CompletionClearsMark(s, spec, o);
    } else {
      assert Pass(s, spec, o).writes == Save(s, r) + plan.writes;
      if plan.writes != [] {
        MarkAfterElection(r, spec, o, Last(r, plan.writes));
      }
    }
  }

  // ---- The failover delay over runs ----

  datatype Step =
    | PassStep(o: Observation, accepts: nat)
    | Environment(next: ClusterStatus)  // anything else that changes the status, but for the failing-since mark

  ghost predicate Next(spec: ClusterSpec, s: ClusterStatus, step: Step, t: ClusterStatus) {
    match step
    case PassStep(o, accepts) => t == After(s, Pass(s, spec, o).writes, accepts)
    case Environment(next) => t == next && t.failingSince == s.failingSince
  }

  ghost predicate Run(spec: ClusterSpec, states: seq<ClusterStatus>, steps: seq<Step>) {
    && |states| == |steps| + 1
    && states[0].failingSince == None
    && (forall i :: 0 <= i < |steps| ==> Next(spec, states[i], steps[i], states[i + 1]))
    && (forall i :: 0 <= i < |steps| && steps[i].PassStep? ==> steps[i].o.stampedAt <= steps[i].o.checkedAt)
    && (forall i, j :: 0 <= i < j < |steps| && steps[i].PassStep? && steps[j].PassStep? ==>
          steps[i].o.checkedAt <= steps[j].o.stampedAt)
  }

  /** The pass went through the election without an error and without selecting a primary. */
  ghost predicate ElectionCompleted(spec: ClusterSpec, s: ClusterStatus, step: Step) {
    step.PassStep? && Pass(s, spec, step.o).outcome == Completed && |Pass(s, spec, step.o).writes| <= step.accepts
  }

  ghost predicate SelectsAfterFailure(spec: ClusterSpec, s: ClusterStatus, step: Step) {
    step.PassStep? && Pass(s, spec, step.o).outcome.Selected? && !LeavesDrainedNode(s, spec, step.o)
  }

  /** Before the election concludes, the mark is kept or set to the time of the pass. */
  lemma MarkAfterElection(c: ClusterStatus, spec: ClusterSpec, o: Observation, w: ClusterStatus)
    requires w in ReconcileTargetPrimary(c, spec, o).writes
    ensures w.failingSince == c.failingSince || (c.failingSince.None? && w.failingSince == Some(o.stampedAt))
  {
  }

  lemma MarkAfterSwitchover(c: ClusterStatus, spec: ClusterSpec, o: Observation, w: ClusterStatus)
    requires w in HandleSwitchover(c, spec, o).writes
    ensures w.failingSince in {c.failingSince, None} || (c.failingSince.None? && w.failingSince == Some(o.stampedAt))
  {
    if w in ReconcileTargetPrimary(c, spec, o).writes {
      MarkAfterElection(c, spec, o, w);
    }
  }

  /** A pass keeps the mark, sets it to its own time, or clears it; it clears it when the election completed. */
  lemma MarkAfterPass(spec: ClusterSpec, s: ClusterStatus, o: Observation, accepts: nat)
    ensures var t := After(s, Pass(s, spec, o).writes, accepts);
      && (t.failingSince in {s.failingSince, None} || (s.failingSince.None? && t.failingSince == Some(o.stampedAt)))
      && (ElectionCompleted(spec, s, PassStep(o, accepts)) ==> t.failingSince == None)
  {
    var r, writes := ResetTarget(s, o), Pass(s, spec, o).writes;
    var t := After(s, writes, accepts);
    AfterIsAWrite(s, writes, accepts);
    if t in HandleSwitchover(r, spec, o).writes {
      MarkAfterSwitchover(r, spec, o, t);
    }
    if ElectionCompleted(spec, s, PassStep(o, accepts)) {
      AfterAll(s, writes, accepts);
      CompletionClearsMark(s, spec, o);
    }
  }

  /** An election that ends without an error and without a choice clears the mark. */
  lemma CompletionClearsMark(s: ClusterStatus, spec: ClusterSpec, o: Observation)
    requires Pass(s, spec, o).outcome == Completed
    ensures Last(s, Pass(s, spec, o).writes).failingSince == None
  {
    var r := ResetTarget(s, o);
    var e := Last(r, ReconcileTargetPrimary(r, spec, o).writes);
    assert Pass(s, spec, o).writes ==
      Save(s, r) + (ReconcileTargetPrimary(r, spec, o).writes + Save(e, e.(failingSince := None)));
  }

  lemma {:induction false} MarkIsAfterLastCompletion(spec: ClusterSpec, states: seq<ClusterStatus>, steps: seq<Step>,
                                                     n: nat, j: nat)
    requires Run(spec, states, steps) && j < n <= |steps|
    requires ElectionCompleted(spec, states[j], steps[j]) && states[n].failingSince.Some?
    ensures steps[j].o.checkedAt <= states[n].failingSince.value
  {
    assert Next(spec, states[n - 1], steps[n - 1], states[n]);
    if steps[n - 1].PassStep? {
      MarkAfterPass(spec, states[n - 1], steps[n - 1].o, steps[n - 1].accepts);
    }
    if j < n - 1 && states[n - 1].failingSince.Some? {
      MarkIsAfterLastCompletion(spec, states, steps, n - 1, j);
    }
  }

  /**
   In any run, a pass that selects a new primary for one that stopped working finds a mark that is at
   least as old as the required delay, and no election after that mark had completed without a choice.
   */
  lemma NoFailoverBeforeDelay(spec: ClusterSpec, states: seq<ClusterStatus>, steps: seq<Step>, n: nat)
    returns (since: int)
    requires Run(spec, states, steps) && n < |steps| && SelectsAfterFailure(spec, states[n], steps[n])
    requires spec.failoverDelay != 0 || states[n].phase == OnlineUpgrading
    ensures steps[n].o.checkedAt - since >= spec.failoverDelay
    ensures states[n].phase == OnlineUpgrading ==> steps[n].o.checkedAt - since >= 30
    ensures states[n].failingSince == Some(since) || (states[n].failingSince.None? && since == steps[n].o.stampedAt)
    ensures forall j :: 0 <= j < n && ElectionCompleted(spec, states[j], steps[j]) ==> steps[j].o.checkedAt <= since
  {
    var o := steps[n].o;
    since := Stamp(ResetTarget(states[n], o), spec, o).failingSince.value;
    forall j | 0 <= j < n && ElectionCompleted(spec, states[j], steps[j])
      ensures steps[j].o.checkedAt <= since
    {
      if states[n].failingSince.Some? {
        MarkIsAfterLastCompletion(spec, states, steps, n, j);
      }
    }
  }
}
