/**
 One reconciliation pass up to the choice of a new primary: the reset of a target that cannot be
 promoted, the guards, the failover delay, the quorum check and the election.

 A pass writes the cluster status several times, and it can fail at any of these writes. `Plan` is the
 specification: the successive statuses a pass stores, and what it concludes when all of them are stored.
 The class below performs the pass step by step and is proved to store exactly a prefix of the plan.
 */
module PrimaryElection {
  import opened Names
  import opened StatusList
  import opened FailoverQuorum

  /** Used as target primary to signal that a failover is required. */
  const PENDING_FAILOVER_MARKER := "pending"

  /** Registered when no ready instance could be reached. */
  const STATUS_EXTRACTION_ERROR := Other("Instance Status Extraction Error: HTTP communication issue")

  const REPLICA_CLUSTER_PROMOTION := Other("Promoting to primary cluster")

  const UNRECOVERABLE := Other("Cluster is unrecoverable and needs manual intervention")

  const NOT_ENOUGH_DISK_SPACE := Other("Not enough disk space")

  /** Seconds a failover waits while the instance managers are being upgraded in place. */
  const ONLINE_UPGRADE_FAILOVER_DELAY := 30

  datatype Phase =
    | Healthy | FailOver | Switchover | OnlineUpgrading | InplaceDeletePrimaryRestart
    | Other(reason: string)

  datatype ClusterStatus = ClusterStatus(
    currentPrimary: string,
    targetPrimary: string,
    phase: Phase,
    failingSince: Option<int>,
    readyInstances: int,
    hasFailedPods: bool)

  datatype ClusterSpec = ClusterSpec(
    instances: int,
    isReplica: bool,
    failoverDelay: int,
    failoverQuorum: bool,
    fenced: set<string>)
  {
    predicate IsFenced(pod: string) { "*" in fenced || pod in fenced }
  }

  /** How the steps before the status update end: image, plugins, auxiliary objects. */
  datatype Preparation = Prepared | Aborted | AbortedWith(phase: Phase)

  /** Everything a pass reads besides the stored status. */
  datatype Observation = Observation(
    readyInstances: int,
    hasFailedPods: bool,
    activePods: set<string>,
    preparation: Preparation,
    hookStops: bool,
    promotes: bool,         // the replica cluster is to become a primary cluster
    refused: bool,          // the fields derived from the reports could not be stored
    list: StatusList,
    fullDisk: bool,         // some pod has no space left for WAL files
    pluginMissing: bool,    // some pod ended for want of its WAL archiving plugin, and is deleted
    switching: bool,        // the change to a replica cluster is in progress
    hibernating: bool,
    lookup: Lookup,
    unschedulable: map<string, bool>,  // a node that could not be read is absent
    stampedAt: int,
    checkedAt: int)

  datatype Outcome =
    | Stopped                 // a guard ended the pass before the election
    | Skipped                 // the election was not attempted
    | Waiting                 // for the failover delay, or for the WAL receivers
    | Failed                  // a read failed
    | Completed               // attempted, and nothing had to be changed
    | Selected(name: string)

  datatype Plan = Plan(writes: seq<ClusterStatus>, outcome: Outcome)

  /** What is stored once `accepted` of the planned writes went through. */
  function After(stored: ClusterStatus, writes: seq<ClusterStatus>, accepted: nat): ClusterStatus {
    if accepted == 0 || writes == [] then stored
    else if accepted < |writes| then writes[accepted - 1]
    else writes[|writes| - 1]
  }

  /** An update is sent only when it changes something. */
  function Save(before: ClusterStatus, after: ClusterStatus): seq<ClusterStatus> {
    if before == after then [] else [after]
  }

  /** A target that is not an active pod is never going to be promoted: fall back on the current primary. */
  function ResetTarget(s: ClusterStatus, o: Observation): ClusterStatus {
    var e := s.(readyInstances := o.readyInstances, hasFailedPods := o.hasFailedPods);
    if e.targetPrimary != e.currentPrimary && e.currentPrimary != "" &&
       !(e.readyInstances > 0 && e.targetPrimary in o.activePods)
    then e.(targetPrimary := e.currentPrimary)
    else e
  }

  /** Seconds the current primary must have been failing for. */
  function RequiredDelay(c: ClusterStatus, spec: ClusterSpec): int {
    if c.phase == OnlineUpgrading && ONLINE_UPGRADE_FAILOVER_DELAY > spec.failoverDelay
    then ONLINE_UPGRADE_FAILOVER_DELAY
    else spec.failoverDelay
  }

  predicate IsDelayed(c: ClusterStatus, spec: ClusterSpec) {
    c.phase == OnlineUpgrading || spec.failoverDelay != 0
  }

  function Stamp(c: ClusterStatus, spec: ClusterSpec, o: Observation): (d: ClusterStatus)
    ensures IsDelayed(c, spec) ==> d.failingSince.Some?
  {
    if IsDelayed(c, spec) && c.failingSince.None? then c.(failingSince := Some(o.stampedAt)) else c
  }

  predicate DelayPending(d: ClusterStatus, spec: ClusterSpec, o: Observation)
    requires IsDelayed(d, spec) ==> d.failingSince.Some?
  {
    IsDelayed(d, spec) && RequiredDelay(d, spec) > o.checkedAt - d.failingSince.value
  }

  ghost function ElectForNonReplica(c: ClusterStatus, spec: ClusterSpec, o: Observation): Plan
    requires o.list.items != []
  {
    var head := o.list.items[0];
    var d := Stamp(c, spec, o);
    var stamp := Save(c, d);
    var guarded := c.targetPrimary == c.currentPrimary && spec.failoverQuorum;
    if c.targetPrimary == head.pod || head.failed then Plan([], Completed)
    else if DelayPending(d, spec, o) then Plan(stamp, Waiting)
    else if guarded && o.lookup.LookupError? then Plan(stamp, Failed)
    else if guarded && !QuorumCheck(o.lookup, o.list.items) then Plan(stamp, Completed)
    else
      var replaced := ReplacePrimary(d, o);
      Plan(stamp + replaced.writes, replaced.outcome)
  }

  /** The election once nothing forbids it. */
  function ReplacePrimary(d: ClusterStatus, o: Observation): Plan
    requires o.list.items != []
  {
    var failingOver := d.targetPrimary == d.currentPrimary;
    var f := d.(phase := FailOver);
    var p := if failingOver then f.(targetPrimary := PENDING_FAILOVER_MARKER) else d;
    var begun := if failingOver then [f, p] else [];
    if !AreWalReceiversDown(o.list, d.currentPrimary) then Plan(begun, Waiting)
    else
      var head := o.list.items[0];
      var q := p.(phase := if p.targetPrimary == PENDING_FAILOVER_MARKER then FailOver else Switchover);
      Plan(begun + [q, q.(targetPrimary := head.pod)], Selected(head.pod))
  }

  function ElectForReplica(c: ClusterStatus, spec: ClusterSpec, o: Observation): Plan
    requires o.list.items != []
  {
    var head := o.list.items[0];
    var d := Stamp(c, spec, o);
    var stamp := Save(c, d);
    if exists s :: s in o.list.items && s.pod == c.targetPrimary then Plan([], Completed)
    else if DelayPending(d, spec, o) then Plan(stamp, Waiting)
    else if !AreWalReceiversDown(o.list, c.currentPrimary) then Plan(stamp, Waiting)
    else
      var q := d.(phase := FailOver);
      Plan(stamp + [q, q.(targetPrimary := head.pod)], Selected(head.pod))
  }

  predicate IsUnschedulable(o: Observation, node: string) {
    node in o.unschedulable && o.unschedulable[node]
  }

  /** The current primary heads the list and runs on a node that is being drained. */
  predicate PrimaryIsDrained(c: ClusterStatus, spec: ClusterSpec, o: Observation) {
    o.list.items != [] &&
    var head := o.list.items[0];
    (head.isPrimary || (spec.isReplica && head.isPodReady)) &&
    head.pod == c.currentPrimary == c.targetPrimary && IsUnschedulable(o, head.node)
  }

  function PodsOnOtherNodes(items: seq<InstanceStatus>, primary: InstanceStatus): seq<InstanceStatus> {
    if items == [] then []
    else
      var last := items[|items| - 1];
      PodsOnOtherNodes(items[..|items| - 1], primary) +
      if last.pod != primary.pod && last.node != primary.node then [last] else []
  }

  predicate CanTakeOver(o: Observation, s: InstanceStatus) {
    !IsUnschedulable(o, s.node) && s.isPodReady && s.isWalReceiverActive
  }

  function FirstSuccessor(o: Observation, candidates: seq<InstanceStatus>): Option<string> {
    if candidates == [] then None
    else if CanTakeOver(o, candidates[0]) then Some(candidates[0].pod)
    else FirstSuccessor(o, candidates[1..])
  }

  function MoveToSchedulableNode(c: ClusterStatus, spec: ClusterSpec, o: Observation): Plan
    requires o.list.items != []
  {
    var others := PodsOnOtherNodes(o.list.items, o.list.items[0]);
    if !c.hasFailedPods && (spec.instances != c.readyInstances || |others| < spec.instances - 1)
    then Plan([], Completed)
    else match FirstSuccessor(o, others)
      case None => Plan([], Completed)
      case Some(name) =>
        var q := c.(phase := Switchover);
        Plan([q, q.(targetPrimary := name)], Selected(name))
  }

  ghost function ReconcileTargetPrimary(c: ClusterStatus, spec: ClusterSpec, o: Observation): Plan {
    if o.list.items == [] then Plan([], Completed)
    else if PrimaryIsDrained(c, spec, o) then MoveToSchedulableNode(c, spec, o)
    else if spec.isReplica then ElectForReplica(c, spec, o)
    else ElectForNonReplica(c, spec, o)
  }

  function Last(c: ClusterStatus, writes: seq<ClusterStatus>): ClusterStatus {
    if writes == [] then c else writes[|writes| - 1]
  }

  ghost function HandleSwitchover(c: ClusterStatus, spec: ClusterSpec, o: Observation): Plan {
    if spec.IsFenced(c.currentPrimary) || ReportingMightBeUnavailable(o.list, c.currentPrimary) then Plan([], Skipped)
    else if c.phase == InplaceDeletePrimaryRestart then
      Plan(if c.readyInstances != spec.instances then [] else [c.(phase := Healthy)], Skipped)
    else
      var plan := ReconcileTargetPrimary(c, spec, o);
      if plan.outcome != Completed then plan
      else
        var e := Last(c, plan.writes);
        Plan(plan.writes + Save(e, e.(failingSince := None)), Completed)
  }

  /** A hook ends the pass, or a switchover is in progress. */
  predicate StopsAtGuards(r: ClusterStatus, o: Observation) {
    o.hookStops || (r.currentPrimary != "" && r.currentPrimary != r.targetPrimary)
  }

  predicate HeadAwaitsReadiness(list: StatusList) {
    list.items != [] && !list.items[0].failed && !list.items[0].isPodReady
  }

  /** The pass once the status was updated. */
  ghost function Rest(r: ClusterStatus, spec: ClusterSpec, o: Observation): Plan {
    if StopsAtGuards(r, o) then Plan([], Stopped)
    else if o.promotes then
      var promoting := r.(phase := REPLICA_CLUSTER_PROMOTION);
      Plan(if r.phase in {REPLICA_CLUSTER_PROMOTION, UNRECOVERABLE} then [] else [promoting], Stopped)
    else if o.refused then Plan([], Failed)
    else if |PrimaryNames(o.list.items)| > 1 then Plan([], Stopped)
    else if AllReadyInstancesUnreachable(o.list) then Plan([r.(phase := STATUS_EXTRACTION_ERROR)], Stopped)
    else if o.fullDisk then Plan([r.(phase := NOT_ENOUGH_DISK_SPACE)], Stopped)
    else if o.pluginMissing || (spec.isReplica && o.switching) then Plan([], Stopped)
    else if HeadAwaitsReadiness(o.list) || o.hibernating then Plan([], Stopped)
    else HandleSwitchover(r, spec, o)
  }

  ghost function Pass(s: ClusterStatus, spec: ClusterSpec, o: Observation): Plan {
    match o.preparation
    case Aborted => Plan([], Stopped)
    case AbortedWith(phase) => Plan([s.(phase := phase)], Stopped)
    case Prepared =>
      var r := ResetTarget(s, o);
      var rest := Rest(r, spec, o);
      Plan(Save(s, r) + rest.writes, rest.outcome)
  }

  /** The outcome of performing `plan` on an API server that accepts a limited number of writes. */
  predicate Performed(stored: ClusterStatus, cluster: ClusterStatus, accepts: nat, plan: Plan,
                      stored': ClusterStatus, cluster': ClusterStatus, accepts': nat, outcome: Outcome) {
    && stored' == After(stored, plan.writes, accepts)
    && if |plan.writes| <= accepts
       then accepts' == accepts - |plan.writes| && cluster' == Last(cluster, plan.writes) && outcome == plan.outcome
       else accepts' == 0 && outcome == Failed
  }

  lemma AfterAll(s: ClusterStatus, writes: seq<ClusterStatus>, accepts: nat)
    requires |writes| <= accepts
    ensures After(s, writes, accepts) == Last(s, writes)
  {
  }

  lemma AfterConcat(s: ClusterStatus, a: seq<ClusterStatus>, b: seq<ClusterStatus>, accepts: nat)
    ensures After(s, a + b, accepts) ==
            if accepts <= |a| then After(s, a, accepts) else After(Last(s, a), b, accepts - |a|)
  {
  }

  class ClusterReconciler {
    const spec: ClusterSpec
    var stored: ClusterStatus   // the status kept by the API server
    var cluster: ClusterStatus  // the working copy of the running pass
    var accepts: nat            // how many more writes of this pass will succeed

    constructor (spec: ClusterSpec, stored: ClusterStatus)
      ensures this.spec == spec && this.stored == stored
    {
      this.spec, this.stored, this.cluster, this.accepts := spec, stored, stored, 0;
    }

    method Store() returns (ok: bool)
      modifies this
      ensures cluster == old(cluster)
      ensures ok <==> old(accepts) > 0
      ensures if ok then stored == cluster && accepts == old(accepts) - 1
              else stored == old(stored) && accepts == 0
    {
      ok := accepts > 0;
      if ok {
        stored, accepts := cluster, accepts - 1;
      }
    }

    method RegisterPhase(phase: Phase) returns (ok: bool)
      modifies this
      ensures cluster == old(cluster).(phase := phase)
      ensures ok <==> old(accepts) > 0
      ensures if ok then stored == cluster && accepts == old(accepts) - 1
              else stored == old(stored) && accepts == 0
    {
      cluster := cluster.(phase := phase);
      ok := Store();
    }

    method SetPrimaryInstance(pod: string) returns (ok: bool)
      modifies this
      ensures cluster == old(cluster).(targetPrimary := pod)
      ensures ok <==> old(accepts) > 0
      ensures if ok then stored == cluster && accepts == old(accepts) - 1
              else stored == old(stored) && accepts == 0
    {
      cluster := cluster.(targetPrimary := pod);
      ok := Store();
    }

    /** One evaluation of a delay in seconds: `go` tells that the failover may proceed. */
    method EvaluateFailoverDelay(delay: int, o: Observation) returns (ok: bool, go: bool)
      modifies this
      requires stored == cluster
      ensures delay == 0 ==> ok && go && cluster == old(cluster) && stored == cluster && accepts == old(accepts)
      ensures delay != 0 && old(cluster).failingSince.Some? ==>
        ok && cluster == old(cluster) && stored == cluster && accepts == old(accepts)
      ensures delay != 0 && old(cluster).failingSince.None? ==>
        if old(accepts) == 0 then !ok && stored == old(stored) && accepts == 0
        else ok && cluster == old(cluster).(failingSince := Some(o.stampedAt)) == stored && accepts == old(accepts) - 1
      ensures ok && delay != 0 ==>
        cluster.failingSince.Some? && (go <==> delay <= o.checkedAt - cluster.failingSince.value)
    {
      if delay == 0 {
        return true, true;
      }
      if cluster.failingSince.None? {
        cluster := cluster.(failingSince := Some(o.stampedAt));
        ok := Store();
        if !ok {
          return false, false;
        }
      }
      return true, delay <= o.checkedAt - cluster.failingSince.value;
    }

    /** The longer of the two delays that apply is the one that counts. */
    method EnforceFailoverDelay(o: Observation) returns (ok: bool, go: bool)
      modifies this
      requires stored == cluster
      ensures ok <==> |Save(old(cluster), Stamp(old(cluster), spec, o))| <= old(accepts)
      ensures ok ==> cluster == Stamp(old(cluster), spec, o) && stored == cluster
      ensures ok ==> accepts == old(accepts) - |Save(old(cluster), Stamp(old(cluster), spec, o))|
      ensures ok ==> (go <==> !DelayPending(cluster, spec, o))
      ensures !ok ==> stored == old(stored) && accepts == 0
    {
      if cluster.phase == OnlineUpgrading {
        ok, go := EvaluateFailoverDelay(ONLINE_UPGRADE_FAILOVER_DELAY, o);
        if !ok || !go {
          return;
        }
      }
      ok, go := EvaluateFailoverDelay(spec.failoverDelay, o);
    }

    method ElectNonReplica(o: Observation) returns (outcome: Outcome)
      requires o.list.items != [] && stored == cluster
      modifies this
      ensures Performed(old(stored), old(cluster), old(accepts), ElectForNonReplica(old(cluster), spec, o),
                        stored, cluster, accepts, outcome)
    {
      var mostAdvanced := o.list.items[0];
      if cluster.targetPrimary == mostAdvanced.pod {
        return Completed;
      }
      if mostAdvanced.failed {
        return Completed;
      }
      var ok, go := EnforceFailoverDelay(o);
      if !ok {
        return Failed;
      }
      if !go {
        return Waiting;
      }
      if cluster.targetPrimary == cluster.currentPrimary && spec.failoverQuorum {
        var verdict := EvaluateQuorumCheck(o.lookup, o.list.items);
        if verdict.VerdictError? {
          return Failed;
        }
        if !verdict.allowed {
          return Completed;
        }
      }
      ghost var d := Stamp(old(cluster), spec, o);
      AfterConcat(old(stored), Save(old(cluster), d), ReplacePrimary(d, o).writes, old(accepts));
      outcome := ElectHead(o);
    }

    /** Marks the failover as pending, waits for the WAL receivers, and names the head of the list. */
    method ElectHead(o: Observation) returns (outcome: Outcome)
      requires o.list.items != [] && stored == cluster
      modifies this
      ensures Performed(old(stored), old(cluster), old(accepts), ReplacePrimary(old(cluster), o),
                        stored, cluster, accepts, outcome)
    {
      var mostAdvanced := o.list.items[0];
      var ok;
      if cluster.targetPrimary == cluster.currentPrimary {
        ok := RegisterPhase(FailOver);
        if !ok {
          return Failed;
        }
        ok := SetPrimaryInstance(PENDING_FAILOVER_MARKER);
        if !ok {
          return Failed;
        }
      }
      if !AreWalReceiversDown(o.list, cluster.currentPrimary) {
        return Waiting;
      }
      if cluster.targetPrimary == PENDING_FAILOVER_MARKER {
        ok := RegisterPhase(FailOver);
      } else {
        ok := RegisterPhase(Switchover);
      }
      if !ok {
        return Failed;
      }
      ok := SetPrimaryInstance(mostAdvanced.pod);
      return if ok then Selected(mostAdvanced.pod) else Failed;
    }

    method ElectReplica(o: Observation) returns (outcome: Outcome)
      requires o.list.items != [] && stored == cluster
      modifies this
      ensures Performed(old(stored), old(cluster), old(accepts), ElectForReplica(old(cluster), spec, o),
                        stored, cluster, accepts, outcome)
    {
      for i := 0 to |o.list.items|
        invariant forall j :: 0 <= j < i ==> o.list.items[j].pod != cluster.targetPrimary
        invariant stored == cluster == old(cluster) && stored == old(stored) && accepts == old(accepts)
      {
        if o.list.items[i].pod == cluster.targetPrimary {
          return Completed;
        }
      }
      var ok, go := EnforceFailoverDelay(o);
      if !ok {
        return Failed;
      }
      if !go || !AreWalReceiversDown(o.list, cluster.currentPrimary) {
        return Waiting;
      }
      ok := RegisterPhase(FailOver);
      if !ok {
        return Failed;
      }
      ok := SetPrimaryInstance(o.list.items[0].pod);
      return if ok then Selected(o.list.items[0].pod) else Failed;
    }

    method GetPodsNotOnPrimaryNode(items: seq<InstanceStatus>, primary: InstanceStatus)
      returns (others: seq<InstanceStatus>)
      ensures others == PodsOnOtherNodes(items, primary)
    {
      others := [];
      for i := 0 to |items|
        invariant others == PodsOnOtherNodes(items[..i], primary)
      {
        assert items[..i + 1][..i] == items[..i];
        if items[i].pod != primary.pod && items[i].node != primary.node {
          others := others + [items[i]];
        }
      }
      assert items[..|items|] == items;
    }

    method FindSuccessor(o: Observation, candidates: seq<InstanceStatus>) returns (name: Option<string>)
      ensures name == FirstSuccessor(o, candidates)
    {
      for i := 0 to |candidates|
        invariant FirstSuccessor(o, candidates) == FirstSuccessor(o, candidates[i..])
      {
        if CanTakeOver(o, candidates[i]) {
          return Some(candidates[i].pod);
        }
      }
      return None;
    }

    method SetPrimaryOnSchedulableNode(o: Observation) returns (outcome: Outcome)
      requires o.list.items != [] && stored == cluster
      modifies this
      ensures Performed(old(stored), old(cluster), old(accepts), MoveToSchedulableNode(old(cluster), spec, o),
                        stored, cluster, accepts, outcome)
    {
      var others := GetPodsNotOnPrimaryNode(o.list.items, o.list.items[0]);
      if !cluster.hasFailedPods &&
         (spec.instances != cluster.readyInstances || |others| < spec.instances - 1) {
        return Completed;
      }
      var successor := FindSuccessor(o, others);
      if successor.None? {
        return Completed;
      }
      var ok := RegisterPhase(Switchover);
      if !ok {
        return Failed;
      }
      ok := SetPrimaryInstance(successor.value);
      return if ok then Selected(successor.value) else Failed;
    }

    method ReconcileTargetPrimaryFromPods(o: Observation) returns (outcome: Outcome)
      requires stored == cluster
      modifies this
      ensures Performed(old(stored), old(cluster), old(accepts), ReconcileTargetPrimary(old(cluster), spec, o),
                        stored, cluster, accepts, outcome)
    {
      if o.list.items == [] {
        return Completed;
      }
      if PrimaryIsDrained(cluster, spec, o) {
        outcome := SetPrimaryOnSchedulableNode(o);
      } else if spec.isReplica {
        outcome := ElectReplica(o);
      } else {
        outcome := ElectNonReplica(o);
      }
    }

    method PerformSwitchover(o: Observation) returns (outcome: Outcome)
      requires stored == cluster
      modifies this
      ensures Performed(old(stored), old(cluster), old(accepts), HandleSwitchover(old(cluster), spec, o),
                        stored, cluster, accepts, outcome)
    {
      if spec.IsFenced(cluster.currentPrimary) || ReportingMightBeUnavailable(o.list, cluster.currentPrimary) {
        return Skipped;
      }
      if cluster.phase == InplaceDeletePrimaryRestart {
        if cluster.readyInstances != spec.instances {
          return Skipped;
        }
        var ok := RegisterPhase(Healthy);
        return if ok then Skipped else Failed;
      }
      outcome := ReconcileTargetPrimaryFromPods(o);
      if outcome != Completed {
        return;
      }
      ghost var plan := ReconcileTargetPrimary(old(cluster), spec, o);
      ghost var e := Last(old(cluster), plan.writes);
      if cluster.failingSince.Some? {
        cluster := cluster.(failingSince := None);
        AfterConcat(old(stored), plan.writes, Save(e, cluster), old(accepts));
        var ok := Store();
        return if ok then Completed else Failed;
      }
    }

    /** Takes over what was observed, and undoes a target that cannot be promoted. */
    method UpdateResourceStatus(o: Observation) returns (ok: bool)
      modifies this
      ensures var r := ResetTarget(old(stored), o);
        var reset := Save(old(stored), r);
        && (ok <==> |reset| <= old(accepts))
        && (ok ==> stored == cluster == r && accepts == old(accepts) - |reset|)
        && (!ok ==> stored == old(stored) && accepts == 0)
    {
      cluster := stored.(readyInstances := o.readyInstances, hasFailedPods := o.hasFailedPods);
      if cluster.targetPrimary != cluster.currentPrimary && cluster.currentPrimary != "" {
        if !(cluster.readyInstances > 0 && cluster.targetPrimary in o.activePods) {
          cluster := cluster.(targetPrimary := cluster.currentPrimary);
        }
      }
      ok := true;
      if cluster != stored {
        ok := Store();
      }
    }

    /** The pass once the status was updated. */
    method Continue(o: Observation) returns (outcome: Outcome)
      requires stored == cluster
      modifies this
      ensures Performed(old(stored), old(cluster), old(accepts), Rest(old(cluster), spec, o),
                        stored, cluster, accepts, outcome)
    {
      if o.hookStops {
        return Stopped;
      }
      if cluster.currentPrimary != "" && cluster.currentPrimary != cluster.targetPrimary {
        return Stopped;
      }
      if o.promotes {
        if cluster.phase == REPLICA_CLUSTER_PROMOTION || cluster.phase == UNRECOVERABLE {
          return Stopped;
        }
        var ok := RegisterPhase(REPLICA_CLUSTER_PROMOTION);
        return if ok then Stopped else Failed;
      }
      if o.refused {
        return Failed;
      }
      if |PrimaryNames(o.list.items)| > 1 {
        return Stopped;
      }
      if AllReadyInstancesUnreachable(o.list) {
        var ok := RegisterPhase(STATUS_EXTRACTION_ERROR);
        return if ok then Stopped else Failed;
      }
      if o.fullDisk {
        var ok := RegisterPhase(NOT_ENOUGH_DISK_SPACE);
        return if ok then Stopped else Failed;
      }
      if o.pluginMissing || (spec.isReplica && o.switching) {
        return Stopped;
      }
      if HeadAwaitsReadiness(o.list) || o.hibernating {
        return Stopped;
      }
      outcome := PerformSwitchover(o);
    }

    /** The whole pass: what is stored is always a prefix of the planned writes. */
    method Reconcile(o: Observation) returns (outcome: Outcome)
      modifies this
      ensures var plan := Pass(old(stored), spec, o);
        && stored == After(old(stored), plan.writes, old(accepts))
        && outcome == if |plan.writes| <= old(accepts) then plan.outcome else Failed
    {
      match o.preparation {
        case Aborted => return Stopped;
        case AbortedWith(phase) =>
          cluster := stored;
          var ok := RegisterPhase(phase);
          return if ok then Stopped else Failed;
        case Prepared =>
      }
      ghost var r := ResetTarget(stored, o);
      AfterConcat(stored, Save(stored, r), Rest(r, spec, o).writes, accepts);
      var ok := UpdateResourceStatus(o);
      if !ok {
        return Failed;
      }
      outcome := Continue(o);
    }
  }
}
