/** Rolling updates: which pod needs one, which pod is acted upon next, and why the update ends. */
module Rollout {
  import opened Names

  datatype Check =
    | MissingPvcs | ProjectedVolume | PodImage | RestartAnnotation
    | PodSpec
    | Environment | Scheduler | Topology | BootstrapImage

  datatype Finding = UpToDate | Outdated | CheckFailed

  datatype PodReport = PodReport(findings: map<Check, Finding>, podSpecReconciliation: bool, hasValidPodSpec: bool)
  {
    predicate IsOutdated(c: Check) { c in findings && findings[c] == Outdated }
  }

  datatype Needs = Needs(required: bool, canBeInPlace: bool, primaryForceRecreate: bool)

  const NOTHING := Needs(false, false, false)

  const COMMON_CHECKS := {MissingPvcs, ProjectedVolume, PodImage, RestartAnnotation}
  const LEGACY_CHECKS := {Environment, Scheduler, Topology, BootstrapImage}

  /** Go iterates over the checkers in an order that changes from call to call: each is visited once. */
  ghost predicate Order(order: seq<Check>, checks: set<Check>) {
    && (forall c :: c in order <==> c in checks)
    && (forall i, j :: 0 <= i < j < |order| ==> order[i] != order[j])
  }

  function NeedsBecause(c: Check): Needs { Needs(true, false, c == MissingPvcs) }

  function FirstOutdated(pod: PodReport, order: seq<Check>): Needs {
    if order == [] then NOTHING
    else if pod.IsOutdated(order[0]) then NeedsBecause(order[0])
    else FirstOutdated(pod, order[1..])
  }

  method ApplyCheckers(pod: PodReport, order: seq<Check>) returns (n: Needs)
    ensures n == FirstOutdated(pod, order)
  {
    for i := 0 to |order|
      invariant FirstOutdated(pod, order) == FirstOutdated(pod, order[i..])
    {
      if pod.IsOutdated(order[i]) {
        return NeedsBecause(order[i]);
      }
    }
    return NOTHING;
  }

  function PodNeeds(pod: PodReport, common: seq<Check>, legacy: seq<Check>): Needs {
    var n := FirstOutdated(pod, common);
    if n.required then n
    else if !pod.podSpecReconciliation then NOTHING
    else if pod.hasValidPodSpec then FirstOutdated(pod, [PodSpec])
    else FirstOutdated(pod, legacy)
  }

  method IsPodNeedingRollout(pod: PodReport, common: seq<Check>, legacy: seq<Check>) returns (n: Needs)
    ensures n == PodNeeds(pod, common, legacy)
  {
    n := ApplyCheckers(pod, common);
    if n.required {
      return;
    }
    if !pod.podSpecReconciliation {
      return NOTHING;
    }
    if pod.hasValidPodSpec {
      n := ApplyCheckers(pod, [PodSpec]);
      return;
    }
    n := ApplyCheckers(pod, legacy);
  }

  lemma {:induction false} FirstOutdatedFindsOne(pod: PodReport, order: seq<Check>)
    ensures var n := FirstOutdated(pod, order);
      && (n.required <==> exists c :: c in order && pod.IsOutdated(c))
      && (n.required ==> exists c :: c in order && pod.IsOutdated(c) && n == NeedsBecause(c))
      && (!n.required ==> n == NOTHING)
  {
    if order != [] && !pod.IsOutdated(order[0]) {
      FirstOutdatedFindsOne(pod, order[1..]);
      assert forall c :: c in order <==> c == order[0] || c in order[1..];
    }
  }

  /** Whether a pod needs a rollout does not depend on the order in which the checkers run. */
  lemma NeedIgnoresOrder(pod: PodReport, common: seq<Check>, legacy: seq<Check>)
    requires Order(common, COMMON_CHECKS) && Order(legacy, LEGACY_CHECKS)
    ensures PodNeeds(pod, common, legacy).required <==>
      (exists c :: c in COMMON_CHECKS && pod.IsOutdated(c)) ||
      (pod.podSpecReconciliation && pod.hasValidPodSpec && pod.IsOutdated(PodSpec)) ||
      (pod.podSpecReconciliation && !pod.hasValidPodSpec && exists c :: c in LEGACY_CHECKS && pod.IsOutdated(c))
  {
    FirstOutdatedFindsOne(pod, common);
    FirstOutdatedFindsOne(pod, legacy);
    FirstOutdatedFindsOne(pod, [PodSpec]);
  }

  lemma {:induction false} PrefixDecides(pod: PodReport, a: seq<Check>, b: seq<Check>)
    requires FirstOutdated(pod, a).required
    ensures FirstOutdated(pod, a + b) == FirstOutdated(pod, a)
  {
    assert (a + b)[0] == a[0] && (a + b)[1..] == a[1..] + b;
    if !pod.IsOutdated(a[0]) {
      PrefixDecides(pod, a[1..], b);
    }
  }

  /** Whether some order of the common checkers leads to a forced recreation, and some order does not. */
  ghost predicate DependsOnOrder(pod: PodReport, legacy: seq<Check>) {
    exists a, b :: Order(a, COMMON_CHECKS) && Order(b, COMMON_CHECKS) &&
      PodNeeds(pod, a, legacy).primaryForceRecreate && !PodNeeds(pod, b, legacy).primaryForceRecreate
  }

  /**
   Whether a primary is recreated in place rather than switched over may depend on that order: it does
   exactly when PVCs are missing and another of the common checks is outdated as well.
   */
  lemma ForcedRecreationDependsOnOrderExactly(pod: PodReport, legacy: seq<Check>)
    requires Order(legacy, LEGACY_CHECKS)
    ensures DependsOnOrder(pod, legacy) <==>
            pod.IsOutdated(MissingPvcs) && exists c :: c in COMMON_CHECKS - {MissingPvcs} && pod.IsOutdated(c)
  {
    forall a | Order(a, COMMON_CHECKS)
      ensures PodNeeds(pod, a, legacy).primaryForceRecreate ==> pod.IsOutdated(MissingPvcs)
      ensures pod.IsOutdated(MissingPvcs) && !PodNeeds(pod, a, legacy).primaryForceRecreate ==>
              exists c :: c in COMMON_CHECKS - {MissingPvcs} && pod.IsOutdated(c)
    {
      RecreationNeedsMissingPvcs(pod, a, legacy);
    }
    if pod.IsOutdated(MissingPvcs) && exists c :: c in COMMON_CHECKS - {MissingPvcs} && pod.IsOutdated(c) {
      TwoOrdersDiffer(pod, legacy);
    }
  }

  lemma RecreationNeedsMissingPvcs(pod: PodReport, a: seq<Check>, legacy: seq<Check>)
    requires Order(a, COMMON_CHECKS) && Order(legacy, LEGACY_CHECKS)
    ensures PodNeeds(pod, a, legacy).primaryForceRecreate ==> pod.IsOutdated(MissingPvcs)
    ensures pod.IsOutdated(MissingPvcs) && !PodNeeds(pod, a, legacy).primaryForceRecreate ==>
            exists c :: c in COMMON_CHECKS - {MissingPvcs} && pod.IsOutdated(c)
  {
    FirstOutdatedFindsOne(pod, a);
    FirstOutdatedFindsOne(pod, legacy);
    FirstOutdatedFindsOne(pod, [PodSpec]);
    assert MissingPvcs in a;
  }

  lemma TwoOrdersDiffer(pod: PodReport, legacy: seq<Check>)
    requires pod.IsOutdated(MissingPvcs) && exists c :: c in COMMON_CHECKS - {MissingPvcs} && pod.IsOutdated(c)
    ensures DependsOnOrder(pod, legacy)
  {
    var others := [ProjectedVolume, PodImage, RestartAnnotation];
    FirstOutdatedFindsOne(pod, others);
    PrefixDecides(pod, others, [MissingPvcs]);
    TwoOrders();
    assert PodNeeds(pod, FIRST, legacy) == NeedsBecause(MissingPvcs);
    assert !PodNeeds(pod, LAST, legacy).primaryForceRecreate;
  }

  const FIRST := [MissingPvcs] + [ProjectedVolume, PodImage, RestartAnnotation]
  const LAST := [ProjectedVolume, PodImage, RestartAnnotation] + [MissingPvcs]

  lemma TwoOrders()
    ensures Order(FIRST, COMMON_CHECKS) && Order(LAST, COMMON_CHECKS)
  {
  }

  datatype Instance = Instance(
    pod: string,
    isPodReady: bool,
    mightBeUnavailable: bool,
    reportsExecutableHash: bool,
    report: PodReport,
    pendingRestart: bool,
    pendingRestartForDecrease: bool,
    isWalReceiverActive: bool)

  function InstanceNeeds(i: Instance, common: seq<Check>, legacy: seq<Check>): Needs {
    if !i.isPodReady || i.mightBeUnavailable then NOTHING
    else if !i.reportsExecutableHash then Needs(true, false, false)
    else
      var n := PodNeeds(i.report, common, legacy);
      if n.required then n else if i.pendingRestart then Needs(true, true, false) else NOTHING
  }

  datatype UpdateMethod = Restart | Switchover

  datatype Cluster = Cluster(
    currentPrimary: string,
    instances: int,
    fenced: set<string>,
    supervised: bool,
    updateMethod: UpdateMethod)
  {
    predicate IsFenced(pod: string) { "*" in fenced || pod in fenced }
  }

  datatype Action =
    | Idle
    | Recreate(pod: string)
    | RestartInPlace(pod: string)
    | SwitchTo(pod: string)
    | AwaitUser
    | Delayed
    | LogShippingReplicaElected
    | PrimaryMissing

  predicate Acts(a: Action) { a.Recreate? || a.RestartInPlace? || a.SwitchTo? }

  /** What a rollout reads: the instances, the order of the checkers, and which pods the coordinator lets go. */
  datatype View = View(items: seq<Instance>, common: seq<Check>, legacy: seq<Check>, allowed: set<string>)
  {
    function NeedsOf(i: Instance): Needs { InstanceNeeds(i, common, legacy) }
  }

  predicate IsReplicaToUpdate(c: Cluster, v: View, i: Instance) {
    i.pod != c.currentPrimary && !c.IsFenced(i.pod) && v.NeedsOf(i).required
  }

  method UpdatePrimaryPod(c: Cluster, v: View, primary: Instance, inPlacePossible: bool, forceRecreate: bool)
    returns (a: Action)
    requires primary.pod == c.currentPrimary
    ensures a == PrimaryAction(c, v.items, inPlacePossible, forceRecreate)
  {
    if c.supervised {
      return AwaitUser;
    }
    if c.updateMethod == Restart || forceRecreate {
      if inPlacePossible {
        return RestartInPlace(primary.pod);
      }
      return Recreate(primary.pod);
    }
    if c.instances > 1 && |v.items| > 1 {
      var target := v.items[1];
      if target.pod == primary.pod {
        target := v.items[0];
      }
      if !target.isWalReceiverActive {
        return LogShippingReplicaElected;
      }
      return SwitchTo(target.pod);
    }
    return Recreate(primary.pod);
  }

  function PrimaryAction(c: Cluster, items: seq<Instance>, inPlacePossible: bool, forceRecreate: bool): Action {
    if c.supervised then AwaitUser
    else if c.updateMethod == Restart || forceRecreate then
      if inPlacePossible then RestartInPlace(c.currentPrimary) else Recreate(c.currentPrimary)
    else if c.instances <= 1 || |items| <= 1 then Recreate(c.currentPrimary)
    else
      var successor := if items[1].pod == c.currentPrimary then items[0] else items[1];
      if successor.isWalReceiverActive then SwitchTo(successor.pod) else LogShippingReplicaElected
  }

  ghost predicate DistinctPods(items: seq<Instance>) {
    forall i, j :: 0 <= i < j < |items| ==> items[i].pod != items[j].pod
  }

  ghost predicate NoReplicaToUpdate(c: Cluster, v: View, from: nat) {
    forall k :: from <= k < |v.items| ==> !IsReplicaToUpdate(c, v, v.items[k])
  }

  /** What the current primary is due once no replica needs a rollout. */
  function PrimaryDue(c: Cluster, v: View, p: Instance): Action {
    var n := v.NeedsOf(p);
    if c.IsFenced(p.pod) || !n.required || p.pendingRestartForDecrease then Idle
    else if p.pod !in v.allowed then Delayed
    else PrimaryAction(c, v.items, n.canBeInPlace, n.primaryForceRecreate)
  }

  /**
   What a rollout call may do: act on the last listed replica that needs it; on the current primary only
   when no replica does; and on nothing else.
   */
  ghost predicate Decides(c: Cluster, v: View, a: Action) {
    || (exists k :: 0 <= k < |v.items| && IsReplicaToUpdate(c, v, v.items[k]) && NoReplicaToUpdate(c, v, k + 1) &&
         a == if v.items[k].pod in v.allowed then Recreate(v.items[k].pod) else Delayed)
    || (NoReplicaToUpdate(c, v, 0) && exists p :: p in v.items && p.pod == c.currentPrimary && a == PrimaryDue(c, v, p))
    || (NoReplicaToUpdate(c, v, 0) && a == PrimaryMissing && forall p :: p in v.items ==> p.pod != c.currentPrimary)
  }

  method RolloutRequiredInstances(c: Cluster, v: View) returns (a: Action)
    ensures Decides(c, v, a)
  {
    var primary: Option<Instance> := None;
    var i := |v.items|;
    while i > 0
      invariant 0 <= i <= |v.items|
      invariant NoReplicaToUpdate(c, v, i)
      invariant primary.None? ==> forall k :: i <= k < |v.items| ==> v.items[k].pod != c.currentPrimary
      invariant primary.Some? ==> primary.value in v.items && primary.value.pod == c.currentPrimary
    {
      i := i - 1;
      var instance := v.items[i];
      if instance.pod == c.currentPrimary {
        primary := Some(instance);
        continue;
      }
      if c.IsFenced(instance.pod) || !v.NeedsOf(instance).required {
        continue;
      }
      if instance.pod !in v.allowed {
        return Delayed;
      }
      return Recreate(instance.pod);
    }
    if primary.None? {
      return PrimaryMissing;
    }
    var p := primary.value;
    if c.IsFenced(p.pod) || !v.NeedsOf(p).required || p.pendingRestartForDecrease {
      return Idle;
    }
    if p.pod !in v.allowed {
      return Delayed;
    }
    var n := v.NeedsOf(p);
    a := UpdatePrimaryPod(c, v, p, n.canBeInPlace, n.primaryForceRecreate);
  }

  // ---- What the decision means for the instances ----

  /** Some check that applies to the pod finds it outdated. */
  ghost predicate HasOutdatedCheck(pod: PodReport) {
    exists c :: c in pod.findings && pod.findings[c] == Outdated &&
      (c in {MissingPvcs, ProjectedVolume, PodImage, RestartAnnotation} ||
       (pod.podSpecReconciliation && pod.hasValidPodSpec && c == PodSpec) ||
       (pod.podSpecReconciliation && !pod.hasValidPodSpec && c in {Environment, Scheduler, Topology, BootstrapImage}))
  }

  /** All that an update has to do something about. */
  ghost predicate IsDue(i: Instance) {
    i.isPodReady && !i.mightBeUnavailable &&
    (!i.reportsExecutableHash || i.pendingRestart || HasOutdatedCheck(i.report))
  }

  ghost predicate NeedsOnlyRestart(i: Instance) {
    IsDue(i) && i.reportsExecutableHash && !HasOutdatedCheck(i.report)
  }

  ghost predicate VisitsAllChecks(v: View) {
    Order(v.common, COMMON_CHECKS) && Order(v.legacy, LEGACY_CHECKS)
  }

  /** In any order of the checkers: which instances need something, and which of them a restart is enough for. */
  lemma NeedsExactly(v: View, i: Instance)
    requires VisitsAllChecks(v)
    ensures v.NeedsOf(i).required <==> IsDue(i)
    ensures v.NeedsOf(i).canBeInPlace <==> NeedsOnlyRestart(i)
    ensures v.NeedsOf(i).primaryForceRecreate ==>
      IsDue(i) && MissingPvcs in i.report.findings && i.report.findings[MissingPvcs] == Outdated
  {
    CheckNeedsExactly(i.report, v.common, v.legacy);
  }

  lemma CheckNeedsExactly(pod: PodReport, common: seq<Check>, legacy: seq<Check>)
    requires Order(common, COMMON_CHECKS) && Order(legacy, LEGACY_CHECKS)
    ensures var n := PodNeeds(pod, common, legacy);
      && (n.required <==> HasOutdatedCheck(pod))
      && !n.canBeInPlace
      && (n.primaryForceRecreate ==>
            n.required && MissingPvcs in pod.findings && pod.findings[MissingPvcs] == Outdated)
  {
    FirstOutdatedFindsOne(pod, common);
    FirstOutdatedFindsOne(pod, legacy);
    FirstOutdatedFindsOne(pod, [PodSpec]);
  }

  /** The call determines its outcome: at most one action is possible. */
  lemma DecisionIsUnique(c: Cluster, v: View, a: Action, b: Action)
    requires DistinctPods(v.items) && Decides(c, v, a) && Decides(c, v, b)
    ensures a == b
  {
  }

  /** Instances that are fenced, one by one or all together. */
  ghost predicate Spared(c: Cluster, pod: string) { "*" in c.fenced || pod in c.fenced }

  ghost predicate NoReplicaIsDue(c: Cluster, v: View, from: nat) {
    forall j :: from <= j < |v.items| ==>
      v.items[j].pod == c.currentPrimary || Spared(c, v.items[j].pod) || !IsDue(v.items[j])
  }

  /** The current primary is only touched, or replaced, when no unfenced replica needs a rollout. */
  lemma PrimaryIsRolledOutLast(c: Cluster, v: View, a: Action, i: Instance)
    requires VisitsAllChecks(v)
    requires DistinctPods(v.items) && Decides(c, v, a) && Acts(a) && (a.SwitchTo? || a.pod == c.currentPrimary)
    requires i in v.items && i.pod != c.currentPrimary && !Spared(c, i.pod)
    ensures !IsDue(i)
  {
    var k :| 0 <= k < |v.items| && v.items[k] == i;
    assert NoReplicaToUpdate(c, v, 0) && !IsReplicaToUpdate(c, v, v.items[k]);
    NeedsExactly(v, i);
  }

  /**
   What is acted upon is not fenced, was let go, and is due; among the replicas it is the last one listed, which
   lags most.
   */
  lemma ActsOnDueInstance(c: Cluster, v: View, a: Action) returns (k: nat)
    requires VisitsAllChecks(v) && DistinctPods(v.items) && Decides(c, v, a) && Acts(a)
    ensures k < |v.items| && v.items[k].pod == if a.SwitchTo? then c.currentPrimary else a.pod
    ensures IsDue(v.items[k]) && !Spared(c, v.items[k].pod) && v.items[k].pod in v.allowed
    ensures v.items[k].pod != c.currentPrimary ==> a.Recreate? && NoReplicaIsDue(c, v, k + 1)
    ensures v.items[k].pod == c.currentPrimary ==> !v.items[k].pendingRestartForDecrease
  {
    if NoReplicaToUpdate(c, v, 0) {
      var p :| p in v.items && p.pod == c.currentPrimary && a == PrimaryDue(c, v, p);
      k :| 0 <= k < |v.items| && v.items[k] == p;
    } else {
      k :| 0 <= k < |v.items| && IsReplicaToUpdate(c, v, v.items[k]) && NoReplicaToUpdate(c, v, k + 1) &&
        a == Recreate(v.items[k].pod);
      forall j | k < j < |v.items| && v.items[j].pod != c.currentPrimary && !Spared(c, v.items[j].pod)
        ensures !IsDue(v.items[j])
      {
        assert !IsReplicaToUpdate(c, v, v.items[j]);
        NeedsExactly(v, v.items[j]);
      }
    }
    NeedsExactly(v, v.items[k]);
  }

  /** A call that waits for the coordinator found something due that it does not let go yet. */
  lemma DelayedMeansHeldBack(c: Cluster, v: View, a: Action) returns (i: Instance)
    requires VisitsAllChecks(v) && DistinctPods(v.items) && Decides(c, v, a) && a == Delayed
    ensures i in v.items && IsDue(i) && i.pod !in v.allowed && !Spared(c, i.pod)
  {
    if NoReplicaToUpdate(c, v, 0) {
      i :| i in v.items && i.pod == c.currentPrimary && a == PrimaryDue(c, v, i);
    } else {
      var k :| 0 <= k < |v.items| && IsReplicaToUpdate(c, v, v.items[k]) && NoReplicaToUpdate(c, v, k + 1) &&
        a == (if v.items[k].pod in v.allowed then Recreate(v.items[k].pod) else Delayed);
      i := v.items[k];
    }
    NeedsExactly(v, i);
  }

  /** The current primary is all that is left to do, and nothing holds it back. */
  ghost predicate OnlyPrimaryIsDue(c: Cluster, v: View, p: Instance) {
    && p in v.items && p.pod == c.currentPrimary && IsDue(p)
    && !Spared(c, p.pod) && p.pod in v.allowed && !p.pendingRestartForDecrease
    && forall i :: i in v.items && i.pod != p.pod && !Spared(c, i.pod) ==> !IsDue(i)
  }

  /**
   How the primary is updated: the user is waited for when asked to; a primary that only needs a restart is
   restarted in place, and one with an outdated pod is recreated, when the method is a restart or PVCs are missing;
   otherwise its role is handed over first, if there is anybody to take it.
   */
  lemma PrimaryIsUpdatedExactly(c: Cluster, v: View, a: Action, p: Instance)
    requires VisitsAllChecks(v) && DistinctPods(v.items) && Decides(c, v, a) && OnlyPrimaryIsDue(c, v, p)
    ensures var stays := c.updateMethod == Restart || v.NeedsOf(p).primaryForceRecreate;
      && (a == AwaitUser <==> c.supervised)
      && (a == RestartInPlace(p.pod) <==> !c.supervised && c.updateMethod == Restart && NeedsOnlyRestart(p))
      && (a == Recreate(p.pod) <==>
            !c.supervised && if stays then !NeedsOnlyRestart(p) else c.instances <= 1 || |v.items| <= 1)
      && (a.SwitchTo? || a == LogShippingReplicaElected <==>
            !c.supervised && !stays && c.instances > 1 && |v.items| > 1)
  {
    NeedsExactly(v, p);
    forall k | 0 <= k < |v.items| ensures !IsReplicaToUpdate(c, v, v.items[k]) {
      NeedsExactly(v, v.items[k]);
    }
    var q :| q in v.items && q.pod == c.currentPrimary && a == PrimaryDue(c, v, q);
    assert q == p;
  }

  /** The first listed instance other than the current primary. */
  ghost predicate IsFirstReplica(c: Cluster, items: seq<Instance>, pod: string) {
    pod != c.currentPrimary &&
    exists i :: 0 <= i < |items| && items[i].pod == pod && forall j :: 0 <= j < i ==> items[j].pod == c.currentPrimary
  }

  /**
   The instance that takes over before the primary is updated is streaming, but it is the first listed one,
   the most advanced, exactly when the current primary is one of the first two.
   */
  lemma SuccessorIsFirstExactly(c: Cluster, v: View, a: Action)
    requires DistinctPods(v.items) && Decides(c, v, a) && a.SwitchTo?
    ensures a.pod != c.currentPrimary && exists i :: i in v.items && i.pod == a.pod && i.isWalReceiverActive
    ensures |v.items| > 1
    ensures IsFirstReplica(c, v.items, a.pod) <==> c.currentPrimary in {v.items[0].pod, v.items[1].pod}
  {
    var p :| p in v.items && p.pod == c.currentPrimary && a == PrimaryDue(c, v, p);
    var items := v.items;
    if c.currentPrimary == items[1].pod {
      assert items[0].pod == a.pod && items[0] in items;
    } else {
      assert items[1].pod == a.pod && items[1] in items;
    }
  }

  /** The hand-over is refused only when one of the first two listed instances, a replica, is not streaming. */
  lemma RefusalMeansNotStreaming(c: Cluster, v: View, a: Action) returns (i: Instance)
    requires DistinctPods(v.items) && Decides(c, v, a) && a == LogShippingReplicaElected
    ensures |v.items| > 1 && i in v.items[..2] && i.pod != c.currentPrimary && !i.isWalReceiverActive
  {
    var p :| p in v.items && p.pod == c.currentPrimary && a == PrimaryDue(c, v, p);
    i := if v.items[1].pod == c.currentPrimary then v.items[0] else v.items[1];
    assert v.items[..2] == [v.items[0], v.items[1]];
  }

  // ---- The whole update ----

  ghost function Due(v: View): set<string> {
    set i | i in v.items && IsDue(i) :: i.pod
  }

  function Pods(v: View): set<string> {
    set i | i in v.items :: i.pod
  }

  /** Twice the pods that are due, plus one when the current primary is among them. */
  ghost function Remaining(c: Cluster, v: View): nat {
    2 * |Due(v)| + if c.currentPrimary in Due(v) then 1 else 0
  }

  /**
   What an action does to an instance: a recreated one comes back up to date, one that is restarted in place only
   loses its pending restart, and nothing changes for the others.
   */
  ghost predicate Becomes(a: Action, i: Instance, i': Instance) {
    i'.pod == i.pod &&
    if a == Recreate(i.pod) then !IsDue(i')
    else if a == RestartInPlace(i.pod) then IsDue(i') <==> IsDue(i.(pendingRestart := false))
    else IsDue(i') <==> IsDue(i)
  }

  /** An action changes its instance; a switchover moves the primary role. */
  ghost predicate Takes(c: Cluster, v: View, a: Action, c': Cluster, v': View)
    requires Acts(a)
  {
    && VisitsAllChecks(v') && DistinctPods(v'.items) && Pods(v') == Pods(v)
    && c' == (if a.SwitchTo? then c.(currentPrimary := a.pod) else c)
    && forall i, i' :: i in v.items && i' in v'.items && i'.pod == i.pod ==> Becomes(a, i, i')
  }

  /** Each acting call brings the update closer to its end, the switchover included. */
  lemma RolloutMakesProgress(c: Cluster, v: View, a: Action, c': Cluster, v': View)
    requires VisitsAllChecks(v)
    requires c.fenced == {} && DistinctPods(v.items) && Decides(c, v, a) && Acts(a) && Takes(c, v, a, c', v')
    ensures Remaining(c', v') < Remaining(c, v)
    ensures a.pod == c.currentPrimary || a.SwitchTo? ==> Due(v) == {c.currentPrimary}
  {
    var due, due' := Due(v), Due(v');
    var k := ActsOnDueInstance(c, v, a);
    assert v.items[k].pod in due;
    if a.SwitchTo? || a.pod == c.currentPrimary {
      OnlyPrimaryIsLeft(c, v, a);
    }
    DueAfter(c, v, a, c', v');
    if !a.SwitchTo? {
      assert |due - {a.pod}| == |due| - 1;
    } else {
      SuccessorIsFirstExactly(c, v, a);
    }
  }

  /** An action takes its instance off what is due; a switchover leaves that alone. */
  lemma DueAfter(c: Cluster, v: View, a: Action, c': Cluster, v': View)
    requires VisitsAllChecks(v)
    requires c.fenced == {} && DistinctPods(v.items) && Decides(c, v, a) && Acts(a) && Takes(c, v, a, c', v')
    ensures Due(v') == if a.SwitchTo? then Due(v) else Due(v) - {a.pod}
  {
    if a.RestartInPlace? {
      RestartIsEnough(c, v, a);
    }
    forall pod | pod in Pods(v)
      ensures pod in Due(v') <==> pod in Due(v) && (a.SwitchTo? || pod != a.pod)
    {
      var i :| i in v.items && i.pod == pod;
      assert pod in Pods(v');
      var i' :| i' in v'.items && i'.pod == pod;
      assert Becomes(a, i, i');
      OneInstancePerPod(v, i);
      OneInstancePerPod(v', i');
    }
    assert Due(v) <= Pods(v) && Due(v') <= Pods(v);
  }

  lemma OneInstancePerPod(v: View, i: Instance)
    requires DistinctPods(v.items) && i in v.items
    ensures i.pod in Due(v) <==> IsDue(i)
  {
  }

  lemma RestartIsEnough(c: Cluster, v: View, a: Action)
    requires VisitsAllChecks(v) && DistinctPods(v.items) && Decides(c, v, a) && a.RestartInPlace?
    ensures forall i :: i in v.items && i.pod == a.pod ==> !IsDue(i.(pendingRestart := false))
  {
    var p :| p in v.items && p.pod == c.currentPrimary && a == PrimaryDue(c, v, p);
    NeedsExactly(v, p);
  }

  lemma OnlyPrimaryIsLeft(c: Cluster, v: View, a: Action)
    requires VisitsAllChecks(v) && c.fenced == {} && DistinctPods(v.items) && Decides(c, v, a) && Acts(a)
    requires a.SwitchTo? || a.pod == c.currentPrimary
    ensures Due(v) == {c.currentPrimary}
  {
    forall i | i in v.items && IsDue(i) ensures i.pod == c.currentPrimary {
      if i.pod != c.currentPrimary {
        PrimaryIsRolledOutLast(c, v, a, i);
      }
    }
    var k := ActsOnDueInstance(c, v, a);
    assert v.items[k].pod in Due(v);
  }

  /** With nothing holding the update back, a call that does not act finds nothing due. */
  lemma IdleMeansDone(c: Cluster, v: View, a: Action)
    requires VisitsAllChecks(v) && c.fenced == {} && DistinctPods(v.items) && Decides(c, v, a) && a == Idle
    requires forall i :: i in v.items ==> !i.pendingRestartForDecrease
    ensures forall i :: i in v.items ==> !IsDue(i)
  {
    assert NoReplicaToUpdate(c, v, 0);
    var p :| p in v.items && p.pod == c.currentPrimary && a == PrimaryDue(c, v, p);
    forall i | i in v.items ensures !IsDue(i) {
      var k :| 0 <= k < |v.items| && v.items[k] == i;
      assert !IsReplicaToUpdate(c, v, v.items[k]);
      assert i.pod == p.pod ==> i == p;
      NeedsExactly(v, i);
    }
  }

  ghost predicate Update(cs: seq<Cluster>, vs: seq<View>, acts: seq<Action>) {
    && |cs| == |vs| == |acts| + 1
    && cs[0].fenced == {} && VisitsAllChecks(vs[0]) && DistinctPods(vs[0].items)
    && forall i :: 0 <= i < |acts| ==>
         Acts(acts[i]) && Decides(cs[i], vs[i], acts[i]) && Takes(cs[i], vs[i], acts[i], cs[i + 1], vs[i + 1])
  }

  /** A rolling update takes at most two actions per due pod, plus one. */
  lemma {:induction false} RollingUpdateTerminates(cs: seq<Cluster>, vs: seq<View>, acts: seq<Action>, n: nat)
    requires Update(cs, vs, acts) && n <= |acts|
    ensures n + Remaining(cs[n], vs[n]) <= Remaining(cs[0], vs[0])
    ensures cs[n].fenced == {} && VisitsAllChecks(vs[n]) && DistinctPods(vs[n].items)
  {
    if n > 0 {
      RollingUpdateTerminates(cs, vs, acts, n - 1);
      assert Decides(cs[n - 1], vs[n - 1], acts[n - 1]);
      RolloutMakesProgress(cs[n - 1], vs[n - 1], acts[n - 1], cs[n], vs[n]);
    }
  }
}
