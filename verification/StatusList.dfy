/** The list of instance reports and the order in which candidates are considered for promotion. */
module StatusList {
  import opened Names

  /** One instance report. `failed` tells that the report could not be collected. */
  datatype InstanceStatus = InstanceStatus(
    pod: string,
    node: string,
    failed: bool,
    isPrimary: bool,
    isPodReady: bool,
    isPodActive: bool,
    mightBeUnavailable: bool,
    isWalReceiverActive: bool,
    receivedLsn: nat,
    replayLsn: nat)

  datatype StatusList = StatusList(items: seq<InstanceStatus>, isReplicaCluster: bool, currentPrimary: string)

  /** Whether report `x` is placed before report `y`. */
  predicate Less(list: StatusList, x: InstanceStatus, y: InstanceStatus) {
    if x.failed != y.failed then !x.failed
    else if x.isPrimary && y.isPrimary then Before(x.pod, y.pod)
    else if x.isPrimary then true
    else if y.isPrimary then false
    else if x.receivedLsn != y.receivedLsn then x.receivedLsn > y.receivedLsn
    else if x.replayLsn != y.replayLsn then x.replayLsn > y.replayLsn
    else if list.isReplicaCluster && x.pod == list.currentPrimary && y.pod != list.currentPrimary then true
    else Before(x.pod, y.pod)
  }

  /** What a sort guarantees: no report could be moved before an earlier one. */
  ghost predicate Sorted(list: StatusList) {
    forall i, j :: 0 <= i < j < |list.items| ==> !Less(list, list.items[j], list.items[i])
  }

  ghost predicate DistinctPods(list: StatusList) {
    forall i, j :: 0 <= i < j < |list.items| ==> list.items[i].pod != list.items[j].pod
  }

  /** Two reports that only their names can tell apart. */
  predicate Tied(x: InstanceStatus, y: InstanceStatus) {
    x.failed == y.failed && !x.isPrimary && !y.isPrimary &&
    x.receivedLsn == y.receivedLsn && x.replayLsn == y.replayLsn
  }

  /** Outside replica clusters the comparison is a strict total order on reports of distinct pods. */
  lemma OrderIsTotal(list: StatusList, x: InstanceStatus, y: InstanceStatus, z: InstanceStatus)
    requires !list.isReplicaCluster
    ensures x.pod != y.pod ==> (Less(list, x, y) <==> !Less(list, y, x))
    ensures !Less(list, x, x)
    ensures Less(list, x, y) && Less(list, y, z) ==> Less(list, x, z)
  {
    BeforeIsTotal(x.pod, y.pod);
    BeforeIsAsymmetric(x.pod, y.pod);
    if Before(x.pod, y.pod) && Before(y.pod, z.pod) {
      BeforeIsTransitive(x.pod, y.pod, z.pod);
    }
  }

  /**
   The last criterion, meant to put the designated primary of a replica cluster before the standbys
   it is level with, contradicts itself exactly when one of those standbys has an earlier name:
   then each of the two is placed before the other.
   */
  lemma OrderContradictsItselfExactly(list: StatusList, x: InstanceStatus, y: InstanceStatus)
    requires x.pod != y.pod
    ensures Less(list, x, y) && Less(list, y, x) <==>
            list.isReplicaCluster && Tied(x, y) &&
            ((x.pod == list.currentPrimary && Before(y.pod, x.pod)) ||
             (y.pod == list.currentPrimary && Before(x.pod, y.pod)))
  {
    BeforeIsTotal(x.pod, y.pod);
    BeforeIsAsymmetric(x.pod, y.pod);
  }

  /** Two sorted lists of the same reports are the same list: the candidate is determined by the reports. */
  lemma SortedListIsUnique(a: StatusList, b: StatusList)
    requires !a.isReplicaCluster && !b.isReplicaCluster
    requires DistinctPods(a) && DistinctPods(b) && Sorted(a) && Sorted(b)
    requires multiset(a.items) == multiset(b.items)
    ensures a.items == b.items
    decreases |a.items|
  {
    assert |a.items| == |multiset(a.items)| == |multiset(b.items)| == |b.items|;
    if a.items != [] {
      HeadPrecedesAll(a, b);
      var a', b' := a.(items := a.items[1..]), b.(items := b.items[1..]);
      TailIsSorted(a);
      TailIsSorted(b);
      assert a.items == [a.items[0]] + a'.items && b.items == [b.items[0]] + b'.items;
      assert multiset(a'.items) == multiset(a.items) - multiset{a.items[0]};
      assert multiset(b'.items) == multiset(b.items) - multiset{b.items[0]};
      SortedListIsUnique(a', b');
    }
  }

  lemma TailIsSorted(a: StatusList)
    requires DistinctPods(a) && Sorted(a) && a.items != []
    ensures DistinctPods(a.(items := a.items[1..])) && Sorted(a.(items := a.items[1..]))
  {
    var a' := a.(items := a.items[1..]);
    forall i, j | 0 <= i < j < |a'.items| ensures !Less(a', a'.items[j], a'.items[i]) {
      assert !Less(a, a.items[j + 1], a.items[i + 1]);
    }
  }

  lemma HeadPrecedesAll(a: StatusList, b: StatusList)
    requires !a.isReplicaCluster && !b.isReplicaCluster
    requires DistinctPods(a) && DistinctPods(b) && Sorted(a) && Sorted(b)
    requires multiset(a.items) == multiset(b.items) && a.items != [] && b.items != []
    ensures a.items[0] == b.items[0]
  {
    var x, y := a.items[0], b.items[0];
    assert x in multiset(b.items) && y in multiset(a.items);
    if x != y {
      var i :| 0 <= i < |a.items| && a.items[i] == y;
      var j :| 0 <= j < |b.items| && b.items[j] == x;
      OrderIsTotal(a, x, y, y);
    }
  }

  /** Unless a primary is listed first, the first report that could be collected is the most advanced one. */
  lemma HeadIsMostAdvanced(list: StatusList, i: nat)
    requires Sorted(list) && i < |list.items| && !list.items[i].failed
    requires !list.items[0].isPrimary
    ensures !list.items[0].failed && !list.items[i].isPrimary
    ensures list.items[0].receivedLsn >= list.items[i].receivedLsn
  {
    if i > 0 {
      assert !Less(list, list.items[i], list.items[0]);
    }
  }

  /** Among those that received as much, it replayed most; and among those that did, its name comes first. */
  lemma HeadBreaksTies(list: StatusList, i: nat)
    requires Sorted(list) && 0 < i < |list.items| && !list.items[i].failed && !list.items[0].isPrimary
    requires list.items[0].receivedLsn == list.items[i].receivedLsn
    ensures list.items[0].replayLsn >= list.items[i].replayLsn
    ensures list.items[0].replayLsn == list.items[i].replayLsn ==>
      !Before(list.items[i].pod, list.items[0].pod) ||
      (list.isReplicaCluster && list.items[0].pod == list.currentPrimary)
    ensures list.isReplicaCluster && list.items[0].replayLsn == list.items[i].replayLsn ==>
      list.items[i].pod == list.currentPrimary ==> list.items[0].pod == list.currentPrimary
  {
    assert !Less(list, list.items[i], list.items[0]);
  }

  /** Primaries come first, by name; reports that could not be collected come last. */
  lemma HeadIsPrimaryIfAny(list: StatusList, i: nat)
    requires Sorted(list) && 0 < i < |list.items|
    ensures list.items[0].failed ==> list.items[i].failed
    ensures !list.items[i].failed && list.items[i].isPrimary ==>
      list.items[0].isPrimary && !Before(list.items[i].pod, list.items[0].pod)
  {
    assert !Less(list, list.items[i], list.items[0]);
  }

  /** Every WAL receiver outside `primary` is reported as stopped. */
  predicate AreWalReceiversDown(list: StatusList, primary: string) {
    forall s :: s in list.items && s.pod != primary ==> !s.isWalReceiverActive
  }

  predicate ReportingMightBeUnavailable(list: StatusList, pod: string) {
    exists s :: s in list.items && s.pod == pod && s.mightBeUnavailable
  }

  function PrimaryNames(items: seq<InstanceStatus>): seq<string> {
    if items == [] then []
    else (if items[0].isPrimary then [items[0].pod] else []) + PrimaryNames(items[1..])
  }

  /** Some active and ready instance is listed, and none of those could be reached. */
  predicate AllReadyInstancesUnreachable(list: StatusList) {
    && (exists s :: s in list.items && s.isPodActive && s.isPodReady)
    && (forall s :: s in list.items && s.isPodActive && s.isPodReady ==> s.failed)
  }
}
