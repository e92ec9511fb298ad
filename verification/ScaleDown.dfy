/** Which instance is given up when a cluster is scaled down. */
module ScaleDown {
  import opened Names

  datatype Pod = Pod(name: string, isReady: bool, isActive: bool, isPrimary: bool, serial: Option<int>)
  {
    /** Neither a pod that does not work nor the primary is parted with. */
    predicate CanBeParted() { isReady && isActive && !isPrimary && serial.Some? }
  }

  /** Position of the first `name`, or the length. */
  function IndexOf(names: seq<string>, name: string): (i: nat)
    ensures i <= |names|
    ensures i < |names| ==> names[i] == name
    ensures forall j :: 0 <= j < i ==> names[j] != name
  {
    if names == [] || names[0] == name then 0 else 1 + IndexOf(names[1..], name)
  }

  function Remove(names: seq<string>, name: string): seq<string> {
    var i := IndexOf(names, name);
    if i == |names| then names else names[..i] + names[i + 1..]
  }

  function RemoveAll(names: seq<string>, pods: seq<Pod>): seq<string> {
    if pods == [] then names else Remove(RemoveAll(names, pods[..|pods| - 1]), pods[|pods| - 1].name)
  }

  /** How many entries were deleted from a slice of `n` entries that now holds `names`. */
  function Blanks(n: nat): seq<string> { seq(n, i => "") }

  /**
   Deletes entry `i` of the first `n` entries of an array in place: later entries move down, and the
   entry that is no longer used is cleared.
   */
  method DeleteInPlace(names: array<string>, n: nat, i: nat)
    requires i < n <= names.Length
    modifies names
    ensures forall j :: 0 <= j < i || n <= j < names.Length ==> names[j] == old(names[j])
    ensures forall j :: i <= j < n - 1 ==> names[j] == old(names[j + 1])
    ensures names[n - 1] == ""
  {
    var k := i;
    while k < n - 1
      invariant i <= k <= n - 1
      invariant forall j :: 0 <= j < i || k < j < names.Length ==> names[j] == old(names[j])
      invariant forall j :: i <= j < k ==> names[j] == old(names[j + 1])
    {
      names[k] := names[k + 1];
      k := k + 1;
    }
    names[n - 1] := "";
  }

  /** Deletes the first `name` among the first `n` entries, if it is there. */
  method DeleteName(names: array<string>, n: nat, name: string) returns (n': nat)
    requires n <= names.Length
    modifies names
    ensures n' <= n && names[..n'] == Remove(old(names[..n]), name)
    ensures forall k :: n' <= k < n ==> names[k] == ""
    ensures forall k :: n <= k < names.Length ==> names[k] == old(names[k])
  {
    n' := n;
    var i := IndexOf(names[..n], name);
    if i < n {
      ghost var before := names[..];
      DeleteInPlace(names, n, i);
      n' := n - 1;
      assert names[..n'] == before[..n][..i] + before[..n][i + 1..];
    }
  }

  /**
   The choice, and what it does to the list of instance names of the cluster status, which it works on
   in place: the names that have a pod are squeezed out, and blank entries are left at the end.
   */
  method FindDeletableInstance(instanceNames: array<string>, pods: seq<Pod>) returns (result: string)
    modifies instanceNames
    ensures var rest := RemoveAll(old(instanceNames[..]), pods);
      && |rest| <= instanceNames.Length
      && instanceNames[..] == rest + Blanks(instanceNames.Length - |rest|)
      && (rest != [] ==> result == rest[|rest| - 1])
      && (rest == [] ==> result == YoungestName(pods))
  {
    var n := instanceNames.Length;
    var resultIdx := -1;
    var lastFoundSerial := 0;
    ghost var names := instanceNames[..];
    for idx := 0 to |pods|
      invariant 0 <= n <= instanceNames.Length
      invariant instanceNames[..n] == RemoveAll(names, pods[..idx])
      invariant forall k :: n <= k < instanceNames.Length ==> instanceNames[k] == ""
      invariant -1 <= resultIdx < idx
      invariant (resultIdx, lastFoundSerial) == Youngest(pods[..idx])
    {
      assert pods[..idx + 1][..idx] == pods[..idx];
      var pod := pods[idx];
      n := DeleteName(instanceNames, n, pod.name);
      if !pod.isReady || !pod.isActive || pod.isPrimary || pod.serial.None? {
        continue;
      }
      if lastFoundSerial == 0 || lastFoundSerial < pod.serial.value {
        resultIdx, lastFoundSerial := idx, pod.serial.value;
      }
    }
    assert pods[..|pods|] == pods;
    RestIsBlank(instanceNames[..], n);
    if n > 0 {
      return instanceNames[n - 1];
    }
    if resultIdx == -1 {
      return "";
    }
    return pods[resultIdx].name;
  }

  lemma RestIsBlank(s: seq<string>, n: nat)
    requires n <= |s| && forall k :: n <= k < |s| ==> s[k] == ""
    ensures s == s[..n] + Blanks(|s| - n)
  {
  }

  /** Index and serial of the running choice; a serial of zero stands for none. */
  function Youngest(pods: seq<Pod>): (r: (int, int))
    ensures -1 <= r.0 < |pods|
  {
    if pods == [] then (-1, 0)
    else
      var (i, s) := Youngest(pods[..|pods| - 1]);
      var p := pods[|pods| - 1];
      if p.CanBeParted() && (s == 0 || s < p.serial.value) then (|pods| - 1, p.serial.value) else (i, s)
  }

  function YoungestName(pods: seq<Pod>): string {
    var i := Youngest(pods).0;
    if i == -1 then "" else pods[i].name
  }

  ghost predicate IsLastWithoutPod(names: seq<string>, pods: seq<Pod>, name: string) {
    exists i :: 0 <= i < |names| && names[i] == name && HasNoPod(name, pods) &&
      forall j :: i < j < |names| ==> !HasNoPod(names[j], pods)
  }

  predicate HasNoPod(name: string, pods: seq<Pod>) {
    forall p :: p in pods ==> p.name != name
  }

  /** A working standby with a serial. */
  ghost predicate IsWorkingStandby(p: Pod) { p.isReady && p.isActive && !p.isPrimary && p.serial.Some? }

  /** The working standby with the greatest serial. */
  ghost predicate IsYoungest(pods: seq<Pod>, name: string) {
    exists i :: 0 <= i < |pods| && IsWorkingStandby(pods[i]) && pods[i].name == name &&
      LeadsAt(pods, i, pods[i].serial.value)
  }

  /** Nothing has a greater serial than the one at `i`, and nothing before it has the same. */
  ghost predicate LeadsAt(pods: seq<Pod>, i: nat, serial: int) {
    forall j :: 0 <= j < |pods| && IsWorkingStandby(pods[j]) ==>
      pods[j].serial.value <= serial && (j < i ==> pods[j].serial.value < serial)
  }

  // ---- The choice is the right one ----

  predicate Distinct(names: seq<string>) {
    forall i, j :: 0 <= i < j < |names| ==> names[i] != names[j]
  }

  function WithoutPod(names: seq<string>, pods: seq<Pod>): seq<string> {
    if names == [] then []
    else
      var init, last := names[..|names| - 1], names[|names| - 1];
      WithoutPod(init, pods) + if HasNoPod(last, pods) then [last] else []
  }

  lemma {:induction false} WithoutPodIsPart(names: seq<string>, pods: seq<Pod>)
    ensures forall n :: n in WithoutPod(names, pods) ==> n in names && HasNoPod(n, pods)
  {
    if names != [] {
      WithoutPodIsPart(names[..|names| - 1], pods);
    }
  }

  lemma LastIsNew(names: seq<string>)
    requires Distinct(names) && names != []
    ensures Distinct(names[..|names| - 1]) && names[|names| - 1] !in names[..|names| - 1]
  {
  }

  lemma OneMorePod(name: string, pods: seq<Pod>, p: Pod)
    ensures HasNoPod(name, pods + [p]) <==> HasNoPod(name, pods) && p.name != name
  {
    assert forall q :: q in pods + [p] <==> q in pods || q == p;
  }

  /** Removing a name that occurs once is leaving it out. */
  lemma {:induction false} RemoveLeavesOut(names: seq<string>, pods: seq<Pod>, p: Pod)
    requires Distinct(names)
    ensures Remove(WithoutPod(names, pods), p.name) == WithoutPod(names, pods + [p])
  {
    if names != [] {
      var init, last := names[..|names| - 1], names[|names| - 1];
      LastIsNew(names);
      RemoveLeavesOut(init, pods, p);
      OneMorePod(last, pods, p);
      var kept, kept' := WithoutPod(init, pods), WithoutPod(init, pods + [p]);
      assert Remove(kept, p.name) == kept';
      if HasNoPod(last, pods) {
        WithoutPodIsPart(init, pods);
        RemoveFromAppended(kept, last, p.name);
        if p.name == last {
          RemoveAbsent(kept, last);
        }
      } else {
        assert WithoutPod(names, pods) == kept && WithoutPod(names, pods + [p]) == kept';
      }
    }
  }

  lemma RemoveAbsent(names: seq<string>, name: string)
    requires name !in names
    ensures Remove(names, name) == names
  {
  }

  lemma RemoveFromAppended(kept: seq<string>, last: string, name: string)
    requires last !in kept
    ensures Remove(kept + [last], name) == if name == last then kept else Remove(kept, name) + [last]
  {
    var all := kept + [last];
    var i, j := IndexOf(all, name), IndexOf(kept, name);
    if j < |kept| {
      assert all[j] == name && i == j;
      assert all[..i] == kept[..i] && all[i + 1..] == kept[i + 1..] + [last];
      assert all[..i] + all[i + 1..] == (kept[..i] + kept[i + 1..]) + [last];
    } else if name == last {
      assert all[|kept|] == name;
      assert i == |kept|;
    } else {
      assert forall k :: 0 <= k < |all| ==> all[k] != name;
    }
  }

  /** The in-place deletions leave exactly the names without a pod, in their order. */
  lemma {:induction false} RemoveAllLeavesWithoutPod(names: seq<string>, pods: seq<Pod>)
    requires Distinct(names)
    ensures RemoveAll(names, pods) == WithoutPod(names, pods)
  {
    if pods == [] {
      NothingHasPod(names);
    } else {
      var init, p := pods[..|pods| - 1], pods[|pods| - 1];
      RemoveAllLeavesWithoutPod(names, init);
      RemoveLeavesOut(names, init, p);
      assert pods == init + [p];
    }
  }

  lemma {:induction false} NothingHasPod(names: seq<string>)
    ensures WithoutPod(names, []) == names
  {
    if names != [] {
      NothingHasPod(names[..|names| - 1]);
    }
  }

  lemma {:induction false} LastWithoutPod(names: seq<string>, pods: seq<Pod>)
    ensures var rest := WithoutPod(names, pods);
      if rest == [] then forall n :: n in names ==> !HasNoPod(n, pods)
      else IsLastWithoutPod(names, pods, rest[|rest| - 1])
  {
    if names != [] {
      var init, last := names[..|names| - 1], names[|names| - 1];
      LastWithoutPod(init, pods);
      if HasNoPod(last, pods) {
        assert names[|names| - 1] == last;
      } else if WithoutPod(init, pods) != [] {
        LastStaysLast(names, pods, WithoutPod(init, pods)[|WithoutPod(init, pods)| - 1]);
      } else {
        assert forall n :: n in names ==> n in init || n == last;
      }
    }
  }

  lemma LastStaysLast(names: seq<string>, pods: seq<Pod>, name: string)
    requires names != [] && IsLastWithoutPod(names[..|names| - 1], pods, name) && !HasNoPod(names[|names| - 1], pods)
    ensures IsLastWithoutPod(names, pods, name)
  {
    var init := names[..|names| - 1];
    var i :| 0 <= i < |init| && init[i] == name && HasNoPod(name, pods) &&
      forall j :: i < j < |init| ==> !HasNoPod(init[j], pods);
    assert names[i] == name;
    forall j | i < j < |names| ensures !HasNoPod(names[j], pods) {
      if j < |init| {
        assert !HasNoPod(init[j], pods);
      }
    }
  }

  lemma {:induction false} YoungestIsGreatest(pods: seq<Pod>)
    requires forall p :: p in pods && IsWorkingStandby(p) ==> p.serial.value > 0
    ensures var (i, s) := Youngest(pods);
      if i == -1 then s == 0 && forall p :: p in pods ==> !IsWorkingStandby(p)
      else IsWorkingStandby(pods[i]) && pods[i].serial == Some(s) && LeadsAt(pods, i, s)
  {
    if pods != [] {
      var init, p := pods[..|pods| - 1], pods[|pods| - 1];
      YoungestIsGreatest(init);
      assert forall q :: q in pods <==> q in init || q == p;
      assert forall j :: 0 <= j < |init| ==> pods[j] == init[j] && init[j] in init;
      assert p in pods;
    }
  }

  /**
   With distinct instance names and positive serials, the choice is the last instance that has no pod if
   there is one; else the ready, active, non-primary pod with the greatest serial; else nothing.
   */
  lemma ChoiceIsRight(names: seq<string>, pods: seq<Pod>)
    requires Distinct(names)
    requires forall p :: p in pods && IsWorkingStandby(p) ==> p.serial.value > 0
    ensures var rest := RemoveAll(names, pods);
      && (rest != [] ==> IsLastWithoutPod(names, pods, rest[|rest| - 1]))
      && (rest == [] ==> forall n :: n in names ==> !HasNoPod(n, pods))
      && if exists p :: p in pods && IsWorkingStandby(p) then IsYoungest(pods, YoungestName(pods))
         else YoungestName(pods) == ""
  {
    RemoveAllLeavesWithoutPod(names, pods);
    LastWithoutPod(names, pods);
    YoungestIsGreatest(pods);
    if Youngest(pods).0 != -1 {
      var p := pods[Youngest(pods).0];
      assert p in pods;
    }
  }

  datatype Action = GoBackTo(instances: int) | DeleteInstance(name: string) | NothingToGiveUp

  /** Never below the synchronous replicas asked for. */
  method ScaleDownCluster(instances: int, currentInstances: int, maxSyncReplicas: int,
                          instanceNames: array<string>, pods: seq<Pod>) returns (a: Action)
    modifies instanceNames
    ensures maxSyncReplicas > 0 && instances < maxSyncReplicas + 1 ==>
      a == GoBackTo(currentInstances) && instanceNames[..] == old(instanceNames[..])
    ensures !(maxSyncReplicas > 0 && instances < maxSyncReplicas + 1) ==>
      var rest := RemoveAll(old(instanceNames[..]), pods);
      var chosen := if rest != [] then rest[|rest| - 1] else YoungestName(pods);
      a == if chosen == "" then NothingToGiveUp else DeleteInstance(chosen)
  {
    if maxSyncReplicas > 0 && instances < maxSyncReplicas + 1 {
      return GoBackTo(currentInstances);
    }
    var instanceName := FindDeletableInstance(instanceNames, pods);
    if instanceName == "" {
      return NothingToGiveUp;
    }
    return DeleteInstance(instanceName);
  }
}
