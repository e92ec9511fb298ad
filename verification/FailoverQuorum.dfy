/** The R + W > N decision that guards an automatic failover. */
module FailoverQuorum {
  import opened StatusList

  /** The published synchronous replication metadata; zeroed while the configuration is changing. */
  datatype QuorumRecord = QuorumRecord(primary: string, standbyNames: seq<string>, standbyNumber: int)

  /** The outcome of reading the published record. */
  datatype Lookup = Found(record: QuorumRecord) | NotFound | LookupError

  datatype Verdict = Verdict(allowed: bool) | VerdictError

  function Elements(names: seq<string>): set<string> { set n | n in names }

  /** Ready instances whose report could be collected. */
  function Promotable(items: seq<InstanceStatus>): set<string> {
    set s | s in items && !s.failed && s.isPodReady :: s.pod
  }

  /** A set of standbys whose replies are enough for the primary to acknowledge a commit. */
  ghost predicate AckSet(names: set<string>, number: int, acks: set<string>) {
    acks <= names && |acks| >= number
  }

  predicate Coherent(record: QuorumRecord) {
    record.standbyNumber > 0 && record.standbyNames != []
  }

  /** Every commit that was acknowledged reached an instance that can be promoted. */
  ghost predicate EveryAckIsReadable(record: QuorumRecord, items: seq<InstanceStatus>) {
    forall acks :: AckSet(Elements(record.standbyNames), record.standbyNumber, acks) ==>
      acks * Promotable(items) != {}
  }

  lemma SubsetOfSize(s: set<string>, n: nat) returns (r: set<string>)
    requires n <= |s|
    ensures r <= s && |r| == n
  {
    r := {};
    while |r| < n
      invariant r <= s && |r| <= n
    {
      assert s - r != {} by { assert s == (s - r) + r; }
      var x :| x in s - r;
      r := r + {x};
    }
  }

  /** Counting sets decides whether two of them must meet. */
  lemma PigeonholeIsExact(nodes: set<string>, ready: set<string>, number: nat)
    ensures |nodes * ready| + number > |nodes| <==>
            forall acks :: AckSet(nodes, number, acks) ==> acks * ready != {}
  {
    var read := nodes * ready;
    if |read| + number > |nodes| {
      forall acks | AckSet(nodes, number, acks) ensures acks * ready != {} {
        if acks * ready == {} {
          assert acks !! read && acks + read <= nodes;
          assert |acks + read| == |acks| + |read|;
          CardinalityIsMonotone(acks + read, nodes);
        }
      }
    } else {
      assert |nodes - read| == |nodes| - |read|;
      var acks := SubsetOfSize(nodes - read, number);
      assert AckSet(nodes, number, acks) && acks * ready == {};
    }
  }

  lemma {:induction false} CardinalityIsMonotone<T>(a: set<T>, b: set<T>)
    requires a <= b
    ensures |a| <= |b|
  {
    assert b == a + (b - a);
  }

  /**
   The decision taken on a published record: exactly the records that make sense and whose every
   acknowledgement is readable on a promotable instance let a failover start.
   */
  method EvaluateQuorumCheckWithStatus(record: QuorumRecord, items: seq<InstanceStatus>) returns (allowed: bool)
    ensures allowed <==> Coherent(record) && EveryAckIsReadable(record, items)
  {
    if record.standbyNumber <= 0 {
      return false;
    }
    if |record.standbyNames| == 0 {
      return false;
    }
    var candidateReplicas: set<string> := {};
    for i := 0 to |items|
      invariant candidateReplicas == Promotable(items[..i])
    {
      assert items[..i + 1] == items[..i] + [items[i]];
      if !items[i].failed && items[i].isPodReady {
        candidateReplicas := candidateReplicas + {items[i].pod};
      }
    }
    assert items[..|items|] == items;
    var nodeSet := Elements(record.standbyNames);
    var readSet := nodeSet * candidateReplicas;
    PigeonholeIsExact(nodeSet, candidateReplicas, record.standbyNumber);
    allowed := |readSet| + record.standbyNumber > |nodeSet|;
  }

  /** A missing record denies the failover; a failing read stops the pass. */
  method EvaluateQuorumCheck(lookup: Lookup, items: seq<InstanceStatus>) returns (v: Verdict)
    ensures v.VerdictError? <==> lookup.LookupError?
    ensures v == Verdict(true) <==> QuorumCheck(lookup, items)
  {
    match lookup
    case LookupError => v := VerdictError;
    case NotFound => v := Verdict(false);
    case Found(record) =>
      var allowed := EvaluateQuorumCheckWithStatus(record, items);
      v := Verdict(allowed);
  }

  ghost predicate QuorumCheck(lookup: Lookup, items: seq<InstanceStatus>) {
    lookup.Found? && Coherent(lookup.record) && EveryAckIsReadable(lookup.record, items)
  }

  /** A record that was zeroed, or that names nobody, denies the failover. */
  lemma ZeroedRecordDenies(record: QuorumRecord, items: seq<InstanceStatus>)
    requires record.standbyNumber <= 0 || record.standbyNames == []
    ensures !QuorumCheck(Found(record), items)
  {
  }

  /** The promotable instances are those that are ready and whose report could be collected. */
  lemma PromotableExactly(items: seq<InstanceStatus>, pod: string)
    ensures pod in Promotable(items) <==>
      exists i :: 0 <= i < |items| && items[i].pod == pod && !items[i].failed && items[i].isPodReady
  {
  }

  /** More promotable instances never turn an allowed failover into a denied one. */
  lemma QuorumIsMonotone(lookup: Lookup, items: seq<InstanceStatus>, more: seq<InstanceStatus>)
    requires QuorumCheck(lookup, items) && Promotable(items) <= Promotable(more)
    ensures QuorumCheck(lookup, more)
  {
    var names, number := Elements(lookup.record.standbyNames), lookup.record.standbyNumber;
    forall acks | AckSet(names, number, acks) ensures acks * Promotable(more) != {} {
      assert acks * Promotable(items) <= acks * Promotable(more);
    }
  }

  /**
   The instance that heads a sorted list is at least as advanced as some member of every
   acknowledging set, unless a primary is still reporting.
   */
  lemma HeadCoversEveryAck(lookup: Lookup, list: StatusList, acks: set<string>) returns (s: InstanceStatus)
    requires QuorumCheck(lookup, list.items) && Sorted(list) && list.items != [] && !list.items[0].isPrimary
    requires AckSet(Elements(lookup.record.standbyNames), lookup.record.standbyNumber, acks)
    ensures s in list.items && !s.failed && s.isPodReady && s.pod in acks
    ensures !list.items[0].failed && list.items[0].receivedLsn >= s.receivedLsn
  {
    s := HeadCoversReadableAck(list, acks);
  }

  lemma HeadCoversReadableAck(list: StatusList, acks: set<string>) returns (s: InstanceStatus)
    requires Sorted(list) && list.items != [] && !list.items[0].isPrimary && acks * Promotable(list.items) != {}
    ensures s in list.items && !s.failed && s.isPodReady && s.pod in acks
    ensures !list.items[0].failed && list.items[0].receivedLsn >= s.receivedLsn
  {
    var pod :| pod in acks * Promotable(list.items);
    s :| s in list.items && !s.failed && s.isPodReady && s.pod == pod;
    var i :| 0 <= i < |list.items| && list.items[i] == s;
    HeadIsMostAdvanced(list, i);
  }

  // ---- Records that do not tell the settings in force ----

  /**
   A check made on `recorded` and `w` is worth something for settings that are different: whenever it passes,
   each set that is able to acknowledge under `names` and `number` has a ready member.
   */
  ghost predicate AnswersFor(recorded: set<string>, w: nat, names: set<string>, number: nat) {
    forall ready, acks :: Passes(recorded, w, ready) && AckSet(names, number, acks) ==> acks * ready != {}
  }

  predicate Passes(recorded: set<string>, w: nat, ready: set<string>) {
    |recorded * ready| + w > |recorded|
  }

  /** The comparison of the two that decides on that. */
  predicate IsSound(recorded: set<string>, w: nat, names: set<string>, number: nat) {
    number > |names| || |recorded * names| + number >= |names| + w
  }

  lemma SizeOfParts(a: set<string>, b: set<string>)
    ensures |a - b| == |a| - |a * b|
  {
    assert a == (a - b) + (a * b) && (a - b) !! (a * b);
  }

  lemma SoundRecordAnswers(recorded: set<string>, w: nat, names: set<string>, number: nat,
                           ready: set<string>, acks: set<string>)
    requires IsSound(recorded, w, names, number) && Passes(recorded, w, ready) && AckSet(names, number, acks)
    ensures acks * ready != {}
  {
    CardinalityIsMonotone(acks, names);
    assert names * recorded == recorded * names;
    if acks * ready == {} {
      SizeOfParts(acks, recorded);
      SizeOfParts(names, recorded);
      SizeOfParts(recorded, ready);
      forall a | a in acks * recorded ensures a in recorded - ready {
        assert a in ready ==> a in acks * ready;
      }
      assert acks - recorded <= names - recorded;
      CardinalityIsMonotone(acks * recorded, recorded - ready);
      CardinalityIsMonotone(acks - recorded, names - recorded);
    }
  }

  /** For an unsound record: what may be ready, and who may acknowledge, such that the two do not meet. */
  lemma UnsoundRecordMisleads(recorded: set<string>, w: nat, names: set<string>, number: nat)
    returns (ready: set<string>, acks: set<string>)
    requires w > 0 && !IsSound(recorded, w, names, number)
    ensures Passes(recorded, w, ready) && AckSet(names, number, acks) && acks * ready == {}
  {
    SizeOfParts(names, recorded);
    assert names * recorded == recorded * names;
    var others := names - recorded;
    if number <= |others| {
      acks := SubsetOfSize(others, number);
      ready := recorded;
      assert recorded * ready == recorded;
    } else {
      var some := SubsetOfSize(recorded * names, number - |others|);
      acks, ready := others + some, recorded - some;
      assert others !! some && recorded * ready == recorded - some && recorded * some == some;
      SizeOfParts(recorded, some);
    }
  }

  /** Which records that do not tell the settings in force are still good enough. */
  lemma OutdatedRecordIsSoundExactly(recorded: set<string>, w: nat, names: set<string>, number: nat)
    requires w > 0
    ensures AnswersFor(recorded, w, names, number) <==> IsSound(recorded, w, names, number)
  {
    if IsSound(recorded, w, names, number) {
      forall ready, acks | Passes(recorded, w, ready) && AckSet(names, number, acks) ensures acks * ready != {} {
        SoundRecordAnswers(recorded, w, names, number, ready, acks);
      }
    } else {
      var ready, acks := UnsoundRecordMisleads(recorded, w, names, number);
      assert Passes(recorded, w, ready) && AckSet(names, number, acks);
    }
  }

  predicate RecordIsSound(record: QuorumRecord, names: set<string>, number: nat) {
    record.standbyNumber > 0 ==> IsSound(Elements(record.standbyNames), record.standbyNumber, names, number)
  }

  /** A check passed on a sound record answers for the settings in force. */
  lemma SoundCheckAnswers(lookup: Lookup, items: seq<InstanceStatus>,
                          names: set<string>, number: nat, acks: set<string>)
    requires QuorumCheck(lookup, items) && RecordIsSound(lookup.record, names, number) && AckSet(names, number, acks)
    ensures acks * Promotable(items) != {}
  {
    var recorded, w := Elements(lookup.record.standbyNames), lookup.record.standbyNumber;
    PigeonholeIsExact(recorded, Promotable(items), w);
    SoundRecordAnswers(recorded, w, names, number, Promotable(items), acks);
  }

  // ---- Exactly which elections are safe ----

  /** Instances whose report could be collected, ready or not. */
  function Reporting(items: seq<InstanceStatus>): set<string> {
    set s | s in items && !s.failed :: s.pod
  }

  /** Received positions that agree with the collected reports. */
  ghost predicate Consistent(items: seq<InstanceStatus>, lsn: string -> nat) {
    forall s :: s in items && !s.failed ==> lsn(s.pod) == s.receivedLsn
  }

  /** The reports are what they are, and `acks` have all received the log up to `n`, which acknowledges it. */
  ghost predicate Acknowledged(names: set<string>, number: nat, items: seq<InstanceStatus>,
                               lsn: string -> nat, acks: set<string>, n: nat) {
    Consistent(items, lsn) && AckSet(names, number, acks) && forall a :: a in acks ==> lsn(a) >= n
  }

  /** Wherever the instances really are, the head has received every position that may have been acknowledged. */
  ghost predicate HeadIsSafe(names: set<string>, number: nat, list: StatusList)
    requires list.items != []
  {
    forall lsn: string -> nat, acks, n: nat ::
      Acknowledged(names, number, list.items, lsn, acks, n) ==> list.items[0].receivedLsn >= n
  }

  /** A member of `acks` that reported has received no more than the head. */
  ghost predicate HeadReachesOneOf(list: StatusList, acks: set<string>)
    requires list.items != []
  {
    exists s :: s in list.items && !s.failed && s.pod in acks && s.receivedLsn <= list.items[0].receivedLsn
  }

  /**
   Electing the head of the list, whoever that is, is safe for every history exactly when each acknowledging
   set of the settings in force has a reporting member that the head is level with or ahead of.
   */
  lemma ElectionIsSafeExactly(names: set<string>, number: nat, list: StatusList)
    requires DistinctPods(list) && list.items != []
    ensures HeadIsSafe(names, number, list) <==>
            forall acks | AckSet(names, number, acks) :: HeadReachesOneOf(list, acks)
  {
    var head := list.items[0];
    if acks :| AckSet(names, number, acks) && !HeadReachesOneOf(list, acks) {
      var reporting := Reporting(list.items);
      var lsn := (pod: string) =>
        if pod in acks && pod !in reporting then head.receivedLsn + 1 else Reported(list.items, pod);
      forall s | s in list.items && !s.failed ensures lsn(s.pod) == s.receivedLsn {
        assert s.pod in reporting;
        ReportedIsUnique(list.items, s);
      }
      forall a | a in acks ensures lsn(a) >= head.receivedLsn + 1 {
        if a in reporting {
          var s :| s in list.items && !s.failed && s.pod == a;
          assert lsn(s.pod) == s.receivedLsn;
        }
      }
      assert Acknowledged(names, number, list.items, lsn, acks, head.receivedLsn + 1);
    } else {
      forall lsn: string -> nat, acks, n: nat | Acknowledged(names, number, list.items, lsn, acks, n)
        ensures head.receivedLsn >= n
      {
        assert AckSet(names, number, acks) && HeadReachesOneOf(list, acks);
        var s :| s in list.items && !s.failed && s.pod in acks && s.receivedLsn <= head.receivedLsn;
        assert lsn(s.pod) == s.receivedLsn;
      }
    }
  }

  /**
   On a sorted list headed by a standby, that is when each acknowledging set has a reporting member at all.
   Readiness, which the quorum check also asks for, is more than safety needs.
   */
  lemma StandbyElectionIsSafeExactly(names: set<string>, number: nat, list: StatusList)
    requires Sorted(list) && DistinctPods(list) && list.items != []
    requires !list.items[0].failed && !list.items[0].isPrimary
    ensures HeadIsSafe(names, number, list) <==>
            forall acks | AckSet(names, number, acks) :: acks * Reporting(list.items) != {}
  {
    ElectionIsSafeExactly(names, number, list);
    forall acks | AckSet(names, number, acks)
      ensures HeadReachesOneOf(list, acks) <==> acks * Reporting(list.items) != {}
    {
      if HeadReachesOneOf(list, acks) {
        var s :| s in list.items && !s.failed && s.pod in acks;
        assert s.pod in acks * Reporting(list.items);
      }
      if acks * Reporting(list.items) != {} {
        var pod :| pod in acks * Reporting(list.items);
        var i :| 0 <= i < |list.items| && !list.items[i].failed && list.items[i].pod == pod;
        HeadIsMostAdvanced(list, i);
        assert list.items[i] in list.items && list.items[i].pod in acks;
      }
    }
  }

  function Reported(items: seq<InstanceStatus>, pod: string): nat {
    if items == [] then 0
    else if items[0].pod == pod then items[0].receivedLsn
    else Reported(items[1..], pod)
  }

  lemma {:induction false} ReportedIsUnique(items: seq<InstanceStatus>, s: InstanceStatus)
    requires s in items
    requires forall i, j :: 0 <= i < j < |items| ==> items[i].pod != items[j].pod
    ensures Reported(items, s.pod) == s.receivedLsn
  {
    if items[0] != s {
      assert s in items[1..];
      ReportedIsUnique(items[1..], s);
    }
  }
}
