/**
 No acknowledged commit is lost by an automatic failover.

 The operator passes of PrimaryElection are interleaved with what happens without the operator: the
 current primary goes on writing, even when nobody can reach it, standbys follow it, commits are
 acknowledged, the synchronous configuration changes, and the elected instance promotes itself. A primary
 that was replaced goes on writing as well, feeds the standbys that did not leave it, and acknowledges
 what its own settings let it acknowledge.
 */
module FailoverSafety {
  import opened Names
  import opened StatusList
  import opened FailoverQuorum
  import opened PrimaryElection
  import opened ElectionProperties

  /** The synchronous replication settings in force at the current primary. */
  datatype Config = Config(names: set<string>, number: nat)

  /**
   A primary that was replaced, with the settings it had then. `left` are the standbys that do not follow it any
   more, and how much they may have confirmed before: their replies can still be on the way until the next
   promotion. `kept` is how much of its log its successor took over.
   */
  datatype Former = Former(config: Config, left: map<string, nat>, kept: nat)

  datatype State = State(
    status: ClusterStatus,
    wal: map<string, seq<nat>>,
    config: Config,
    record: QuorumRecord,
    published: bool,      // the current primary reset or published the record since it was promoted
    acked: seq<nat>,      // the acknowledged history
    covered: nat,         // how much of it was acknowledged under the settings in force
    electing: bool,       // the target was elected after a failure and did not promote itself yet
    frozen: set<string>,  // standbys that reported a stopped WAL receiver for that election
    former: map<string, Former>,
    lost: bool)           // some acknowledged commit is not in the log of the current primary

  function Wal(s: State, i: string): seq<nat> {
    if i in s.wal then s.wal[i] else []
  }

  function Current(s: State): string { s.status.currentPrimary }

  function Target(s: State): string { s.status.targetPrimary }

  /** Length of the longest common prefix. */
  function Common(a: seq<nat>, b: seq<nat>): (n: nat)
    ensures n <= |a| && n <= |b|
  {
    if a == [] || b == [] || a[0] != b[0] then 0 else 1 + Common(a[1..], b[1..])
  }

  lemma {:induction false} CommonIsPrefix(a: seq<nat>, b: seq<nat>)
    ensures a[..Common(a, b)] == b[..Common(a, b)]
  {
    if a != [] && b != [] && a[0] == b[0] {
      CommonIsPrefix(a[1..], b[1..]);
      var n := Common(a[1..], b[1..]);
      assert a[..n + 1] == [a[0]] + a[1..][..n] && b[..n + 1] == [b[0]] + b[1..][..n];
    }
  }

  lemma {:induction false} CommonIsLongest(p: seq<nat>, a: seq<nat>, b: seq<nat>)
    requires p <= a && p <= b
    ensures |p| <= Common(a, b)
  {
    if p != [] {
      CommonIsLongest(p[1..], a[1..], b[1..]);
    }
  }

  datatype Step =
    | Append(entry: nat)
    | Follow(instance: string, length: nat)
    | Acknowledge(acks: set<string>, length: nat)
    | ResetRecord
    | Reload(config: Config)
    | Restart(config: Config)  // new settings come into force without a word about them
    | Publish
    | Promote(config: Config)
    | OperatorPass(o: Observation, accepts: nat)
    | StatusChange(status: ClusterStatus)
    | FormerAppend(primary: string, entry: nat)
    | FormerFollow(primary: string, instance: string, length: nat)
    | FormerAcknowledge(primary: string, acks: set<string>, length: nat)

  const ZEROED := QuorumRecord("", [], 0)

  /** What the operator sees of the instances is what they are; the record it reads may be any. */
  ghost predicate Faithful(s: State, o: Observation) {
    && Sorted(o.list) && DistinctPods(o.list)
    && forall i :: i in o.list.items ==>
         i.pod !in {"", PENDING_FAILOVER_MARKER} && (!i.failed && !i.isPrimary ==> i.receivedLsn == |Wal(s, i.pod)|)
  }

  /**
   When an election can be trusted: the record that was read answers for the settings in force, and the head of
   the list neither still reports to be a primary nor has left the history of the current primary.
   */
  ghost predicate Trustworthy(s: State, spec: ClusterSpec, o: Observation) {
    && (o.lookup.Found? ==> RecordIsSound(o.lookup.record, s.config.names, s.config.number))
    && !LeavesDrainedNode(s.status, spec, o)
    && o.list.items != []
    && !o.list.items[0].isPrimary && Wal(s, o.list.items[0].pod) <= Wal(s, Current(s))
  }

  /** The pass names an instance that is not the current primary. */
  ghost predicate Elects(s: State, spec: ClusterSpec, o: Observation, accepts: nat) {
    var t := AfterPass(s, spec, o, accepts);
    Target(t) != Target(s) && t.electing
  }

  /** Standbys that reported a stopped WAL receiver; an unreachable one may well go on receiving. */
  function StoppedStandbys(s: State, o: Observation): set<string> {
    set i | i in o.list.items && !i.failed && i.pod != Current(s) && !i.isWalReceiverActive :: i.pod
  }

  ghost function AfterPass(s: State, spec: ClusterSpec, o: Observation, accepts: nat): State {
    var status := After(s.status, Pass(s.status, spec, o).writes, accepts);
    if status.targetPrimary == Target(s) then s.(status := status)
    else
      var electing := status.targetPrimary !in {Current(s), PENDING_FAILOVER_MARKER};
      s.(status := status, electing := electing, frozen := if electing then StoppedStandbys(s, o) else {})
  }

  function AfterPromotion(s: State, config: Config): State
    requires s.covered <= |s.acked|
  {
    var kept := s.acked <= Wal(s, Target(s));
    var left := map i | i in s.frozen :: |Wal(s, i)|;
    s.(status := s.status.(currentPrimary := Target(s)),
       config := config,
       published := false,
       acked := if kept then s.acked else s.acked[..s.covered],
       covered := 0,
       electing := false,
       frozen := {},
       former := map p | p in s.former.Keys + {Current(s)} && p != Target(s) ::
         if p == Current(s) then Former(s.config, left, |Wal(s, Target(s))|) else Forgotten(s.former[p]),
       lost := s.lost || !kept)
  }

  /** No reply to a replaced primary is on the way any more. */
  function Forgotten(f: Former): Former {
    f.(left := map i | i in f.left :: 0, kept := 0)
  }

  /** An instance that follows the current primary is no primary, and follows no replaced one. */
  function AfterFollow(s: State, i: string, n: nat): State
    requires n <= |Wal(s, Current(s))|
  {
    s.(wal := s.wal[i := Wal(s, Current(s))[..n]],
       former := map p | p in s.former && p != i ::
         if i in s.former[p].left then s.former[p] else s.former[p].(left := s.former[p].left[i := |Wal(s, i)|]))
  }

  /** A replaced primary acknowledges its first `n` entries: they join the acknowledged ones, or are lost. */
  function AfterFormerAck(s: State, p: string, n: nat): State
    requires n <= |Wal(s, p)|
  {
    var log := Wal(s, p)[..n];
    if log <= s.acked then s
    else if s.acked <= log <= Wal(s, Current(s)) then s.(acked := log)
    else s.(lost := true)
  }

  ghost predicate Next(spec: ClusterSpec, s: State, step: Step, t: State)
    requires s.covered <= |s.acked|
  {
    var primary := Wal(s, Current(s));
    match step
    case Append(entry) => t == s.(wal := s.wal[Current(s) := primary + [entry]])
    case Follow(i, n) =>
      // streaming extends the log of a standby; rewinding first drops what the primary does not have
      && i != Current(s) && i !in s.frozen && Common(Wal(s, i), primary) <= n <= |primary|
      && t == AfterFollow(s, i, n)
    case Acknowledge(acks, n) =>
      && AckSet(s.config.names, s.config.number, acks) && n <= |primary|
      && AllHave(s, acks, primary[..n])
      && t == s.(acked := if n > |s.acked| then primary[..n] else s.acked,
                 covered := if n > s.covered then n else s.covered)
    case ResetRecord =>
      Current(s) == Target(s) && t == s.(record := ZEROED, published := true)
    case Reload(config) =>
      && Current(s) == Target(s) && s.record == ZEROED && s.published && Current(s) !in config.names
      && t == s.(config := config, covered := 0)
    case Restart(config) =>
      !s.electing && Current(s) !in config.names && t == s.(config := config, covered := 0)
    case Publish =>
      && Current(s) == Target(s)
      && (exists names :: Elements(names) == s.config.names &&
            t == s.(record := QuorumRecord(Current(s), names, s.config.number), published := true))
    case Promote(config) =>
      s.electing && Target(s) !in config.names && t == AfterPromotion(s, config)
    case OperatorPass(o, accepts) =>
      && Faithful(s, o) && (Elects(s, spec, o, accepts) ==> Trustworthy(s, spec, o))
      && t == AfterPass(s, spec, o, accepts)
    case StatusChange(status) =>
      && status.currentPrimary == Current(s) && status.targetPrimary == Target(s)
      && t == s.(status := status)
    case FormerAppend(p, entry) =>
      p in s.former && p !in s.frozen && t == s.(wal := s.wal[p := Wal(s, p) + [entry]])
    case FormerFollow(p, i, n) =>
      && p in s.former && i !in s.former.Keys + s.former[p].left.Keys + s.frozen + {Current(s)}
      && Wal(s, i) <= Wal(s, p) && |Wal(s, i)| <= n <= |Wal(s, p)|
      && t == s.(wal := s.wal[i := Wal(s, p)[..n]])
    case FormerAcknowledge(p, acks, n) =>
      && p in s.former && n <= |Wal(s, p)|
      && AckSet(s.former[p].config.names, s.former[p].config.number, acks)
      && (forall a :: a in acks ==>
            if a in s.former[p].left then n <= s.former[p].left[a] else Wal(s, p)[..n] <= Wal(s, a))
      && t == AfterFormerAck(s, p, n)
  }

  ghost predicate Truthful(s: State) {
    s.record.standbyNumber > 0 ==>
      Elements(s.record.standbyNames) == s.config.names && s.record.standbyNumber == s.config.number
  }

  /** All of `acks` have received `log`. */
  ghost predicate AllHave(s: State, acks: set<string>, log: seq<nat>) {
    forall a :: a in acks ==> log <= Wal(s, a)
  }

  /** A frozen member of `acks` has not received more than the elected instance. */
  ghost predicate CoveredByElected(s: State, acks: set<string>) {
    exists a :: a in acks && a in s.frozen && |Wal(s, a)| <= |Wal(s, Target(s))|
  }

  /** Some acknowledging set holds everything acknowledged under the settings in force. */
  ghost predicate Held(s: State)
    requires s.covered <= |s.acked|
  {
    s.covered == 0 ||
    exists acks :: AckSet(s.config.names, s.config.number, acks) && AllHave(s, acks, s.acked[..s.covered])
  }

  /** Every set that could acknowledge a commit has a frozen member that is not ahead of the elected instance. */
  ghost predicate ElectedCoversEveryAck(s: State) {
    && Target(s) != "" && Target(s) in s.frozen && Wal(s, Target(s)) <= Wal(s, Current(s))
    && forall acks :: AckSet(s.config.names, s.config.number, acks) ==> CoveredByElected(s, acks)
  }

  ghost predicate Inv(s: State) {
    && Current(s) != "" && Current(s) !in s.config.names && Current(s) !in s.frozen
    && s.covered <= |s.acked| && s.acked <= Wal(s, Current(s))
    && Held(s)
    && (s.electing ==> ElectedCoversEveryAck(s))
    && Current(s) !in s.former && forall p :: p in s.former ==> IsHarmless(s, p)
  }

  /** Each set that could acknowledge for a replaced primary has a member that left it without more than was kept. */
  ghost predicate IsHarmless(s: State, p: string)
    requires p in s.former
  {
    var f := s.former[p];
    && f.kept <= |Wal(s, p)| && Wal(s, p)[..f.kept] <= Wal(s, Current(s))
    && forall acks :: AckSet(f.config.names, f.config.number, acks) ==> LeftEarly(f, acks)
  }

  ghost predicate LeftEarly(f: Former, acks: set<string>) {
    exists a :: a in acks && a in f.left && f.left[a] <= f.kept
  }

  /** What makes an election safe: the elected instance covers every set that may acknowledge. */
  lemma ElectionCoversEveryAck(s: State, spec: ClusterSpec, o: Observation, t: State)
    requires Inv(s) && Faithful(s, o) && Trustworthy(s, spec, o)
    requires FailoverIsJustified(s.status, spec, o)
    requires t == s.(status := t.status, electing := true, frozen := StoppedStandbys(s, o))
    requires forall i :: i in o.list.items && i.pod != Current(s) ==> !i.isWalReceiverActive
    requires Current(t) == Current(s) && Target(t) == o.list.items[0].pod
    ensures ElectedCoversEveryAck(t)
  {
    var head := o.list.items[0];
    assert head in o.list.items;
    forall acks | AckSet(t.config.names, t.config.number, acks)
      ensures CoveredByElected(t, acks)
    {
      SoundCheckAnswers(o.lookup, o.list.items, s.config.names, s.config.number, acks);
      var m := HeadCoversReadableAck(o.list, acks);
      var k :| 0 <= k < |o.list.items| && o.list.items[k] == m;
      HeadIsMostAdvanced(o.list, k);
      assert m.pod in acks && m.pod in t.frozen && |Wal(t, m.pod)| <= |Wal(t, Target(t))|;
    }
  }

  /** What acknowledging sets hold, when logs are not cut below what was acknowledged. */
  lemma HeldIsKept(s: State, t: State)
    requires s.covered <= |s.acked| && Held(s)
    requires t.config == s.config && t.covered == s.covered <= |t.acked| && s.acked <= t.acked
    requires forall a :: s.acked[..s.covered] <= Wal(s, a) ==> s.acked[..s.covered] <= Wal(t, a)
    ensures Held(t)
  {
    assert t.acked[..t.covered] == s.acked[..s.covered];
    if s.covered > 0 {
      var acks :| AckSet(s.config.names, s.config.number, acks) && AllHave(s, acks, s.acked[..s.covered]);
      assert AckSet(t.config.names, t.config.number, acks) && AllHave(t, acks, t.acked[..t.covered]);
    }
  }

  /** The promise of an election in progress depends on the settings and on the frozen instances only. */
  lemma SamePromise(s: State, t: State)
    requires t.electing == s.electing && t.frozen == s.frozen && t.config == s.config && Target(t) == Target(s)
    requires s.electing ==> ElectedCoversEveryAck(s)
    requires forall i :: i in s.frozen ==> Wal(t, i) == Wal(s, i)
    requires Wal(s, Current(s)) <= Wal(t, Current(t))
    ensures t.electing ==> ElectedCoversEveryAck(t)
  {
    if s.electing {
      forall acks | AckSet(t.config.names, t.config.number, acks)
        ensures CoveredByElected(t, acks)
      {
        var a :| a in acks && a in s.frozen && |Wal(s, a)| <= |Wal(s, Target(s))|;
        assert a in acks && a in t.frozen && |Wal(t, a)| <= |Wal(t, Target(t))|;
      }
    }
  }

  /** A replaced primary stays harmless when neither its log nor that of the current primary is cut. */
  lemma StaysHarmless(s: State, t: State, p: string)
    requires p in s.former && IsHarmless(s, p) && p in t.former
    requires Wal(s, p) <= Wal(t, p) && Wal(s, Current(s)) <= Wal(t, Current(t))
    requires t.former[p].config == s.former[p].config && t.former[p].kept == s.former[p].kept
    requires forall a :: a in s.former[p].left ==> a in t.former[p].left && t.former[p].left[a] == s.former[p].left[a]
    ensures IsHarmless(t, p)
  {
    var f, g := s.former[p], t.former[p];
    assert Wal(t, p)[..g.kept] == Wal(s, p)[..f.kept];
    forall acks | AckSet(g.config.names, g.config.number, acks) ensures LeftEarly(g, acks) {
      assert LeftEarly(f, acks);
    }
  }

  /** Without a change of logs and settings, what is held stays held and the harmless stay harmless. */
  lemma SameLogs(s: State, t: State)
    requires Inv(s) && t.wal == s.wal && t.former == s.former && Current(t) == Current(s)
    requires t.config == s.config && t.covered == s.covered <= |t.acked| && s.acked <= t.acked
    ensures Held(t) && forall p :: p in t.former ==> IsHarmless(t, p)
  {
    assert forall i :: Wal(t, i) == Wal(s, i);
    HeldIsKept(s, t);
    forall p | p in t.former ensures IsHarmless(t, p) {
      StaysHarmless(s, t, p);
    }
  }

  lemma AppendKeepsInv(s: State, entry: nat)
    requires Inv(s)
    ensures Inv(s.(wal := s.wal[Current(s) := Wal(s, Current(s)) + [entry]]))
  {
    var t := s.(wal := s.wal[Current(s) := Wal(s, Current(s)) + [entry]]);
    assert forall i :: i != Current(s) ==> Wal(t, i) == Wal(s, i);
    LogsGrow(s, t);
  }

  /** Any step that only lets logs grow, and not those of frozen instances, keeps the invariant. */
  lemma LogsGrow(s: State, t: State)
    requires Inv(s) && t == s.(wal := t.wal)
    requires forall i :: Wal(s, i) <= Wal(t, i) && (i in s.frozen ==> Wal(t, i) == Wal(s, i))
    ensures Inv(t)
  {
    HeldIsKept(s, t);
    SamePromise(s, t);
    forall p | p in t.former ensures IsHarmless(t, p) {
      StaysHarmless(s, t, p);
    }
  }

  lemma FollowKeepsInv(s: State, i: string, n: nat)
    requires Inv(s) && i != Current(s) && i !in s.frozen
    requires Common(Wal(s, i), Wal(s, Current(s))) <= n <= |Wal(s, Current(s))|
    ensures Inv(AfterFollow(s, i, n))
  {
    var t := AfterFollow(s, i, n);
    assert forall j :: j != i ==> Wal(t, j) == Wal(s, j);
    var held := s.acked[..s.covered];
    if held <= Wal(s, i) {
      CommonIsLongest(held, Wal(s, i), Wal(s, Current(s)));
    }
    HeldIsKept(s, t);
    SamePromise(s, t);
    forall p | p in t.former ensures IsHarmless(t, p) {
      StaysHarmless(s, t, p);
    }
  }

  lemma AcknowledgeKeepsInv(s: State, acks: set<string>, n: nat)
    requires Inv(s) && AckSet(s.config.names, s.config.number, acks) && n <= |Wal(s, Current(s))|
    requires AllHave(s, acks, Wal(s, Current(s))[..n])
    ensures var t := s.(acked := if n > |s.acked| then Wal(s, Current(s))[..n] else s.acked,
                        covered := if n > s.covered then n else s.covered);
      Inv(t) && s.acked <= t.acked
  {
    var primary := Wal(s, Current(s));
    var t := s.(acked := if n > |s.acked| then primary[..n] else s.acked,
                covered := if n > s.covered then n else s.covered);
    if n > s.covered {
      assert t.acked[..t.covered] == primary[..n];
      assert AckSet(t.config.names, t.config.number, acks) && AllHave(t, acks, t.acked[..t.covered]);
    } else {
      HeldIsKept(s, t);
    }
    SamePromise(s, t);
    forall p | p in t.former ensures IsHarmless(t, p) {
      StaysHarmless(s, t, p);
    }
  }

  /** What a replaced primary can still acknowledge is in the log of the current primary. */
  lemma FormerAckIsKept(s: State, p: string, acks: set<string>, n: nat)
    requires p in s.former && IsHarmless(s, p) && n <= |Wal(s, p)|
    requires AckSet(s.former[p].config.names, s.former[p].config.number, acks)
    requires forall a :: a in acks && a in s.former[p].left ==> n <= s.former[p].left[a]
    ensures Wal(s, p)[..n] <= Wal(s, Current(s))
  {
    var f := s.former[p];
    assert LeftEarly(f, acks);
    assert Wal(s, p)[..n] == Wal(s, p)[..f.kept][..n];
  }

  /** So nothing is lost by it. */
  lemma FormerAckKeepsInv(s: State, p: string, acks: set<string>, n: nat)
    requires Inv(s) && p in s.former && n <= |Wal(s, p)|
    requires AckSet(s.former[p].config.names, s.former[p].config.number, acks)
    requires forall a :: a in acks && a in s.former[p].left ==> n <= s.former[p].left[a]
    ensures var t := AfterFormerAck(s, p, n); Inv(t) && s.acked <= t.acked && t.lost == s.lost
  {
    FormerAckIsKept(s, p, acks, n);
    MoreAckedKeepsInv(s, AfterFormerAck(s, p, n));
  }

  lemma MoreAckedKeepsInv(s: State, t: State)
    requires Inv(s) && t == s.(acked := t.acked) && s.acked <= t.acked <= Wal(s, Current(s))
    ensures Inv(t)
  {
    SameLogs(s, t);
    SamePromise(s, t);
  }

  /** The elected instance has every commit acknowledged under the settings in force, whenever that happened. */
  lemma ElectedHoldsCovered(s: State)
    requires Inv(s) && s.electing
    ensures s.acked[..s.covered] <= Wal(s, Target(s))
  {
    if s.covered > 0 {
      var acks :| AckSet(s.config.names, s.config.number, acks) && AllHave(s, acks, s.acked[..s.covered]);
      var a :| a in acks && a in s.frozen && |Wal(s, a)| <= |Wal(s, Target(s))|;
    }
  }

  /** Whether an elected instance has all that was ever acknowledged is a matter of how much it received. */
  lemma ElectedHoldsAckedExactly(s: State)
    requires Inv(s) && s.electing
    ensures s.acked <= Wal(s, Target(s)) <==> |s.acked| <= |Wal(s, Target(s))|
    ensures s.covered == |s.acked| ==> s.acked <= Wal(s, Target(s))
  {
    ElectedHoldsCovered(s);
  }

  lemma PassKeepsInv(s: State, spec: ClusterSpec, o: Observation, accepts: nat)
    requires Inv(s) && Faithful(s, o) && (Elects(s, spec, o, accepts) ==> Trustworthy(s, spec, o))
    requires !spec.isReplica && spec.failoverQuorum
    ensures Inv(AfterPass(s, spec, o, accepts))
  {
    var t := AfterPass(s, spec, o, accepts);
    PassChanges(s, spec, o, accepts);
    if Target(t) == Target(s) {
      SameElection(s, t);
    } else {
      if t.electing {
        ElectingPassCovers(s, spec, o, accepts);
      }
      NewTargetKeepsInv(s, t);
    }
  }

  lemma PassChanges(s: State, spec: ClusterSpec, o: Observation, accepts: nat)
    requires Current(s) !in s.frozen
    ensures var t := AfterPass(s, spec, o, accepts);
      && Current(t) == Current(s) && Current(s) !in t.frozen
      && t == s.(status := t.status, electing := t.electing, frozen := t.frozen)
      && (Target(t) == Target(s) ==> t == s.(status := t.status))
  {
    PassKeepsCurrentPrimary(s.status, spec, o, accepts);
  }

  lemma NewTargetKeepsInv(s: State, t: State)
    requires Inv(s) && t == s.(status := t.status, electing := t.electing, frozen := t.frozen)
    requires Current(t) == Current(s) && Current(s) !in t.frozen && (t.electing ==> ElectedCoversEveryAck(t))
    ensures Inv(t)
  {
    SameLogs(s, t);
  }

  lemma ElectingPassCovers(s: State, spec: ClusterSpec, o: Observation, accepts: nat)
    requires Inv(s) && Faithful(s, o) && Elects(s, spec, o, accepts) && Trustworthy(s, spec, o)
    requires !spec.isReplica && spec.failoverQuorum
    ensures ElectedCoversEveryAck(AfterPass(s, spec, o, accepts))
  {
    TargetMovesOnlyWithQuorum(s.status, spec, o, accepts);
    ElectionCoversEveryAck(s, spec, o, AfterPass(s, spec, o, accepts));
  }

  lemma SameElection(s: State, t: State)
    requires Inv(s) && t == s.(status := t.status) && Target(t) == Target(s) && Current(t) == Current(s)
    ensures Inv(t)
  {
    SameLogs(s, t);
    SamePromise(s, t);
  }

  /** Nothing depends on what the record says, but the elections that read it. */
  lemma RecordKeepsInv(s: State, t: State)
    requires Inv(s) && t == s.(record := t.record, published := true)
    ensures Inv(t)
  {
    SameLogs(s, t);
    SamePromise(s, t);
  }

  lemma SettingsKeepInv(s: State, config: Config)
    requires Inv(s) && !s.electing && Current(s) !in config.names
    ensures Inv(s.(config := config, covered := 0))
  {
    var t := s.(config := config, covered := 0);
    forall p | p in t.former ensures IsHarmless(t, p) {
      StaysHarmless(s, t, p);
    }
  }

  /** The primary that is replaced becomes harmless, and those replaced before stay so. */
  lemma PromotionLeavesFormerHarmless(s: State, config: Config, p: string)
    requires Inv(s) && s.electing && p in AfterPromotion(s, config).former
    ensures IsHarmless(AfterPromotion(s, config), p)
  {
    var t := AfterPromotion(s, config);
    var f := t.former[p];
    assert Wal(t, p) == Wal(s, p) && Wal(t, Current(t)) == Wal(s, Target(s));
    forall acks | AckSet(f.config.names, f.config.number, acks) ensures LeftEarly(f, acks) {
      if p == Current(s) {
        var a :| a in acks && a in s.frozen && |Wal(s, a)| <= |Wal(s, Target(s))|;
        assert a in acks && a in f.left && f.left[a] <= f.kept;
      } else {
        assert IsHarmless(s, p) && LeftEarly(s.former[p], acks);
        var a :| a in acks && a in s.former[p].left;
        assert a in acks && a in f.left && f.left[a] <= f.kept;
      }
    }
  }

  lemma PromotionKeepsInv(s: State, config: Config)
    requires Inv(s) && s.electing && Target(s) !in config.names
    ensures var t := AfterPromotion(s, config);
      && Inv(t) && s.acked[..s.covered] <= t.acked
      && (s.covered == |s.acked| ==> t.acked == s.acked && t.lost == s.lost)
  {
    ElectedHoldsCovered(s);
    var t := AfterPromotion(s, config);
    forall p | p in t.former ensures IsHarmless(t, p) {
      PromotionLeavesFormerHarmless(s, config, p);
    }
  }

  lemma FormerStepKeepsInv(spec: ClusterSpec, s: State, step: Step, t: State)
    requires Inv(s) && Next(spec, s, step, t) && (step.FormerAppend? || step.FormerFollow?)
    ensures Inv(t)
  {
    forall i ensures Wal(s, i) <= Wal(t, i) && (i in s.frozen ==> Wal(t, i) == Wal(s, i)) {
      assert step.FormerFollow? && i == step.instance ==> Wal(s, i) <= Wal(s, step.primary)[..step.length];
    }
    LogsGrow(s, t);
  }

  lemma StepKeepsInv(spec: ClusterSpec, s: State, step: Step, t: State)
    requires !spec.isReplica && spec.failoverQuorum
    requires Inv(s) && Next(spec, s, step, t)
    ensures Inv(t)
  {
    match step
    case Append(entry) => AppendKeepsInv(s, entry);
    case Follow(i, n) => FollowKeepsInv(s, i, n);
    case Acknowledge(acks, n) => AcknowledgeKeepsInv(s, acks, n);
    case ResetRecord => RecordKeepsInv(s, t);
    case Reload(config) => SettingsKeepInv(s, config);
    case Restart(config) => SettingsKeepInv(s, config);
    case Publish => RecordKeepsInv(s, t);
    case Promote(config) => PromotionKeepsInv(s, config);
    case OperatorPass(o, accepts) => PassKeepsInv(s, spec, o, accepts);
    case StatusChange(status) => SameElection(s, t);
    case FormerAppend(p, entry) => FormerStepKeepsInv(spec, s, step, t);
    case FormerFollow(p, i, n) => FormerStepKeepsInv(spec, s, step, t);
    case FormerAcknowledge(p, acks, n) => FormerAckKeepsInv(s, p, acks, n);
  }

  /** The acknowledged history only grows, unless a promotion drops what is not covered. */
  lemma StepKeepsAcked(spec: ClusterSpec, s: State, step: Step, t: State)
    requires Inv(s) && Next(spec, s, step, t)
    ensures if step.Promote? then s.acked[..s.covered] <= t.acked else s.acked <= t.acked && t.lost == s.lost
    ensures step.Promote? && s.covered == |s.acked| ==> t.acked == s.acked && t.lost == s.lost
  {
    match step
    case Acknowledge(acks, n) => AcknowledgeKeepsInv(s, acks, n);
    case Promote(config) => PromotionKeepsInv(s, config);
    case FormerAcknowledge(p, acks, n) => FormerAckKeepsInv(s, p, acks, n);
    case _ =>
  }

  // ---- The record ----

  /** A record that was zeroed or published by the current primary tells the settings in force. */
  ghost predicate RecordIsCurrent(s: State) { s.published ==> Truthful(s) }

  /** That is kept by everything but new settings that come into force without the record being zeroed first. */
  lemma StepKeepsRecordCurrent(spec: ClusterSpec, s: State, step: Step, t: State)
    requires s.covered <= |s.acked| && RecordIsCurrent(s) && Next(spec, s, step, t) && !step.Restart?
    ensures RecordIsCurrent(t)
  {
  }

  /** Whoever reads a current record can rely on it. */
  lemma CurrentRecordIsSound(s: State)
    requires RecordIsCurrent(s) && s.published
    ensures RecordIsSound(s.record, s.config.names, s.config.number)
  {
    assert s.config.names * s.config.names == s.config.names;
  }

  // ---- Whole runs ----

  ghost predicate Initial(s: State) {
    && Current(s) != "" && Target(s) == Current(s) && Current(s) !in s.config.names
    && !s.published && !s.electing && !s.lost && s.acked == [] && s.covered == 0 && s.frozen == {}
    && s.former == map[]
  }

  ghost predicate Run(spec: ClusterSpec, states: seq<State>, steps: seq<Step>) {
    && |states| == |steps| + 1
    && Initial(states[0])
    && forall i :: 0 <= i < |steps| ==>
         states[i].covered <= |states[i].acked| && Next(spec, states[i], steps[i], states[i + 1])
  }

  lemma InitialHasInv(s: State)
    requires Initial(s)
    ensures Inv(s)
  {
  }

  lemma StepOfRunKeepsInv(spec: ClusterSpec, states: seq<State>, steps: seq<Step>, n: nat)
    requires !spec.isReplica && spec.failoverQuorum && Run(spec, states, steps) && n < |steps| && Inv(states[n])
    ensures Inv(states[n + 1])
  {
    StepKeepsInv(spec, states[n], steps[n], states[n + 1]);
  }

  lemma {:induction false} RunKeepsInv(spec: ClusterSpec, states: seq<State>, steps: seq<Step>, n: nat)
    requires !spec.isReplica && spec.failoverQuorum && Run(spec, states, steps) && n <= |steps|
    ensures Inv(states[n])
  {
    if n == 0 {
      InitialHasInv(states[0]);
    } else {
      RunKeepsInv(spec, states, steps, n - 1);
      StepOfRunKeepsInv(spec, states, steps, n - 1);
    }
  }

  /** Between `i` and `j`, nobody promotes itself while the settings in force do not cover all that is acknowledged. */
  ghost predicate PromotesInTime(states: seq<State>, steps: seq<Step>, i: nat, j: nat)
    requires i <= j <= |steps| <= |states|
  {
    forall n :: i <= n < j && steps[n].Promote? ==> states[n].covered >= |states[n].acked|
  }

  /**
   In every run, whatever was acknowledged at some point is in the log of whoever is the current primary
   later, as long as no promotion in between happened before the settings of the replaced primary had
   acknowledged a commit after the older ones.
   */
  lemma NoAcknowledgedCommitIsLost(spec: ClusterSpec, states: seq<State>, steps: seq<Step>, i: nat, j: nat)
    requires !spec.isReplica && spec.failoverQuorum && Run(spec, states, steps) && i <= j <= |steps|
    requires PromotesInTime(states, steps, i, j)
    ensures states[i].acked <= states[j].acked <= Wal(states[j], Current(states[j]))
    ensures !states[i].lost ==> !states[j].lost
  {
    RunKeepsInv(spec, states, steps, j);
    AckedOnlyGrows(spec, states, steps, i, j);
  }

  lemma {:induction false} AckedOnlyGrows(spec: ClusterSpec, states: seq<State>, steps: seq<Step>, i: nat, j: nat)
    requires !spec.isReplica && spec.failoverQuorum && Run(spec, states, steps) && i <= j <= |steps|
    requires PromotesInTime(states, steps, i, j)
    ensures states[i].acked <= states[j].acked && (!states[i].lost ==> !states[j].lost)
    decreases j - i
  {
    if i < j {
      RunKeepsInv(spec, states, steps, j - 1);
      AckedOnlyGrows(spec, states, steps, i, j - 1);
      StepKeepsAcked(spec, states[j - 1], steps[j - 1], states[j]);
    }
  }

  /** Whatever the timing, a promotion keeps all that the settings in force acknowledged, up to that very step. */
  lemma PromotionKeepsCovered(spec: ClusterSpec, states: seq<State>, steps: seq<Step>, n: nat)
    requires !spec.isReplica && spec.failoverQuorum && Run(spec, states, steps)
    requires n < |steps| && steps[n].Promote?
    ensures states[n].acked[..states[n].covered] <= Wal(states[n + 1], Current(states[n + 1]))
  {
    RunKeepsInv(spec, states, steps, n);
    assert Next(spec, states[n], steps[n], states[n + 1]);
    ElectedHoldsCovered(states[n]);
  }

  ghost predicate NoRestart(steps: seq<Step>, i: nat, j: nat)
    requires i <= j <= |steps|
  {
    forall n :: i <= n < j ==> !steps[n].Restart?
  }

  /** As long as settings only change after the record was zeroed, a published record answers for those in force. */
  lemma {:induction false} RecordStaysSound(spec: ClusterSpec, states: seq<State>, steps: seq<Step>, i: nat, j: nat)
    requires Run(spec, states, steps) && i <= j <= |steps| && NoRestart(steps, i, j) && RecordIsCurrent(states[i])
    ensures RecordIsCurrent(states[j])
    ensures states[j].published ==> RecordIsSound(states[j].record, states[j].config.names, states[j].config.number)
    decreases j
  {
    if i < j {
      RecordStaysSound(spec, states, steps, i, j - 1);
      StepKeepsRecordCurrent(spec, states[j - 1], steps[j - 1], states[j]);
    }
    if states[j].published {
      CurrentRecordIsSound(states[j]);
    }
  }

  // ---- Exactly which elections are safe ----

  /** How much of the history of the current primary an instance has. */
  function Shared(s: State, i: string): nat { Common(Wal(s, i), Wal(s, Current(s))) }

  /** Whatever the settings in force may have acknowledged is in the log of `head`. */
  ghost predicate KeepsAcks(s: State, head: string) {
    forall acks, n: nat | AckSet(s.config.names, s.config.number, acks) && n <= |Wal(s, Current(s))| ::
      AllHave(s, acks, Wal(s, Current(s))[..n]) ==> Wal(s, Current(s))[..n] <= Wal(s, head)
  }

  /** Some member of `acks`, or the current primary, shares no more with the current primary than `head` does. */
  ghost predicate ReachesOneOf(s: State, head: string, acks: set<string>) {
    exists a :: a in acks + {Current(s)} && Shared(s, a) <= Shared(s, head)
  }

  lemma SharedIsWhatIsHeld(s: State, i: string, n: nat)
    requires n <= |Wal(s, Current(s))|
    ensures Wal(s, Current(s))[..n] <= Wal(s, i) <==> n <= Shared(s, i)
  {
    var primary := Wal(s, Current(s));
    CommonIsPrefix(Wal(s, i), primary);
    if n <= Shared(s, i) {
      assert primary[..n] == primary[..Shared(s, i)][..n] == Wal(s, i)[..n];
    }
    if primary[..n] <= Wal(s, i) {
      CommonIsLongest(primary[..n], Wal(s, i), primary);
    }
  }

  /**
   Electing `head` keeps everything that may have been acknowledged exactly when each acknowledging set has a
   member that `head` reaches, whoever `head` is: a standby, a primary of the past, or an instance with another
   history, and whatever the record says.
   */
  lemma ElectionKeepsAcksExactly(s: State, head: string)
    ensures KeepsAcks(s, head) <==>
            forall acks | AckSet(s.config.names, s.config.number, acks) :: ReachesOneOf(s, head, acks)
  {
    var primary := Wal(s, Current(s));
    CommonIsLongest(primary, primary, primary);
    if KeepsAcks(s, head) {
      forall acks | AckSet(s.config.names, s.config.number, acks) ensures ReachesOneOf(s, head, acks) {
        if !ReachesOneOf(s, head, acks) {
          var n := Shared(s, head) + 1;
          assert Current(s) in acks + {Current(s)} && n <= Shared(s, Current(s));
          forall a | a in acks ensures primary[..n] <= Wal(s, a) {
            assert a in acks + {Current(s)};
            SharedIsWhatIsHeld(s, a, n);
          }
          assert AllHave(s, acks, primary[..n]);
          SharedIsWhatIsHeld(s, head, n);
        }
      }
    } else {
      var acks, n: nat :| AckSet(s.config.names, s.config.number, acks) && n <= |primary| &&
        AllHave(s, acks, primary[..n]) && !(primary[..n] <= Wal(s, head));
      SharedIsWhatIsHeld(s, head, n);
      forall a | a in acks + {Current(s)} ensures Shared(s, a) > Shared(s, head) {
        SharedIsWhatIsHeld(s, a, n);
      }
      assert !ReachesOneOf(s, head, acks);
    }
  }

  /** An election that can be trusted is one of those. */
  lemma TrustworthyElectionKeepsAcks(s: State, spec: ClusterSpec, o: Observation)
    requires Inv(s) && Faithful(s, o) && Trustworthy(s, spec, o) && FailoverIsJustified(s.status, spec, o)
    ensures KeepsAcks(s, o.list.items[0].pod)
  {
    var head := o.list.items[0];
    assert head in o.list.items;
    CommonIsLongest(Wal(s, head.pod), Wal(s, head.pod), Wal(s, Current(s)));
    forall acks | AckSet(s.config.names, s.config.number, acks) ensures ReachesOneOf(s, head.pod, acks) {
      SoundCheckAnswers(o.lookup, o.list.items, s.config.names, s.config.number, acks);
      var m := HeadCoversReadableAck(o.list, acks);
      var k :| 0 <= k < |o.list.items| && o.list.items[k] == m;
      HeadIsMostAdvanced(o.list, k);
      assert m.pod in acks + {Current(s)} && Shared(s, m.pod) <= |Wal(s, m.pod)| <= Shared(s, head.pod);
    }
    ElectionKeepsAcksExactly(s, head.pod);
  }

  // ---- What happens when a condition is missing ----

  /** A ready instance, with no working WAL receiver. */
  function Report(pod: string, isPrimary: bool, lsn: nat): InstanceStatus {
    InstanceStatus(pod, "node", false, isPrimary, true, true, false, false, lsn, 0)
  }

  const WORKING := ClusterStatus("b", "b", Healthy, None, 1, false)
  const GUARDED := ClusterSpec(3, false, 0, true, {})

  /** A cluster led by "b", which wrote and acknowledged entry 7; `others` are the logs of the other instances. */
  function LedByB(others: map<string, seq<nat>>, record: QuorumRecord, published: bool, covered: nat,
                  names: set<string>): State
  {
    State(WORKING, others["b" := [7]], Config(names, 1), record, published, [7], covered, false, {}, map[], false)
  }

  function Sees(reports: seq<InstanceStatus>, record: QuorumRecord): Observation {
    Observation(1, false, {}, Prepared, false, false, false, StatusList(reports, false, "b"),
                false, false, false, false, Found(record), map[], 0, 0)
  }

  lemma CheckPasses(record: QuorumRecord, reports: seq<InstanceStatus>, standby: string)
    requires record.standbyNames == [standby] && record.standbyNumber == 1
    requires exists r :: r in reports && r.pod == standby && !r.failed && r.isPodReady
    ensures QuorumCheck(Found(record), reports)
  {
    assert Elements(record.standbyNames) == {standby};
    assert {standby} * Promotable(reports) == {standby};
    PigeonholeIsExact({standby}, Promotable(reports), 1);
  }

  /** With all receivers stopped, no delay and a passed check, the election names the head of the list. */
  lemma ElectionNamesHead(o: Observation)
    requires o.list.items != [] && o.list.items[0].pod != "b" && !o.list.items[0].failed
    requires QuorumCheck(o.lookup, o.list.items) && AreWalReceiversDown(o.list, "b")
    ensures var p := WORKING.(phase := FailOver, targetPrimary := PENDING_FAILOVER_MARKER);
      ElectForNonReplica(WORKING, GUARDED, o) ==
        Plan([WORKING.(phase := FailOver), p] + [p, p.(targetPrimary := o.list.items[0].pod)],
             Selected(o.list.items[0].pod))
  {
    assert Stamp(WORKING, GUARDED, o) == WORKING && Save(WORKING, WORKING) == [];
    var f := WORKING.(phase := FailOver);
    assert [] + [f, f.(targetPrimary := PENDING_FAILOVER_MARKER)] == [f, f.(targetPrimary := PENDING_FAILOVER_MARKER)];
  }

  /** Once the check passes on the record that is read, the pass elects the head of the list, whoever that is. */
  lemma ElectsHead(s: State, reports: seq<InstanceStatus>, record: QuorumRecord)
    requires s.status == WORKING && reports != [] && reports[0].pod != "b"
    requires forall r :: r in reports ==> r == Report(r.pod, r.isPrimary, r.receivedLsn)
    requires |PrimaryNames(reports)| <= 1 && QuorumCheck(Found(record), reports)
    ensures Target(AfterPass(s, GUARDED, Sees(reports, record), 4)) == reports[0].pod
  {
    var o := Sees(reports, record);
    assert reports[0] in reports && !reports[0].failed && reports[0].isPodReady;
    assert AreWalReceiversDown(o.list, "b") && !ReportingMightBeUnavailable(o.list, "b");
    ElectionNamesHead(o);
    assert ResetTarget(WORKING, o) == WORKING && Save(WORKING, WORKING) == [];
    assert !StopsAtGuards(WORKING, o) && !AllReadyInstancesUnreachable(o.list) && !HeadAwaitsReadiness(o.list);
    assert !PrimaryIsDrained(WORKING, GUARDED, o);
    var elect := ElectForNonReplica(WORKING, GUARDED, o);
    assert HandleSwitchover(WORKING, GUARDED, o) == elect;
    assert [] + elect.writes == elect.writes;
  }

  lemma LedByBIsInvariant(s: State, others: map<string, seq<nat>>, holder: string)
    requires s == LedByB(others, s.record, s.published, s.covered, s.config.names)
    requires holder != "b" && holder in others && others[holder] == [7]
    requires "b" !in s.config.names && s.covered <= 1 && (s.covered == 1 ==> holder in s.config.names)
    ensures Inv(s)
  {
    if s.covered == 1 {
      assert s.acked[..s.covered] == [7] == Wal(s, holder);
      assert AckSet(s.config.names, 1, {holder}) && AllHave(s, {holder}, s.acked[..s.covered]);
    }
  }

  /** All that `Trustworthy` asks for, but that the record which is read answers for the settings in force. */
  ghost predicate OnlyRecordIsOff(s: State, o: Observation) {
    && Trustworthy(s, GUARDED, o.(lookup := NotFound))
    && o.lookup.Found? && !RecordIsSound(o.lookup.record, s.config.names, s.config.number)
  }

  /** The check passes on a record that asks for "c", which heads the list with an empty log. */
  lemma ElectsC(s: State, record: QuorumRecord)
    requires s.status == WORKING && Wal(s, "c") == [] && record.standbyNames == ["c"] && record.standbyNumber == 1
    ensures Faithful(s, Sees([Report("c", false, 0)], record))
    ensures Target(AfterPass(s, GUARDED, Sees([Report("c", false, 0)], record), 4)) == "c"
    ensures Trustworthy(s, GUARDED, Sees([Report("c", false, 0)], record).(lookup := NotFound))
    ensures Elements(record.standbyNames) == {"c"}
  {
    var reports := [Report("c", false, 0)];
    assert PrimaryNames(reports) == [] by {
      assert reports[1..] == [];
    }
    CheckPasses(record, reports, "c");
    ElectsHead(s, reports, record);
  }

  /**
   The check ignores which primary published the record. A record left by the primary before the current
   one can allow the election of an instance that misses what the current primary had acknowledged.
   */
  lemma StaleRecordCanLoseCommits() returns (s: State, o: Observation)
    ensures Inv(s) && Faithful(s, o) && !s.published && s.record.primary != Current(s) && s.covered == |s.acked|
    ensures o.lookup == Found(s.record) && OnlyRecordIsOff(s, o)
    ensures Target(AfterPass(s, GUARDED, o, 4)) == "c" && !(s.acked[..s.covered] <= Wal(s, "c"))
  {
    var record, others := QuorumRecord("a", ["c"], 1), map["d" := [7]];
    s := LedByB(others, record, false, 1, {"c", "d"});
    o := Sees([Report("c", false, 0)], record);
    LedByBIsInvariant(s, others, "d");
    ElectsC(s, record);
    assert {"c"} * s.config.names == {"c"};
  }

  /**
   A record that the operator read before it changed does the same, although the one that is published tells the
   settings in force.
   */
  lemma OutdatedReadCanLoseCommits() returns (s: State, o: Observation)
    ensures Inv(s) && Faithful(s, o) && s.published && Truthful(s) && s.covered == |s.acked|
    ensures o.lookup.Found? && o.lookup.record.primary == Current(s) && OnlyRecordIsOff(s, o)
    ensures Target(AfterPass(s, GUARDED, o, 4)) == "c" && !(s.acked[..s.covered] <= Wal(s, "c"))
  {
    var record, others := QuorumRecord("b", ["c"], 1), map["d" := [7]];
    s := LedByB(others, QuorumRecord("b", ["d"], 1), true, 1, {"d"});
    o := Sees([Report("c", false, 0)], record);
    assert Elements(["d"]) == {"d"};
    LedByBIsInvariant(s, others, "d");
    ElectsC(s, record);
    assert {"c"} * s.config.names == {};
  }

  /**
   And so does a restart that puts new settings into force: the record is not zeroed before it, and stays as it
   was, of the same primary, until that publishes it again.
   */
  lemma RestartCanLoseCommits() returns (s: State, t: State, u: State, o: Observation)
    ensures Inv(s) && s.published && Truthful(s) && s.record.primary == Current(s) && s.covered == |s.acked|
    ensures Next(GUARDED, s, Restart(Config({"d"}, 1)), t) && t.covered <= |t.acked|
    ensures Next(GUARDED, t, Acknowledge({"d"}, 1), u) && Inv(u) && u.covered == |u.acked|
    ensures Faithful(u, o) && o.lookup == Found(u.record) && u.record == s.record && OnlyRecordIsOff(u, o)
    ensures Target(AfterPass(u, GUARDED, o, 4)) == "c" && !(u.acked[..u.covered] <= Wal(u, "c"))
  {
    var record, config := QuorumRecord("b", ["c"], 1), Config({"d"}, 1);
    s := LedByB(map["d" := [7]], record, true, 0, {"c"}).(acked := []);
    t := s.(config := config);
    u := t.(acked := [7], covered := 1);
    o := Sees([Report("c", false, 0)], record);
    assert Wal(t, "b")[..1] == [7] && Wal(t, "d") == [7];
    assert AckSet(config.names, 1, {"d"}) && AllHave(t, {"d"}, [7]);
    SettingsKeepInv(s, config);
    AcknowledgeKeepsInv(t, {"d"}, 1);
    ElectsC(u, record);
    assert {"c"} * u.config.names == {};
  }

  /** Settings that change between an election and the promotion make the election worthless. */
  lemma LateSettingsCanLoseCommits() returns (s: State, t: State, u: State)
    ensures Inv(s) && s.electing && s.covered == |s.acked| && Target(s) == "c"
    ensures t == s.(config := Config({"d"}, 1), covered := 0)
    ensures Next(GUARDED, t, Acknowledge({"d"}, 1), u) && u.covered == |u.acked| && !(u.acked <= Wal(u, Target(u)))
  {
    s := LedByB(map["d" := [7]], ZEROED, true, 0, {"c"}).(
      status := WORKING.(targetPrimary := "c"), acked := [], electing := true, frozen := {"c"});
    t := s.(config := Config({"d"}, 1));
    u := t.(acked := [7], covered := 1);
    assert Wal(t, "b")[..1] == [7] && Wal(t, "d") == [7];
    assert AckSet(t.config.names, 1, {"d"}) && AllHave(t, {"d"}, [7]);
    forall acks | AckSet(s.config.names, 1, acks) ensures CoveredByElected(s, acks) {
      assert acks != {};
      var a :| a in acks;
      assert a == "c" && a in s.frozen;
    }
  }

  /** So do settings that change at a primary that was replaced: it acknowledges what its successor never received. */
  lemma FormerSettingsCanLoseCommits() returns (s: State, t: State, u: State)
    ensures Inv(s) && !s.lost && "b" in s.former
    ensures t == s.(former := s.former["b" := s.former["b"].(config := Config({"d"}, 1))]) && t.covered <= |t.acked|
    ensures Next(GUARDED, t, FormerAcknowledge("b", {"d"}, 1), u) && u.lost
  {
    var f := Former(Config({"c"}, 1), map["c" := 0], 0);
    s := LedByB(map["d" := [7]], ZEROED, false, 0, {}).(
      status := WORKING.(currentPrimary := "c", targetPrimary := "c"), acked := [], former := map["b" := f]);
    t := s.(former := s.former["b" := f.(config := Config({"d"}, 1))]);
    u := t.(lost := true);
    assert Wal(t, "b")[..1] == [7] && Wal(t, "d") == [7] && Wal(t, "c") == [];
    forall acks | AckSet(f.config.names, 1, acks) ensures LeftEarly(f, acks) {
      assert acks != {};
      var a :| a in acks;
      assert a == "c" && a in f.left;
    }
  }

  /**
   A primary of the past that reports again heads the list however little it has received, and is elected
   although a standby that holds every acknowledged commit is listed after it.
   */
  lemma StalePrimaryCanLoseCommits() returns (s: State, o: Observation)
    ensures Inv(s) && Faithful(s, o) && s.published && s.covered == |s.acked| && |o.list.items| == 2
    ensures o.list.items[0].isPrimary && o.list.items[0].pod == "a" != Current(s)
    ensures !o.list.items[1].failed && s.acked <= Wal(s, o.list.items[1].pod)
    ensures Target(AfterPass(s, GUARDED, o, 4)) == "a" && !(s.acked[..s.covered] <= Wal(s, "a"))
  {
    var record, others := QuorumRecord("b", ["c"], 1), map["c" := [7]];
    s := LedByB(others, record, true, 1, {"c"});
    var reports := [Report("a", true, 0), Report("c", false, 1)];
    o := Sees(reports, record);
    assert Elements(["c"]) == {"c"};
    LedByBIsInvariant(s, others, "c");
    TwoReports(record, reports);
    ElectsHead(s, reports, record);
  }

  /**
   Positions are compared across histories: a standby that returns with more of a history that was given up
   heads the list, and is elected over a standby that holds every acknowledged commit.
   */
  lemma DivergedStandbyCanLoseCommits() returns (s: State, o: Observation)
    ensures Inv(s) && Faithful(s, o) && s.published && s.covered == |s.acked| && |o.list.items| == 2
    ensures !o.list.items[0].isPrimary && o.list.items[0].pod == "x" && !(Wal(s, "x") <= Wal(s, Current(s)))
    ensures !o.list.items[1].failed && s.acked <= Wal(s, o.list.items[1].pod)
    ensures Target(AfterPass(s, GUARDED, o, 4)) == "x" && !(s.acked[..s.covered] <= Wal(s, "x"))
  {
    var record, others := QuorumRecord("b", ["c"], 1), map["c" := [7], "x" := [8, 9]];
    s := LedByB(others, record, true, 1, {"c"});
    var reports := [Report("x", false, 2), Report("c", false, 1)];
    o := Sees(reports, record);
    assert Elements(["c"]) == {"c"};
    LedByBIsInvariant(s, others, "c");
    TwoReports(record, reports);
    ElectsHead(s, reports, record);
  }

  lemma TwoReports(record: QuorumRecord, reports: seq<InstanceStatus>)
    requires record.standbyNames == ["c"] && record.standbyNumber == 1
    requires |reports| == 2 && reports[1] == Report("c", false, 1)
    ensures |PrimaryNames(reports)| <= 1 && QuorumCheck(Found(record), reports)
  {
    assert reports[1].pod == "c" && reports[1] in reports;
    assert reports[1..] == [reports[1]] && PrimaryNames(reports[1..]) == [];
    CheckPasses(record, reports, "c");
  }

  /**
   Even with a truthful record, a commit acknowledged before the last change of the settings can be lost
   while no later commit was acknowledged: the hypothesis on the timing of promotions is needed.
   */
  lemma UncoveredCommitCanBeLost() returns (s: State, o: Observation)
    ensures Inv(s) && Faithful(s, o) && Trustworthy(s, GUARDED, o) && s.covered < |s.acked|
    ensures Target(AfterPass(s, GUARDED, o, 4)) == "c" && !(s.acked <= Wal(s, "c"))
  {
    var record, others := QuorumRecord("b", ["c"], 1), map["d" := [7]];
    s := LedByB(others, record, true, 0, {"c"});
    o := Sees([Report("c", false, 0)], record);
    LedByBIsInvariant(s, others, "d");
    ElectsC(s, record);
    CurrentRecordIsSound(s);
  }
}
