/**
 The backup reconciler as a phase machine, and mutual exclusion over its runs.

 Passes run one at a time and are interleaved with the progress that instance managers report. Backups
 are those taken by an instance manager.
 */
module BackupRuns {
  import opened Names
  import opened BackupAdmission

  datatype ClusterRead = ClusterFound | ClusterMissing | ClusterReadError
  datatype RunCheck = StillRunning | GoneFromInstance | TargetUnhealthy | ManagerRestarted | RunCheckError
  datatype StartResult = PodMissing | PodNotReady | PodError | CommandFailed | CommandSent

  /** What a pass finds out besides the list of backups. */
  datatype Circumstance = Circumstance(
    cluster: ClusterRead,
    prerequisitesMet: bool,
    halted: bool,
    run: RunCheck,
    start: StartResult)

  type Backups = map<string, Backup>

  function AfterStart(b: Backup, start: StartResult): Backup {
    match start
    case PodMissing => b.(phase := Pending)
    case PodNotReady => b.(phase := Pending)
    case PodError => b.(phase := BackupFailed)
    case CommandFailed => b.(phase := BackupFailed, dispatched := true)
    case CommandSent => b.(phase := Started, dispatched := true)
  }

  /** The backup after its pass. */
  ghost function Reconciled(bs: Backups, name: string, circ: Circumstance): Backup
    requires name in bs
  {
    var b := bs[name];
    if b.IsDone() then b
    else if circ.cluster == ClusterMissing then b.(phase := Pending)
    else if circ.cluster == ClusterReadError || !circ.prerequisitesMet then b.(phase := BackupFailed)
    else if circ.halted then b
    else if !Admits(bs.Values, name) then b.(phase := Pending)
    else if b.phase == Unset || !b.dispatched then AfterStart(b, circ.start)
    else match circ.run
      case StillRunning => b
      case RunCheckError => b
      case TargetUnhealthy => b.(phase := BackupFailed)
      case ManagerRestarted => b.(phase := BackupFailed)
      case GoneFromInstance => AfterStart(b, circ.start)
  }

  /** What a pass does to the outside: it stores a backup, or asks an instance manager to take one. */
  datatype Event = Stored(name: string, backup: Backup) | Sent(name: string)

  /** A patch is sent only when it changes something. */
  function Patch(name: string, before: Backup, after: Backup): seq<Event> {
    if before == after then [] else [Stored(name, after)]
  }

  function StartEvents(name: string, b: Backup, start: StartResult): seq<Event> {
    var started := AfterStart(b, CommandSent);
    if start.CommandSent? then Patch(name, b, started) + [Sent(name)]
    else if start.CommandFailed? then
      Patch(name, b, started) + [Sent(name)] + Patch(name, started, AfterStart(b, start))
    else Patch(name, b, AfterStart(b, start))
  }

  /** The pass gets to taking the backup. */
  ghost predicate Starts(bs: Backups, name: string, circ: Circumstance)
    requires name in bs
  {
    var b := bs[name];
    && !b.IsDone() && circ.cluster == ClusterFound && circ.prerequisitesMet && !circ.halted
    && Admits(bs.Values, name)
    && (b.phase == Unset || !b.dispatched || circ.run == GoneFromInstance)
  }

  ghost function PassEvents(bs: Backups, name: string, circ: Circumstance): seq<Event> {
    if name !in bs then []
    else if Starts(bs, name, circ) then StartEvents(name, bs[name], circ.start)
    else Patch(name, bs[name], Reconciled(bs, name, circ))
  }

  class BackupReconciler {
    var backups: Backups
    var events: seq<Event>  // what was stored and sent so far

    constructor ()
      ensures backups == map[] && events == []
    {
      backups, events := map[], [];
    }

    method Store(name: string, b: Backup)
      requires name in backups
      modifies this
      ensures backups == old(backups)[name := b]
      ensures events == old(events) + Patch(name, old(backups)[name], b)
    {
      if backups[name] != b {
        backups, events := backups[name := b], events + [Stored(name, b)];
      } else {
        assert backups == backups[name := b];
      }
    }

    /** The API server lists the backups in an order of its own. */
    method List() returns (items: seq<Backup>)
      ensures Items(items) == backups.Values
    {
      items := [];
      var keys := backups.Keys;
      ghost var seen: set<string> := {};
      while keys != {}
        invariant seen + keys == backups.Keys
        invariant forall b :: b in items <==> exists k :: k in seen && backups[k] == b
        decreases |keys|
      {
        var k :| k in keys;
        items := items + [backups[k]];
        seen, keys := seen + {k}, keys - {k};
      }
    }

    method Start(name: string, start: StartResult)
      requires name in backups
      modifies this
      ensures backups == old(backups)[name := AfterStart(old(backups)[name], start)]
      ensures events == old(events) + StartEvents(name, old(backups)[name], start)
    {
      var b := backups[name];
      if start == PodMissing || start == PodNotReady {
        Store(name, b.(phase := Pending));
        return;
      }
      if start == PodError {
        Store(name, b.(phase := BackupFailed));
        return;
      }
      Store(name, b.(phase := Started, dispatched := true));
      events := events + [Sent(name)];
      if start == CommandFailed {
        Store(name, backups[name].(phase := BackupFailed));
      }
    }

    method Reconcile(name: string, circ: Circumstance)
      modifies this
      ensures backups == if name in old(backups)
                         then old(backups)[name := Reconciled(old(backups), name, circ)] else old(backups)
      ensures events == old(events) + PassEvents(old(backups), name, circ)
    {
      if name !in backups {
        return;
      }
      var b := backups[name];
      assert backups == backups[name := b];
      if b.IsDone() {
        return;
      }
      match circ.cluster {
        case ClusterMissing =>
          Store(name, b.(phase := Pending));
          return;
        case ClusterReadError =>
          Store(name, b.(phase := BackupFailed));
          return;
        case ClusterFound =>
      }
      if !circ.prerequisitesMet {
        Store(name, b.(phase := BackupFailed));
        return;
      }
      if circ.halted {
        return;
      }
      var items := List();
      var list := new BackupList(items);
      var ok := list.CanExecuteBackup(name);
      if !ok {
        Store(name, b.(phase := Pending));
        return;
      }
      if b.phase != Unset && b.dispatched {
        match circ.run {
          case StillRunning => return;
          case RunCheckError => return;
          case TargetUnhealthy => Store(name, b.(phase := BackupFailed));
          case ManagerRestarted => Store(name, b.(phase := BackupFailed));
          case GoneFromInstance => Start(name, circ.start);
        }
      } else {
        Start(name, circ.start);
      }
    }
  }

  // ---- Mutual exclusion ----

  /** An instance manager was asked to take the backup, and it is not recorded as ended. */
  predicate Active(b: Backup) { b.dispatched && !b.IsDone() }

  ghost predicate WellFormed(bs: Backups) {
    && (forall k :: k in bs ==> bs[k].name == k)
    && (forall k :: k in bs ==> bs[k].phase != Finalizing && bs[k].phase != WalArchivingFailing)
    && (forall k :: k in bs && bs[k].dispatched ==> bs[k].phase != Unset)
  }

  /** Nothing with an earlier name is in progress beside an active backup. */
  ghost predicate ActiveLeads(bs: Backups) {
    forall x, y :: x in bs && y in bs && Active(bs[x]) && Before(y, x) ==> !bs[y].IsInProgress()
  }

  ghost predicate Inv(bs: Backups) { WellFormed(bs) && ActiveLeads(bs) }

  ghost predicate Exclusive(bs: Backups) {
    forall x, y :: x in bs && y in bs && Active(bs[x]) && Active(bs[y]) ==> x == y
  }

  lemma InvIsExclusive(bs: Backups)
    requires Inv(bs)
    ensures Exclusive(bs)
  {
    forall x, y | x in bs && y in bs && Active(bs[x]) && Active(bs[y]) ensures x == y {
      BeforeIsTotal(x, y);
    }
  }

  /** A backup leaves the empty phase only while no backup with a later name is active. */
  ghost predicate LeavesInOrder(bs: Backups, name: string) {
    name in bs && bs[name].phase == Unset ==> forall x :: x in bs && Active(bs[x]) ==> !Before(name, x)
  }

  /** With an active backup around, it is the only one that can be admitted. */
  lemma ActiveIsAdmitted(bs: Backups, x: string, name: string)
    requires Inv(bs) && x in bs && Active(bs[x]) && name in bs && LeavesInOrder(bs, name)
    requires Admits(bs.Values, name) && !bs[name].IsDone()
    ensures name == x
  {
    assert bs[x] in bs.Values && bs[x].IsInProgress();
    var b :| b in bs.Values && b.IsInProgress() && b.name == name;
    BeforeIsTotal(name, x);
  }

  lemma ReconcileKeepsInv(bs: Backups, name: string, circ: Circumstance)
    requires Inv(bs) && name in bs && LeavesInOrder(bs, name)
    ensures Inv(bs[name := Reconciled(bs, name, circ)])
  {
    var b' := Reconciled(bs, name, circ);
    var bs' := bs[name := b'];
    forall x, y | x in bs' && y in bs' && Active(bs'[x]) && Before(y, x) ensures !bs'[y].IsInProgress() {
      BeforeIsAsymmetric(x, y);
      if x == name && !Active(bs[name]) {
        // the backup was started by this very pass: nothing else was in progress before it
        assert Admits(bs.Values, name);
        assert bs[y] in bs.Values && bs[name] in bs.Values;
      } else if y == name && bs[name].phase != Unset {
        assert !bs[name].IsInProgress();
      }
    }
  }

  datatype Step =
    | Create(name: string)
    | Reconcile(name: string, circ: Circumstance)
    | Report(name: string, phase: Phase)  // an instance manager reports progress or the end, even of a failed backup
    | Delete(name: string)

  function Reported(bs: Backups, name: string, phase: Phase): Backups
    requires name in bs
  {
    bs[name := bs[name].(phase := phase)]
  }

  ghost predicate Next(bs: Backups, step: Step, bs': Backups) {
    match step
    case Create(name) => name !in bs && bs' == bs[name := Backup(name, Unset, false)]
    case Reconcile(name, circ) => name in bs && bs' == bs[name := Reconciled(bs, name, circ)]
    case Report(name, phase) =>
      && name in bs && bs[name].dispatched && phase in {Running, BackupCompleted, BackupFailed}
      && bs' == Reported(bs, name, phase)
    case Delete(name) => bs' == bs - {name}
  }

  ghost predicate Run(states: seq<Backups>, steps: seq<Step>) {
    && |states| == |steps| + 1 && states[0] == map[]
    && forall i :: 0 <= i < |steps| ==> Next(states[i], steps[i], states[i + 1])
  }

  /** Nothing before `name` is in progress, and nothing after it is active: it may be running. */
  ghost predicate MayRun(bs: Backups, name: string) {
    forall y :: y in bs ==> (Before(y, name) ==> !bs[y].IsInProgress()) && (Active(bs[y]) ==> !Before(name, y))
  }

  /** A report is in order when it is about an active backup, or ends one, or does not revive one beside others. */
  ghost predicate ReportsInOrder(bs: Backups, name: string, phase: Phase) {
    name in bs ==> Active(bs[name]) || phase != Running || MayRun(bs, name)
  }

  /**
   Reports are stored without a look at the phase: one that arrives late sets a backup that was recorded as failed
   back to running. It keeps the invariant exactly when that backup may be running.
   */
  lemma LateReportIsSafeExactly(bs: Backups, name: string, phase: Phase)
    requires Inv(bs) && name in bs && bs[name].dispatched && phase in {Running, BackupCompleted, BackupFailed}
    ensures Inv(Reported(bs, name, phase)) <==> ReportsInOrder(bs, name, phase)
    ensures phase == Running ==>
      (Exclusive(Reported(bs, name, phase)) <==> forall x :: x in bs && x != name ==> !Active(bs[x]))
  {
    var bs' := Reported(bs, name, phase);
    BeforeIsAsymmetric(name, name);
    if ReportsInOrder(bs, name, phase) {
      forall x, y | x in bs' && y in bs' && Active(bs'[x]) && Before(y, x) ensures !bs'[y].IsInProgress() {
        assert Active(bs[x]) && bs[y].IsInProgress() ==> !Before(y, x);
      }
    } else if Inv(bs') {
      forall y | y in bs ensures (Before(y, name) ==> !bs[y].IsInProgress()) && (Active(bs[y]) ==> !Before(name, y)) {
        assert bs'[name].IsInProgress() && Active(bs'[name]);
        assert y != name ==> bs'[y] == bs[y];
      }
    }
    if phase == Running {
      assert Active(bs'[name]);
      if Exclusive(bs') {
        forall x | x in bs && x != name ensures !Active(bs[x]) {
          assert bs'[x] == bs[x];
        }
      } else {
        InvIsExclusive(bs);
      }
    }
  }

  /** In any run whose backups leave the empty phase and report in order, at most one is active at any time. */
  lemma {:induction false} AtMostOneBackupRuns(states: seq<Backups>, steps: seq<Step>, n: nat)
    requires Run(states, steps) && n <= |steps|
    requires forall i :: 0 <= i < n && steps[i].Reconcile? ==> LeavesInOrder(states[i], steps[i].name)
    requires forall i :: 0 <= i < n && steps[i].Report? ==> ReportsInOrder(states[i], steps[i].name, steps[i].phase)
    ensures Inv(states[n]) && Exclusive(states[n])
  {
    if n > 0 {
      AtMostOneBackupRuns(states, steps, n - 1);
      assert Next(states[n - 1], steps[n - 1], states[n]);
      if steps[n - 1].Reconcile? {
        ReconcileKeepsInv(states[n - 1], steps[n - 1].name, steps[n - 1].circ);
      } else if steps[n - 1].Report? {
        LateReportIsSafeExactly(states[n - 1], steps[n - 1].name, steps[n - 1].phase);
      }
    }
    InvIsExclusive(states[n]);
  }

  // ---- What a pass makes of a backup ----

  /** A backup that ended is left alone. */
  lemma DoneIsFinal(bs: Backups, name: string, circ: Circumstance)
    requires name in bs && bs[name].phase in {BackupCompleted, BackupFailed}
    ensures Reconciled(bs, name, circ) == bs[name] && PassEvents(bs, name, circ) == []
  {
  }

  /** A new backup starts when it is admitted, a pod is ready and the command gets through; else it waits or fails. */
  lemma NewBackupExactly(bs: Backups, name: string, circ: Circumstance)
    requires name in bs && bs[name].phase in {Unset, Pending} && (bs[name].phase == Pending ==> !bs[name].dispatched)
    ensures var b := Reconciled(bs, name, circ);
      var proceeds := circ.cluster == ClusterFound && circ.prerequisitesMet && !circ.halted;
      var waits := circ.cluster == ClusterFound && circ.prerequisitesMet && circ.halted;
      && (b.phase == Unset <==> waits && bs[name].phase == Unset)
      && (b.phase == Started <==> proceeds && Admits(bs.Values, name) && circ.start == CommandSent)
      && (b.phase == Pending <==>
            || circ.cluster == ClusterMissing
            || (waits && bs[name].phase == Pending)
            || (proceeds && (!Admits(bs.Values, name) || circ.start in {PodMissing, PodNotReady})))
      && (b.phase == BackupFailed <==>
            || circ.cluster == ClusterReadError
            || (circ.cluster == ClusterFound && !circ.prerequisitesMet)
            || (proceeds && Admits(bs.Values, name) && circ.start in {PodError, CommandFailed}))
      && b.name == bs[name].name
      && (b.dispatched <==>
            || bs[name].dispatched
            || (proceeds && Admits(bs.Values, name) && circ.start in {CommandSent, CommandFailed}))
  {
  }

  /** The command is sent exactly for an admitted backup without a worker, to a pod that is ready. */
  lemma CommandIsSentExactly(bs: Backups, name: string, circ: Circumstance)
    requires name in bs
    ensures Sent(name) in PassEvents(bs, name, circ) <==>
      && bs[name].phase !in {BackupCompleted, BackupFailed}
      && circ.cluster == ClusterFound && circ.prerequisitesMet && !circ.halted && Admits(bs.Values, name)
      && (bs[name].phase == Unset || !bs[name].dispatched || circ.run == GoneFromInstance)
      && circ.start in {CommandSent, CommandFailed}
  {
    var b, started := bs[name], AfterStart(bs[name], CommandSent);
    var first := Patch(name, b, started);
    assert (first + [Sent(name)])[|first|] == Sent(name);
    assert (first + [Sent(name)] + Patch(name, started, AfterStart(b, CommandFailed)))[|first|] == Sent(name);
  }

  /** An active backup leads those in progress, so that it is the one that is admitted. */
  lemma ActiveLeadsAll(bs: Backups, name: string)
    requires Inv(bs) && name in bs && Active(bs[name])
    ensures Admits(bs.Values, name)
  {
    assert bs[name] in bs.Values && bs[name].IsInProgress();
    forall c | c in bs.Values && c.IsInProgress() ensures !Before(c.name, name) {
      var k :| k in bs && bs[k] == c;
    }
  }

  /** When a pass records the end of a backup whose worker may be running. */
  lemma RunningIsEndedExactly(bs: Backups, name: string, circ: Circumstance)
    requires Inv(bs) && name in bs && Active(bs[name]) && circ.run in {StillRunning, TargetUnhealthy}
    ensures !Active(Reconciled(bs, name, circ)) <==>
      circ.cluster == ClusterReadError ||
      (circ.cluster == ClusterFound &&
       (!circ.prerequisitesMet || (!circ.halted && circ.run == TargetUnhealthy)))
    ensures circ.cluster == ClusterFound && circ.prerequisitesMet && circ.run == StillRunning ==>
      Reconciled(bs, name, circ) == bs[name] && PassEvents(bs, name, circ) == []
  {
    ActiveLeadsAll(bs, name);
  }

  /** A backup whose worker is gone does not stay as it is: it ends, waits, or is started again. */
  lemma GoneIsNoticed(bs: Backups, name: string, circ: Circumstance)
    requires Inv(bs) && name in bs && Active(bs[name]) && circ.run in {ManagerRestarted, GoneFromInstance}
    requires circ.cluster == ClusterFound && circ.prerequisitesMet && !circ.halted
    ensures var b := Reconciled(bs, name, circ);
      && (circ.run == ManagerRestarted ==> b.phase == BackupFailed && PassEvents(bs, name, circ) == [Stored(name, b)])
      && (circ.run == GoneFromInstance ==> Starts(bs, name, circ))
      && (circ.run == GoneFromInstance ==>
            b.phase == if circ.start in {PodMissing, PodNotReady} then Pending
                       else if circ.start == CommandSent then Started else BackupFailed)
  {
    ActiveLeadsAll(bs, name);
  }

  // ---- Workers ----

  /** The backups, and the names of those for which a worker is running at some instance. */
  datatype World = World(backups: Backups, live: set<string>)

  datatype WorldStep = Seen(step: Step) | Dies(name: string)

  /**
   Commands start workers, unless they get lost, and workers report. What a pass finds out is true, and a backup is
   not started again elsewhere while its worker is running.
   */
  ghost predicate NextWorld(w: World, ws: WorldStep, w': World) {
    match ws
    case Dies(name) => w' == w.(live := w.live - {name})
    case Seen(step) =>
      Next(w.backups, step, w'.backups) &&
      match step
      case Create(name) => w'.live == w.live
      case Delete(name) => w'.live == w.live
      case Report(name, phase) =>
        name in w.live && w'.live == if phase == Running then w.live else w.live - {name}
      case Reconcile(name, circ) =>
        && (name in w.live ==> circ.run !in {ManagerRestarted, GoneFromInstance})
        && (w'.live == w.live || (Sent(name) in PassEvents(w.backups, name, circ) && w'.live == w.live + {name}))
  }

  ghost predicate LiveAreActive(w: World) {
    forall x :: x in w.live ==> x in w.backups && Active(w.backups[x])
  }

  /**
   The step loses track of a worker: its backup is deleted, or recorded as failed because the cluster could not be
   read, the prerequisites ceased to hold, the target is unhealthy, or the command seemed to get lost.
   */
  ghost predicate LosesTrack(w: World, ws: WorldStep, w': World) {
    ws.Seen? &&
    match ws.step
    case Delete(name) => name in w.live
    case Reconcile(name, circ) =>
      || (name in w.live &&
          (circ.cluster == ClusterReadError ||
           (circ.cluster == ClusterFound &&
            (!circ.prerequisitesMet || (!circ.halted && circ.run == TargetUnhealthy)))))
      || (name !in w.live && name in w'.live && circ.start == CommandFailed)
    case _ => false
  }

  /** Nothing else does. */
  lemma LosesTrackExactly(w: World, ws: WorldStep, w': World)
    requires Inv(w.backups) && LiveAreActive(w) && NextWorld(w, ws, w')
    ensures LiveAreActive(w') <==> !LosesTrack(w, ws, w')
  {
    if ws.Seen? && ws.step.Reconcile? {
      var name, circ := ws.step.name, ws.step.circ;
      assert forall x :: x in w.backups && x != name ==> w'.backups[x] == w.backups[x];
      if name in w.live {
        ActiveLeadsAll(w.backups, name);
        assert name in w'.live;
      } else if name in w'.live {
        SentMeansStarts(w.backups, name, circ);
      }
    }
  }

  lemma SentMeansStarts(bs: Backups, name: string, circ: Circumstance)
    requires name in bs && Sent(name) in PassEvents(bs, name, circ)
    ensures Starts(bs, name, circ) && circ.start in {CommandSent, CommandFailed}
  {
  }

  ghost predicate WorldRun(states: seq<World>, steps: seq<WorldStep>) {
    && |states| == |steps| + 1 && states[0] == World(map[], {})
    && forall i :: 0 <= i < |steps| ==> NextWorld(states[i], steps[i], states[i + 1])
  }

  /** Backups leave the empty phase in order. */
  ghost predicate StepsInOrder(bs: Backups, ws: WorldStep) {
    ws.Seen? && ws.step.Reconcile? ==> LeavesInOrder(bs, ws.step.name)
  }

  /** In any run that loses track of no worker, at most one worker is running at any time. */
  lemma {:induction false} AtMostOneWorker(states: seq<World>, steps: seq<WorldStep>, n: nat)
    requires WorldRun(states, steps) && n <= |steps|
    requires forall i :: 0 <= i < n ==> StepsInOrder(states[i].backups, steps[i])
    requires forall i :: 0 <= i < n ==> !LosesTrack(states[i], steps[i], states[i + 1])
    ensures Inv(states[n].backups) && LiveAreActive(states[n])
    ensures forall x, y :: x in states[n].live && y in states[n].live ==> x == y
  {
    if n > 0 {
      AtMostOneWorker(states, steps, n - 1);
      var w, ws, w' := states[n - 1], steps[n - 1], states[n];
      assert NextWorld(w, ws, w') && !LosesTrack(w, ws, w') && StepsInOrder(w.backups, ws);
      WorldStepKeepsInv(w, ws, w');
      LosesTrackExactly(w, ws, w');
    }
    InvIsExclusive(states[n].backups);
  }

  lemma WorldStepKeepsInv(w: World, ws: WorldStep, w': World)
    requires Inv(w.backups) && LiveAreActive(w) && NextWorld(w, ws, w') && StepsInOrder(w.backups, ws)
    ensures Inv(w'.backups)
  {
    if ws.Seen? {
      if ws.step.Reconcile? {
        ReconcileKeepsInv(w.backups, ws.step.name, ws.step.circ);
      } else if ws.step.Report? {
        LateReportIsSafeExactly(w.backups, ws.step.name, ws.step.phase);
      }
    }
  }

  // ---- Passes that die ----

  function Replay(bs: Backups, events: seq<Event>): Backups {
    if events == [] then bs
    else
      var rest, last := Replay(bs, events[..|events| - 1]), events[|events| - 1];
      if last.Stored? then rest[last.name := last.backup] else rest
  }

  lemma ReplayOfPatch(bs: Backups, name: string, after: Backup)
    requires name in bs
    ensures Replay(bs, Patch(name, bs[name], after)) == bs[name := after]
  {
    assert bs == bs[name := bs[name]];
    assert [Stored(name, after)][..0] == [];
  }

  lemma ReplayOneMore(bs: Backups, events: seq<Event>, e: Event)
    ensures Replay(bs, events + [e]) ==
            if e.Stored? then Replay(bs, events)[e.name := e.backup] else Replay(bs, events)
  {
    assert (events + [e])[..|events + [e]| - 1] == events;
  }

  /** Wherever a pass dies, what it leaves behind is what it found, or what a whole pass could have left. */
  lemma CrashIsAPass(bs: Backups, name: string, circ: Circumstance, n: nat) returns (circ': Circumstance)
    requires name in bs && n <= |PassEvents(bs, name, circ)|
    ensures var s := Replay(bs, PassEvents(bs, name, circ)[..n]);
      s == bs || s == bs[name := Reconciled(bs, name, circ')]
  {
    var events, b := PassEvents(bs, name, circ), bs[name];
    circ' := circ;
    if Starts(bs, name, circ) && (circ.start.CommandSent? || circ.start.CommandFailed?) {
      var started, failed := AfterStart(b, CommandSent), AfterStart(b, CommandFailed);
      var first := Patch(name, b, started);
      ReplayOfPatch(bs, name, started);
      ReplayOneMore(bs, first, Sent(name));
      ReplayOneMore(bs, first + [Sent(name)], Stored(name, failed));
      if n <= |first| {
        assert events[..n] == first[..n];
        assert n < |first| ==> first[..n] == [];
        circ' := circ.(start := CommandSent);
      } else if n == |first| + 1 {
        assert events[..n] == first + [Sent(name)];
        circ' := circ.(start := CommandSent);
      } else {
        assert events[..n] == first + [Sent(name)] + [Stored(name, failed)];
        assert bs[name := started][name := failed] == bs[name := failed];
      }
    } else {
      ReplayOfPatch(bs, name, Reconciled(bs, name, circ));
      assert n == 0 || events[..n] == events;
      assert n == 0 ==> events[..n] == [];
    }
  }

  /**
   When an instance manager is asked to take a backup, the stored state already says so, and says that no other
   backup is active: a crash right after the command does not let another one in.
   */
  lemma CommandsAreExclusive(bs: Backups, name: string, circ: Circumstance, k: nat)
    requires Inv(bs) && name in bs && LeavesInOrder(bs, name)
    requires k < |PassEvents(bs, name, circ)| && PassEvents(bs, name, circ)[k].Sent?
    ensures PassEvents(bs, name, circ)[k].name == name
    ensures var s := Replay(bs, PassEvents(bs, name, circ)[..k]);
      && Inv(s) && name in s && s[name].phase == Started
      && forall x :: x in s ==> (Active(s[x]) <==> x == name)
  {
    var b, sent := bs[name], circ.(start := CommandSent);
    var started := AfterStart(b, CommandSent);
    assert PassEvents(bs, name, circ)[..k] == Patch(name, b, started);
    ReplayOfPatch(bs, name, started);
    assert Reconciled(bs, name, sent) == started;
    ReconcileKeepsInv(bs, name, sent);
    InvIsExclusive(bs[name := started]);
  }

  const GO := Circumstance(ClusterFound, true, false, StillRunning, CommandSent)

  /**
   The order is needed: a backup that leaves the empty phase while one with a later name is active is parked as
   pending by its first pass and started by its second one although the other is still active.
   */
  lemma OutOfOrderBackupsOverlap(bs: Backups, name: string, active: string)
    requires Inv(bs) && name in bs && active in bs && bs[name].phase == Unset
    requires Active(bs[active]) && Before(name, active)
    ensures var parked := bs[name := Reconciled(bs, name, GO)];
      parked[name].phase == Pending && !Exclusive(parked[name := Reconciled(parked, name, GO)])
  {
    BeforeIsAsymmetric(name, active);
    assert bs[active] in bs.Values && bs[active].IsInProgress();
    assert !Admits(bs.Values, name);
    var parked := bs[name := Reconciled(bs, name, GO)];
    assert parked[name] in parked.Values && parked[active] in parked.Values;
    forall c | c in parked.Values && c.IsInProgress() ensures !Before(c.name, name) {
      var k :| k in parked && parked[k] == c;
      BeforeIsAsymmetric(name, name);
      if Before(c.name, name) {
        BeforeIsTransitive(c.name, name, active);
      }
    }
    assert LeadsInProgress(parked.Values, name);
    var both := parked[name := Reconciled(parked, name, GO)];
    assert Active(both[name]) && Active(both[active]) && name != active;
  }

  /** Two passes over a new backup break mutual exclusion exactly when it does not leave the empty phase in order. */
  lemma OverlapsExactly(bs: Backups, name: string)
    requires Inv(bs) && name in bs && bs[name].phase == Unset
    ensures var parked := bs[name := Reconciled(bs, name, GO)];
      Exclusive(parked[name := Reconciled(parked, name, GO)]) <==> LeavesInOrder(bs, name)
  {
    if LeavesInOrder(bs, name) {
      var parked := bs[name := Reconciled(bs, name, GO)];
      ReconcileKeepsInv(bs, name, GO);
      ReconcileKeepsInv(parked, name, GO);
      InvIsExclusive(parked[name := Reconciled(parked, name, GO)]);
    } else {
      var active :| active in bs && Active(bs[active]) && Before(name, active);
      OutOfOrderBackupsOverlap(bs, name, active);
    }
  }
}
