/**
 The scheduled-backup reconciler as a cron state machine with crash points.

 Instants are in nanoseconds. Names of backups and stored times only keep whole seconds.
 */
module ScheduledBackups {
  import opened Names

  const SECOND := 1_000_000_000

  function WholeSeconds(t: int): (r: int)
    ensures r <= t < r + SECOND && r % SECOND == 0
  {
    t - t % SECOND
  }

  /** The instant after `t` at which a backup is due, if there is one. */
  type Schedule = int -> Option<int>

  /** Due instants fall on whole seconds, and `next` finds the first one after its argument. */
  ghost predicate IsSchedule(next: Schedule) {
    && (forall t :: next(t).Some? ==> next(t).value > t && next(t).value % SECOND == 0)
    && (forall t, u :: next(t).Some? && t <= u < next(t).value ==> next(u) == next(t))
    && (forall t, u :: t <= u && next(u).Some? ==> next(t).Some?)
  }

  datatype Child = Child(time: int, immediate: bool, done: bool)

  /** Children by the second their name is made of. */
  type Children = map<int, Child>

  datatype Status = Status(lastCheck: Option<int>, lastSchedule: Option<int>, nextSchedule: Option<int>)

  /** Where a pass dies, or meets a conflict it gives up on. */
  datatype Interruption = BeforeCreating | BeforePatching | Uninterrupted

  datatype Pass = Pass(now: int, immediate: bool, held: bool, interruption: Interruption)

  datatype State = State(status: Status, children: Children)

  predicate HasUnfinishedChild(children: Children) {
    exists k :: k in children && !children[k].done
  }

  /** The zero time stands for an instant that does not exist. */
  function DueAfter(next: Schedule, t: int): int {
    match next(t) case Some(n) => n case None => 0
  }

  function AfterCreate(next: Schedule, s: State, time: int, p: Pass, immediate: bool): State {
    var name := WholeSeconds(time);
    if p.interruption == BeforeCreating || name in s.children then s
    else
      var created := s.(children := s.children[name := Child(time, immediate, false)]);
      if p.interruption == BeforePatching then created
      else created.(status := Status(Some(WholeSeconds(p.now)), Some(name), next(p.now)))
  }

  function AfterPass(next: Schedule, s: State, p: Pass): State {
    if p.held || HasUnfinishedChild(s.children) || next(p.now).None? then s
    else match s.status.lastCheck
      case None =>
        if p.immediate then AfterCreate(next, s, p.now, p, true)
        else if p.interruption != Uninterrupted then s
        else s.(status := s.status.(lastCheck := Some(WholeSeconds(p.now))))
      case Some(checked) =>
        var due := DueAfter(next, checked);
        if p.now < due then s else AfterCreate(next, s, due, p, false)
  }

  class ScheduledBackupReconciler {
    const next: Schedule
    var status: Status
    var children: Children

    constructor (next: Schedule)
      ensures this.next == next && status == Status(None, None, None) && children == map[]
    {
      this.next, status, children := next, Status(None, None, None), map[];
    }

    method CreateBackup(time: int, p: Pass, immediate: bool)
      modifies this
      ensures State(status, children) == AfterCreate(next, old(State(status, children)), time, p, immediate)
    {
      var name := WholeSeconds(time);
      if p.interruption == BeforeCreating {
        return;
      }
      if name in children {
        // reported as an error: only conflicts are retried quietly
        return;
      }
      children := children[name := Child(time, immediate, false)];
      if p.interruption == BeforePatching {
        return;
      }
      status := status.(lastCheck := Some(WholeSeconds(p.now)));
      status := status.(lastSchedule := Some(name));
      status := status.(nextSchedule := next(p.now));
    }

    method Reconcile(p: Pass)
      modifies this
      ensures State(status, children) == AfterPass(next, old(State(status, children)), p)
    {
      if p.held {
        return;
      }
      if HasUnfinishedChild(children) {
        return;
      }
      if next(p.now).None? {
        return;
      }
      if status.lastCheck.None? && p.immediate {
        CreateBackup(p.now, p, true);
        return;
      }
      if status.lastCheck.None? {
        if p.interruption == Uninterrupted {
          status := status.(lastCheck := Some(WholeSeconds(p.now)));
        }
        return;
      }
      var due := DueAfter(next, status.lastCheck.value);
      if p.now < due {
        return;
      }
      CreateBackup(due, p, false);
    }
  }

  // ---- Runs ----

  datatype Step =
    | Reconcile(pass: Pass)
    | Finish(name: int)
    | Delete(name: int)

  ghost predicate Next(next: Schedule, s: State, step: Step, t: State) {
    match step
    case Reconcile(p) => t == AfterPass(next, s, p)
    case Finish(k) => k in s.children && t == s.(children := s.children[k := s.children[k].(done := true)])
    case Delete(k) => t == s.(children := s.children - {k})
  }

  /** The step creates a backup for an instant of the schedule. */
  predicate CreatesScheduled(s: State, t: State, time: int) {
    var name := WholeSeconds(time);
    name !in s.children && name in t.children && t.children[name] == Child(time, false, false)
  }

  /** A child is kept at least until the recorded check has moved past its instant. */
  predicate DeletesLate(s: State, step: Step) {
    step.Delete? && step.name in s.children && !s.children[step.name].immediate ==>
      s.status.lastCheck.Some? && step.name <= s.status.lastCheck.value
  }

  ghost predicate DeletesLateFrom(states: seq<State>, steps: seq<Step>, i: nat, j: nat)
    requires i <= j <= |steps| < |states|
  {
    forall n :: i <= n < j ==> DeletesLate(states[n], steps[n])
  }

  /** `time` was handled: the recorded check moved past it, or its backup is there. */
  predicate Handled(s: State, time: int) {
    s.status.lastCheck.Some? &&
    (time <= s.status.lastCheck.value ||
     (time in s.children && s.children[time].time == time && !s.children[time].immediate))
  }

  ghost predicate Run(next: Schedule, states: seq<State>, steps: seq<Step>) {
    && IsSchedule(next)
    && |states| == |steps| + 1
    && states[0] == State(Status(None, None, None), map[])
    && forall i :: 0 <= i < |steps| ==> Next(next, states[i], steps[i], states[i + 1])
  }

  /** What one pass creates: only the instant due after the recorded check, once it came, with no child unfinished. */
  lemma PassCreates(next: Schedule, s: State, p: Pass, time: int)
    requires IsSchedule(next) && CreatesScheduled(s, AfterPass(next, s, p), time)
    ensures !HasUnfinishedChild(s.children)
    ensures s.status.lastCheck.Some? && time <= p.now
    ensures s.status.lastCheck.value <= p.now ==> next(s.status.lastCheck.value) == Some(time)
  {
  }

  /** The recorded check never goes back, and each change moves it past the instant that was due. */
  lemma CheckAdvances(next: Schedule, s: State, step: Step, t: State)
    requires IsSchedule(next) && Next(next, s, step, t) && s.status.lastCheck.Some?
    requires step.Reconcile? ==> s.status.lastCheck.value <= step.pass.now
    ensures t.status.lastCheck.Some?
    ensures t.status.lastCheck == s.status.lastCheck ||
      (next(s.status.lastCheck.value).Some? &&
       s.status.lastCheck.value < next(s.status.lastCheck.value).value <= t.status.lastCheck.value)
  {
    if step.Reconcile? && t.status != s.status {
      var due := next(s.status.lastCheck.value).value;
      assert due % SECOND == 0 && due <= step.pass.now;
      WholeSecondsKeepsOrder(due, step.pass.now);
    }
  }

  lemma WholeSecondsKeepsOrder(due: int, now: int)
    requires due % SECOND == 0 && due <= now
    ensures due <= WholeSeconds(now)
  {
    var q, r := now / SECOND, due / SECOND;
    assert now == q * SECOND + now % SECOND && due == r * SECOND;
    assert r <= q;
  }

  /** Passes read the clock after the last check they recorded. */
  ghost predicate ClockIsSane(states: seq<State>, steps: seq<Step>)
    requires |states| == |steps| + 1
  {
    forall i :: 0 <= i < |steps| && steps[i].Reconcile? && states[i].status.lastCheck.Some? ==>
      states[i].status.lastCheck.value <= steps[i].pass.now
  }

  lemma CreatedIsHandled(next: Schedule, s: State, step: Step, t: State, time: int)
    requires IsSchedule(next) && Next(next, s, step, t) && CreatesScheduled(s, t, time)
    requires step.Reconcile? && s.status.lastCheck.Some? ==> s.status.lastCheck.value <= step.pass.now
    ensures step.Reconcile? && Handled(t, time)
  {
    PassCreates(next, s, step.pass, time);
    assert WholeSeconds(time) == time;
  }

  /** A handled instant stays handled: a check that moves on moves past the instant that was due. */
  lemma HandledStaysHandled(next: Schedule, s: State, step: Step, t: State, time: int)
    requires IsSchedule(next) && Next(next, s, step, t) && Handled(s, time) && DeletesLate(s, step)
    requires step.Reconcile? ==> s.status.lastCheck.value <= step.pass.now
    ensures Handled(t, time)
  {
    CheckAdvances(next, s, step, t);
  }

  lemma {:induction false} HandledIsKept(next: Schedule, states: seq<State>, steps: seq<Step>,
                                         i: nat, j: nat, time: int)
    requires Run(next, states, steps) && ClockIsSane(states, steps) && i <= j < |states|
    requires DeletesLateFrom(states, steps, i, j) && Handled(states[i], time)
    ensures Handled(states[j], time)
    decreases j
  {
    if i < j {
      HandledIsKept(next, states, steps, i, j - 1, time);
      HandledStaysHandled(next, states[j - 1], steps[j - 1], states[j], time);
    }
  }

  /**
   In every run, crashes between creating a backup and recording it included, scheduled backups are created
   for strictly increasing instants of the schedule, provided no backup is deleted before it is recorded.
   */
  lemma NoTickIsRepeated(next: Schedule, states: seq<State>, steps: seq<Step>, i: nat, j: nat, first: int, second: int)
    requires Run(next, states, steps) && ClockIsSane(states, steps) && i < j < |steps|
    requires DeletesLateFrom(states, steps, i, j)
    requires CreatesScheduled(states[i], states[i + 1], first) && CreatesScheduled(states[j], states[j + 1], second)
    ensures first < second
    ensures (exists t :: next(t) == Some(first)) && exists t :: next(t) == Some(second)
  {
    assert Next(next, states[i], steps[i], states[i + 1]) && Next(next, states[j], steps[j], states[j + 1]);
    CreatedIsHandled(next, states[i], steps[i], states[i + 1], first);
    HandledIsKept(next, states, steps, i + 1, j, first);
    PassCreates(next, states[i], steps[i].pass, first);
    PassCreates(next, states[j], steps[j].pass, second);
    CheckIsMonotone(next, states, steps, i, j);
  }

  lemma {:induction false} CheckIsMonotone(next: Schedule, states: seq<State>, steps: seq<Step>, i: nat, j: nat)
    requires Run(next, states, steps) && ClockIsSane(states, steps) && i <= j < |states|
    requires states[i].status.lastCheck.Some?
    ensures states[j].status.lastCheck.Some?
    ensures states[j].status.lastCheck == states[i].status.lastCheck ||
      (next(states[i].status.lastCheck.value).Some? &&
       next(states[i].status.lastCheck.value).value <= states[j].status.lastCheck.value)
    decreases j
  {
    if i < j {
      CheckIsMonotone(next, states, steps, i, j - 1);
      assert Next(next, states[j - 1], steps[j - 1], states[j]);
      CheckAdvances(next, states[j - 1], steps[j - 1], states[j]);
    }
  }

  /** All children ended, and the backups were not put on hold. */
  predicate IsFree(s: State, p: Pass) {
    !p.held && forall k :: k in s.children ==> s.children[k].done
  }

  /** A due instant is taken: the backup is created under its name, and the status says what is next. */
  lemma DueIsTaken(next: Schedule, s: State, p: Pass, due: int)
    requires IsSchedule(next) && IsFree(s, p) && p.interruption == Uninterrupted && next(p.now).Some?
    requires s.status.lastCheck.Some? && next(s.status.lastCheck.value) == Some(due) && due <= p.now
    requires due !in s.children
    ensures AfterPass(next, s, p) ==
      State(Status(Some(WholeSeconds(p.now)), Some(due), next(p.now)), s.children[due := Child(due, false, false)])
  {
    assert WholeSeconds(due) == due;
  }

  /** Nothing happens before the instant is due, on hold, or while a child is unfinished. */
  lemma NothingIsTakenEarly(next: Schedule, s: State, p: Pass)
    requires IsSchedule(next) && s.status.lastCheck.Some?
    requires !IsFree(s, p) || next(p.now).None? ||
      (next(s.status.lastCheck.value).Some? && p.now < next(s.status.lastCheck.value).value)
    ensures AfterPass(next, s, p) == s
  {
  }

  /** The first pass takes a backup at once when asked to, and otherwise only remembers that it looked. */
  lemma FirstPassExactly(next: Schedule, s: State, p: Pass)
    requires IsFree(s, p) && next(p.now).Some? && s.status.lastCheck.None? && WholeSeconds(p.now) !in s.children
    ensures var t := AfterPass(next, s, p);
      var name := WholeSeconds(p.now);
      var created := s.children[name := Child(p.now, true, false)];
      && (p.interruption == Uninterrupted ==>
            t == if p.immediate then State(Status(Some(name), Some(name), next(p.now)), created)
                 else s.(status := s.status.(lastCheck := Some(name))))
      && (p.interruption == BeforePatching ==> t == if p.immediate then s.(children := created) else s)
      && (p.interruption == BeforeCreating ==> t == s)
  {
  }

  /** A pass that dies between the two leaves the backup and no trace of it in the status. */
  lemma CrashLeavesUnrecorded(next: Schedule, s: State, p: Pass, due: int)
    requires IsSchedule(next) && IsFree(s, p) && next(p.now).Some? && p.interruption != Uninterrupted
    requires s.status.lastCheck.Some? && next(s.status.lastCheck.value) == Some(due) && due <= p.now
    requires due !in s.children
    ensures AfterPass(next, s, p) == if p.interruption == BeforeCreating then s
                                     else s.(children := s.children[due := Child(due, false, false)])
  {
    assert WholeSeconds(due) == due;
  }

  /** Deleting a backup keeps its instant handled exactly when the recorded check has moved past it. */
  lemma DeletionForgetsExactly(next: Schedule, s: State, t: State, time: int)
    requires Handled(s, time) && Next(next, s, Delete(time), t)
    ensures Handled(t, time) <==> DeletesLate(s, Delete(time))
  {
  }

  /** A backup deleted before it was recorded is taken again by the next pass. */
  lemma EarlyDeletionRepeatsTick(next: Schedule, s: State, p: Pass, time: int)
    requires IsSchedule(next) && !HasUnfinishedChild(s.children) && !p.held && p.interruption == Uninterrupted
    requires s.status.lastCheck.Some? && next(s.status.lastCheck.value) == Some(time)
    requires time <= p.now && next(p.now).Some? && time in s.children
    ensures var deleted := s.(children := s.children - {time});
      CreatesScheduled(deleted, AfterPass(next, deleted, p), time)
  {
    var deleted := s.(children := s.children - {time});
    assert WholeSeconds(time) == time;
    assert !HasUnfinishedChild(deleted.children) by {
      forall k | k in deleted.children ensures deleted.children[k].done {
        assert k in s.children;
      }
    }
  }

  /**
   A backup that was created but never recorded stops the schedule for good: every later pass finds its name
   taken, and neither records anything nor creates another backup, until somebody deletes it.
   */
  lemma {:induction false} UnrecordedBackupStopsSchedule(next: Schedule, states: seq<State>, steps: seq<Step>,
                                                         i: nat, j: nat, time: int)
    requires Run(next, states, steps) && ClockIsSane(states, steps) && i <= j < |states|
    requires states[i].status.lastCheck.Some? && next(states[i].status.lastCheck.value) == Some(time)
    requires time in states[i].children
    requires forall n :: i <= n < j && steps[n].Delete? ==> steps[n].name != time
    ensures states[j].status == states[i].status && time in states[j].children
    ensures states[j].children.Keys <= states[i].children.Keys
    decreases j
  {
    if i < j {
      UnrecordedBackupStopsSchedule(next, states, steps, i, j - 1, time);
      assert Next(next, states[j - 1], steps[j - 1], states[j]);
      assert WholeSeconds(time) == time;
    }
  }
}
