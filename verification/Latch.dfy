/** The one-shot latch: goroutines wait under a condition variable until somebody broadcasts. */
module Latch {
  import opened Names

  type Thread = nat

  /** A goroutine in `Wait` or `BroadcastError`; `Holding` means it owns the lock. */
  datatype Pc =
    | Idle
    | WaitLocking | WaitHolding | Parked | Woken | WokenHolding | WaitReturned
    | BroadcastLocking(error: Option<int>) | BroadcastHolding(error: Option<int>) | BroadcastReturned

  datatype State = State(done: bool, err: Option<int>, lock: Option<Thread>, pcs: map<Thread, Pc>)

  function PcOf(s: State, t: Thread): Pc { if t in s.pcs then s.pcs[t] else Idle }

  /** Gives the lock back and moves on. */
  function Release(s: State, t: Thread, pc: Pc): State { s.(lock := None, pcs := s.pcs[t := pc]) }

  /** Every parked goroutine is moved to the queue for the lock. */
  function Wake(pcs: map<Thread, Pc>): map<Thread, Pc> {
    map t | t in pcs :: if pcs[t] == Parked then Woken else pcs[t]
  }

  /** With the lock held: return when the latch is set, or else park, which gives the lock back. */
  function AfterCheck(s: State, t: Thread): State {
    Release(s, t, if s.done then WaitReturned else Parked)
  }

  /** With the lock held: only the first broadcast leaves its error and wakes the parked goroutines. */
  function AfterBroadcast(s: State, t: Thread, error: Option<int>): State {
    Release(if s.done then s else s.(done := true, err := error, pcs := Wake(s.pcs)), t, BroadcastReturned)
  }

  /** What a reader of the error gets. */
  function ErrOf(s: State): Option<int> { if s.done then s.err else None }

  class Executed {
    var done: bool
    var err: Option<int>
    var lock: Option<Thread>
    var pcs: map<Thread, Pc>

    constructor ()
      ensures Current() == State(false, None, None, map[])
    {
      done, err, lock, pcs := false, None, None, map[];
    }

    function Current(): State
      reads this
    {
      State(done, err, lock, pcs)
    }

    method Wait(t: Thread)
      requires lock == Some(t)
      modifies this
      ensures Current() == AfterCheck(old(Current()), t)
    {
      if !done {
        pcs := pcs[t := Parked];
      } else {
        pcs := pcs[t := WaitReturned];
      }
      lock := None;
    }

    method BroadcastError(t: Thread, error: Option<int>)
      requires lock == Some(t)
      modifies this
      ensures Current() == AfterBroadcast(old(Current()), t, error)
    {
      if !done {
        err := error;
        done := true;
        pcs := Wake(pcs);
      }
      pcs := pcs[t := BroadcastReturned];
      lock := None;
    }

    method Err() returns (e: Option<int>)
      ensures e == ErrOf(Current())
    {
      if !done {
        return None;
      }
      return err;
    }
  }

  ghost predicate Next(s: State, t: Thread, s': State) {
    match PcOf(s, t)
    case Idle =>
      s' == s.(pcs := s'.pcs) && exists e :: s'.pcs in {s.pcs[t := WaitLocking], s.pcs[t := BroadcastLocking(e)]}
    case WaitLocking => s.lock.None? && s' == s.(lock := Some(t), pcs := s.pcs[t := WaitHolding])
    case WaitHolding => s' == AfterCheck(s, t)
    case Parked => false
    case Woken => s.lock.None? && s' == s.(lock := Some(t), pcs := s.pcs[t := WokenHolding])
    case WokenHolding => s' == Release(s, t, WaitReturned)
    case BroadcastLocking(e) => s.lock.None? && s' == s.(lock := Some(t), pcs := s.pcs[t := BroadcastHolding(e)])
    case BroadcastHolding(e) => s' == AfterBroadcast(s, t, e)
    case WaitReturned => false
    case BroadcastReturned => false
  }

  /** Past the point at which the latch must be set. */
  predicate IsPast(pc: Pc) { pc.Woken? || pc.WokenHolding? || pc.WaitReturned? || pc.BroadcastReturned? }

  predicate Holds(pc: Pc) { pc.WaitHolding? || pc.WokenHolding? || pc.BroadcastHolding? }

  ghost predicate Inv(s: State) {
    && (forall t :: t in s.pcs && Holds(s.pcs[t]) <==> s.lock == Some(t))
    && (forall t :: t in s.pcs && s.pcs[t].Parked? ==> !s.done)
    && (forall t :: t in s.pcs && IsPast(s.pcs[t]) ==> s.done)
  }

  lemma StepKeepsInv(s: State, t: Thread, s': State)
    requires Inv(s) && Next(s, t, s')
    ensures Inv(s')
    ensures s.done ==> s'.done && s'.err == s.err
    ensures !s.done && s'.done ==> PcOf(s, t) == BroadcastHolding(s'.err)
  {
  }

  /** A step moves its own goroutine; the broadcast that sets the latch also wakes the parked ones, and no others. */
  lemma StepWakesExactlyParked(s: State, t: Thread, s': State, u: Thread)
    requires Next(s, t, s') && u != t
    ensures PcOf(s', u) ==
      if PcOf(s, u) == Parked && PcOf(s, t).BroadcastHolding? && !s.done then Woken else PcOf(s, u)
  {
  }

  ghost predicate Run(states: seq<State>, threads: seq<Thread>) {
    && |states| == |threads| + 1
    && states[0] == State(false, None, None, map[])
    && forall i :: 0 <= i < |threads| ==> Next(states[i], threads[i], states[i + 1])
  }

  /**
   For any number of goroutines and any interleaving: nobody stays parked once a broadcast happened, a wait
   only returns after one, and what the first broadcast left behind never changes.
   */
  lemma {:induction false} NoWakeUpIsLost(states: seq<State>, threads: seq<Thread>, i: nat, j: nat)
    requires Run(states, threads) && i <= j < |states|
    ensures Inv(states[j])
    ensures states[i].done ==> states[j].done && states[j].err == states[i].err
    ensures forall t :: t in states[j].pcs ==>
      (states[j].done ==> !states[j].pcs[t].Parked?) && (states[j].pcs[t].WaitReturned? ==> states[j].done)
    decreases j
  {
    if j > 0 {
      NoWakeUpIsLost(states, threads, if i < j then i else j - 1, j - 1);
      StepKeepsInv(states[j - 1], threads[j - 1], states[j]);
    }
  }

  /**
   Once the latch is set, there was one broadcast that set it: readers got no error up to then, and get the error
   of that broadcast from then on.
   */
  lemma {:induction false} FirstErrorIsKept(states: seq<State>, threads: seq<Thread>, j: nat) returns (k: nat)
    requires Run(states, threads) && j < |states| && states[j].done
    ensures k < j && PcOf(states[k], threads[k]) == BroadcastHolding(ErrOf(states[j]))
    ensures forall i :: 0 <= i <= k ==> !states[i].done && ErrOf(states[i]) == None
    ensures forall i :: k < i <= j ==> states[i].done && ErrOf(states[i]) == ErrOf(states[j])
    decreases j
  {
    NoWakeUpIsLost(states, threads, j - 1, j - 1);
    StepKeepsInv(states[j - 1], threads[j - 1], states[j]);
    if states[j - 1].done {
      k := FirstErrorIsKept(states, threads, j - 1);
    } else {
      k := j - 1;
      forall i | 0 <= i <= k ensures !states[i].done {
        NoWakeUpIsLost(states, threads, i, k);
      }
    }
  }

  predicate IsActive(pc: Pc) { !pc.Idle? && !pc.WaitReturned? && !pc.BroadcastReturned? }

  /** Once done, a goroutine that has not returned can move, or the one holding the lock can: nothing is stuck. */
  lemma NobodyIsStuck(s: State, t: Thread) returns (u: Thread, s': State)
    requires Inv(s) && s.done && t in s.pcs && IsActive(s.pcs[t])
    ensures u == t || s.lock == Some(u)
    ensures Next(s, u, s') && PcOf(s', u) != PcOf(s, u)
  {
    u := if s.lock.Some? then s.lock.value else t;
    assert s.lock.Some? ==> u in s.pcs && Holds(s.pcs[u]);
    match PcOf(s, u)
    case WaitLocking => s' := s.(lock := Some(u), pcs := s.pcs[u := WaitHolding]);
    case WaitHolding => s' := Release(s, u, WaitReturned);
    case Woken => s' := s.(lock := Some(u), pcs := s.pcs[u := WokenHolding]);
    case WokenHolding => s' := Release(s, u, WaitReturned);
    case BroadcastLocking(e) => s' := s.(lock := Some(u), pcs := s.pcs[u := BroadcastHolding(e)]);
    case BroadcastHolding(e) => s' := Release(s, u, BroadcastReturned);
  }
}
