/**
 Serial numbers of instances: allocation under optimistic locking, and restoration from the volumes a
 deleted cluster left behind.
 */
module NodeSerials {
  import opened Names

  datatype Pvc = Pvc(serial: Option<int>, isPrimary: bool)

  datatype Serials = Serials(highest: int, primary: int) | BadSerial

  /** Largest serial, and never less than zero. */
  function Highest(pvcs: seq<Pvc>): int
    requires forall p :: p in pvcs ==> p.serial.Some?
  {
    if pvcs == [] then 0
    else
      var init, s := Highest(pvcs[..|pvcs| - 1]), pvcs[|pvcs| - 1].serial.value;
      if s > init then s else init
  }

  lemma {:induction false} HighestBounds(pvcs: seq<Pvc>)
    requires forall p :: p in pvcs ==> p.serial.Some?
    ensures forall p :: p in pvcs ==> p.serial.value <= Highest(pvcs)
    ensures Highest(pvcs) == 0 || exists p :: p in pvcs && p.serial.value == Highest(pvcs)
    ensures Highest(pvcs) >= 0
  {
    if pvcs != [] {
      var init, last := pvcs[..|pvcs| - 1], pvcs[|pvcs| - 1];
      HighestBounds(init);
      assert forall p :: p in pvcs <==> p in init || p == last;
    }
  }

  /** Both serials, or an error when the annotation of a volume is not a number. */
  method GetNodeSerialsFromPVCs(pvcs: seq<Pvc>) returns (r: Serials)
    ensures r.BadSerial? <==> exists p :: p in pvcs && p.serial.None?
    ensures r.Serials? ==>
      && (forall p :: p in pvcs ==> p.serial.value <= r.highest)
      && (r.highest == 0 || exists p :: p in pvcs && p.serial == Some(r.highest))
      && r.highest >= 0
    ensures r.Serials? ==>
      if exists p :: p in pvcs && p.isPrimary
      then exists i :: 0 <= i < |pvcs| && pvcs[i].isPrimary && pvcs[i].serial == Some(r.primary) &&
             forall j :: i < j < |pvcs| ==> !pvcs[j].isPrimary
      else r.primary == 0
  {
    var highest, primary := 0, 0;
    ghost var last := -1;
    for i := 0 to |pvcs|
      invariant forall j :: 0 <= j < i ==> pvcs[j].serial.Some? && pvcs[j].serial.value <= highest
      invariant highest >= 0 && (highest == 0 || exists j :: 0 <= j < i && pvcs[j].serial == Some(highest))
      invariant -1 <= last < i && (forall j :: last < j < i ==> !pvcs[j].isPrimary)
      invariant last == -1 ==> primary == 0
      invariant last >= 0 ==> pvcs[last].isPrimary && pvcs[last].serial == Some(primary)
    {
      match pvcs[i].serial {
        case None => return BadSerial;
        case Some(serial) =>
          if serial > highest {
            highest := serial;
          }
          if pvcs[i].isPrimary {
            primary, last := serial, i;
          }
      }
    }
    return Serials(highest, primary);
  }

  /** The instance a restored cluster starts from: the recorded primary, or else the highest serial. */
  function StartsFrom(highest: int, primary: int): int {
    if primary == 0 then highest else primary
  }

  // ---- The cluster object in the API server, and the copies passes work on ----

  datatype Copy = Copy(version: nat, latest: int)

  /** An update is refused when somebody else updated the object since the copy was read. */
  function Generated(server: Copy, copy: Copy): Option<Copy> {
    if copy.version != server.version then None else Some(Copy(server.version + 1, copy.latest + 1))
  }

  /** Restoring patches what differs from the copy, without checking that the copy is current. */
  function Restored(server: Copy, copy: Copy, highest: int): Copy {
    Copy(server.version + 1, if highest != copy.latest then highest else server.latest)
  }

  class ClusterObject {
    var version: nat
    var latestGeneratedNode: int
    var targetPrimary: int   // serial of the target primary

    constructor ()
      ensures Value() == Copy(0, 0) && targetPrimary == 0
    {
      version, latestGeneratedNode, targetPrimary := 0, 0, 0;
    }

    function Value(): Copy
      reads this
    {
      Copy(version, latestGeneratedNode)
    }
  }

  class WorkingCopy {
    var version: nat
    var latestGeneratedNode: int

    constructor (server: ClusterObject)
      ensures Value() == server.Value()
    {
      version, latestGeneratedNode := server.version, server.latestGeneratedNode;
    }

    function Value(): Copy
      reads this
    {
      Copy(version, latestGeneratedNode)
    }

    method GenerateNodeSerial(server: ClusterObject) returns (ok: bool, serial: int)
      modifies this, server
      ensures server.targetPrimary == old(server.targetPrimary)
      ensures match Generated(old(server.Value()), old(Value()))
        case None => !ok && server.Value() == old(server.Value())
        case Some(v) => ok && server.Value() == Value() == v && serial == v.latest
    {
      latestGeneratedNode := latestGeneratedNode + 1;
      if version != server.version {
        return false, 0;
      }
      server.latestGeneratedNode := latestGeneratedNode;
      server.version := server.version + 1;
      version := server.version;
      return true, latestGeneratedNode;
    }

    /** A blank primary is only created while no serial was ever generated. */
    method CreatePrimaryInstance(server: ClusterObject) returns (ok: bool, serial: int)
      modifies this, server
      ensures ok <==> old(latestGeneratedNode) == 0 && old(version) == old(server.version)
      ensures ok ==> serial == 1 == server.latestGeneratedNode && server.version == old(server.version) + 1
      ensures !ok ==> server.Value() == old(server.Value())
    {
      if latestGeneratedNode != 0 {
        return false, 0;
      }
      ok, serial := GenerateNodeSerial(server);
    }

    method RestoreClusterStatus(server: ClusterObject, highest: int, primary: int)
      modifies this, server
      ensures server.Value() == Value() == Restored(old(server.Value()), old(Value()), highest)
      ensures server.targetPrimary == primary
    {
      if highest != latestGeneratedNode {
        server.latestGeneratedNode := highest;
      }
      server.targetPrimary := primary;
      server.version := server.version + 1;
      version, latestGeneratedNode := server.version, server.latestGeneratedNode;
    }

    /**
     Takes over the volumes a deleted cluster left behind. The restored serial is that of some volume, and no
     listed volume exceeds it; the cluster starts from the recorded primary if there is one.
     */
    method ReconcileRestoredCluster(server: ClusterObject, pvcs: seq<Pvc>) returns (adopted: bool)
      modifies this, server
      ensures adopted <==> old(latestGeneratedNode) == 0 && pvcs != [] && forall p :: p in pvcs ==> p.serial.Some?
      ensures !adopted ==> server.Value() == old(server.Value()) && server.targetPrimary == old(server.targetPrimary)
      ensures adopted ==> server.Value() == Value() == Restored(old(server.Value()), old(Value()), Highest(pvcs))
      ensures adopted && (exists p :: p in pvcs && p.isPrimary && p.serial.value != 0) &&
              (forall p, q :: p in pvcs && q in pvcs && p.isPrimary && q.isPrimary ==> p.serial == q.serial) ==>
              exists p :: p in pvcs && p.isPrimary && p.serial == Some(server.targetPrimary)
      ensures adopted && (forall p :: p in pvcs ==> !p.isPrimary) ==> server.targetPrimary == Highest(pvcs)
    {
      if latestGeneratedNode != 0 || pvcs == [] {
        return false;
      }
      var serials := GetNodeSerialsFromPVCs(pvcs);
      if serials.BadSerial? {
        return false;
      }
      HighestBounds(pvcs);
      RestoreClusterStatus(server, serials.highest, StartsFrom(serials.highest, serials.primary));
      return true;
    }
  }

  // ---- Runs of racing passes ----

  datatype State = State(
    version: nat,
    latest: int,
    copies: map<nat, Copy>,   // what each pass has read
    reserved: set<int>,       // serials handed out
    live: set<int>,           // serials of owned volumes
    adoptable: set<int>,      // serials of the orphan volumes a restoring pass listed
    bootstraps: nat)          // blank primaries

  datatype Step =
    | Refresh(pass: nat)
    | Generate(pass: nat)
    | Bootstrap(pass: nat)
    | CreateVolumes(serial: int)
    | DeleteVolumes(serial: int)
    | Restore(pass: nat, orphans: seq<Pvc>)
    | Adopt(serial: int)
    | OtherUpdate

  ghost predicate Next(s: State, step: Step, t: State) {
    match step
    case Refresh(p) => t == s.(copies := s.copies[p := Copy(s.version, s.latest)])
    case Generate(p) => p in s.copies && t == AfterGenerate(s, p)
    case Bootstrap(p) =>
      && p in s.copies && s.copies[p].latest == 0
      && t == AfterGenerate(s, p).(bootstraps := s.bootstraps + if s.copies[p].version == s.version then 1 else 0)
    case CreateVolumes(n) => n in s.reserved && t == s.(live := s.live + {n})
    case DeleteVolumes(n) => t == s.(live := s.live - {n})
    case Restore(p, orphans) =>
      && p in s.copies && s.copies[p].latest == 0 && orphans != []
      && (forall o :: o in orphans ==> o.serial.Some?)
      && t == AfterRestore(s, p, orphans)
    case Adopt(n) => n in s.adoptable && t == s.(live := s.live + {n})
    case OtherUpdate => t == s.(version := s.version + 1)
  }

  function AfterGenerate(s: State, p: nat): State
    requires p in s.copies
  {
    match Generated(Copy(s.version, s.latest), s.copies[p])
    case None => s
    case Some(c) =>
      s.(version := c.version, latest := c.latest, copies := s.copies[p := c], reserved := s.reserved + {c.latest})
  }

  function AfterRestore(s: State, p: nat, orphans: seq<Pvc>): State
    requires p in s.copies && forall o :: o in orphans ==> o.serial.Some?
  {
    var c := Restored(Copy(s.version, s.latest), s.copies[p], Highest(orphans));
    s.(version := c.version, latest := c.latest, copies := s.copies[p := c],
       adoptable := s.adoptable + set o | o in orphans :: o.serial.value)
  }

  /** Every serial in use, or about to be. */
  function InUse(s: State): set<int> { s.reserved + s.live + s.adoptable }

  ghost predicate Bounded(s: State) {
    forall n :: n in InUse(s) ==> n <= s.latest
  }

  ghost predicate Inv(s: State) {
    && s.latest >= 0 && Bounded(s) && (s.latest == 0 || s.latest in s.reserved + s.adoptable)
    && (forall p :: p in s.copies ==> s.copies[p].version <= s.version)
    && (forall p :: p in s.copies && s.copies[p].version == s.version ==> s.copies[p].latest == s.latest)
    && s.bootstraps <= 1 && (s.bootstraps == 1 ==> s.latest >= 1)
  }

  /** A restoration lists the greatest serial in use, or does not touch the recorded one. */
  ghost predicate RestoresSafely(s: State, step: Step) {
    step.Restore? ==>
      (forall o :: o in step.orphans ==> o.serial.Some?) &&
      (Highest(step.orphans) == 0 || forall n :: n in InUse(s) ==> n <= Highest(step.orphans))
  }

  /** All restorations from a current copy are of that kind. */
  lemma CurrentCopyRestoresSafely(s: State, p: nat, orphans: seq<Pvc>, t: State)
    requires Inv(s) && Next(s, Restore(p, orphans), t) && s.copies[p].version == s.version
    ensures RestoresSafely(s, Restore(p, orphans))
  {
    HighestBounds(orphans);
  }

  lemma StepKeepsInv(s: State, step: Step, t: State)
    requires Inv(s) && Next(s, step, t) && RestoresSafely(s, step)
    ensures Inv(t) && s.latest <= t.latest
    ensures t.reserved == s.reserved ||
            (t.reserved == s.reserved + {t.latest} && forall n :: n in InUse(s) ==> n < t.latest)
  {
    if step.Restore? {
      HighestBounds(step.orphans);
      assert s.latest == 0 || s.latest in InUse(s);
    }
    forall n | n in InUse(t) ensures n <= t.latest {
      if step.Restore? {
        if n !in InUse(s) {
          var o :| o in step.orphans && o.serial.value == n;
        }
      } else {
        assert n in InUse(s) || n == t.latest;
      }
    }
  }

  /**
   Restoring keeps the serials in use below the next one exactly when it leaves the recorded serial alone, or
   no serial in use exceeds what was listed.
   */
  lemma RestoreIsSafeExactly(s: State, p: nat, orphans: seq<Pvc>)
    requires Inv(s) && p in s.copies && (forall o :: o in orphans ==> o.serial.Some?)
    requires Next(s, Restore(p, orphans), AfterRestore(s, p, orphans))
    ensures Bounded(AfterRestore(s, p, orphans)) <==>
            Highest(orphans) == 0 || forall n :: n in InUse(s) ==> n <= Highest(orphans)
  {
    HighestBounds(orphans);
    var t := AfterRestore(s, p, orphans);
    assert forall n :: n in InUse(s) ==> n in InUse(t);
    forall n | n in InUse(t) ensures n in InUse(s) || n <= Highest(orphans) {
      if n !in InUse(s) {
        var o :| o in orphans && o.serial.value == n;
      }
    }
  }

  /** Restoring from an outdated copy, after other serials were generated, makes the next serial one in use. */
  lemma StaleRestoreCollides(s: State, p: nat, orphans: seq<Pvc>, q: nat)
    requires Inv(s) && p in s.copies && (forall o :: o in orphans ==> o.serial.Some?)
    requires Next(s, Restore(p, orphans), AfterRestore(s, p, orphans))
    requires Highest(orphans) != 0 && Highest(orphans) + 1 in s.live
    ensures var t := AfterRestore(s, p, orphans);
      var u := t.(copies := t.copies[q := Copy(t.version, t.latest)]);
      Next(t, Refresh(q), u) && AfterGenerate(u, q).latest in u.live
  {
  }

  ghost predicate Run(states: seq<State>, steps: seq<Step>) {
    && |states| == |steps| + 1
    && states[0] == State(0, 0, map[], {}, {}, {}, 0)
    && forall i :: 0 <= i < |steps| ==>
         Next(states[i], steps[i], states[i + 1]) && RestoresSafely(states[i], steps[i])
  }

  /**
   In every run whose restorations are safe, serials in use never exceed the recorded one, which never
   decreases, and at most one blank primary is created.
   */
  lemma {:induction false} SerialsNeverCollide(states: seq<State>, steps: seq<Step>, i: nat, j: nat)
    requires Run(states, steps) && i <= j < |states|
    ensures Inv(states[i]) && Inv(states[j]) && states[i].latest <= states[j].latest
    decreases j
  {
    if i < j {
      SerialsNeverCollide(states, steps, i, j - 1);
      StepKeepsInv(states[j - 1], steps[j - 1], states[j]);
    } else if j > 0 {
      SerialsNeverCollide(states, steps, j - 1, j - 1);
      StepKeepsInv(states[j - 1], steps[j - 1], states[j]);
    }
  }

  /** A serial handed out by a step is greater than all serials in use before it, so it is handed out only once. */
  lemma FreshSerialIsNew(states: seq<State>, steps: seq<Step>, n: nat, serial: int)
    requires Run(states, steps) && n < |steps|
    requires serial in states[n + 1].reserved && serial !in states[n].reserved
    ensures forall m :: m in InUse(states[n]) ==> m < serial
  {
    SerialsNeverCollide(states, steps, n, n);
    StepKeepsInv(states[n], steps[n], states[n + 1]);
  }
}
