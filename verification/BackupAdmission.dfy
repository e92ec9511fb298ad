/** Which backup of a cluster may proceed: an agreement encoded in phases and in the order of names. */
module BackupAdmission {
  import opened Names

  datatype Phase =
    | Unset | Pending | Started | Running | Finalizing | WalArchivingFailing | BackupCompleted | BackupFailed

  /** `dispatched` tells that an instance manager was asked to take the backup. */
  datatype Backup = Backup(name: string, phase: Phase, dispatched: bool)
  {
    predicate IsDone() { phase == BackupCompleted || phase == BackupFailed }

    /** A pending backup counts as being in progress; one that is finalizing does not. */
    predicate IsInProgress() { phase == Pending || phase == Started || phase == Running }

    predicate IsWaiting() { !IsDone() && !IsInProgress() }
  }

  /** `name` is the first, in the order of names, of the backups in progress. */
  ghost predicate LeadsInProgress(bs: set<Backup>, name: string) {
    && (exists b :: b in bs && b.IsInProgress() && b.name == name)
    && (forall c :: c in bs && c.IsInProgress() ==> !Before(c.name, name))
  }

  ghost predicate LeadsWaiting(bs: set<Backup>, name: string) {
    && (exists b :: b in bs && b.IsWaiting() && b.name == name)
    && (forall c :: c in bs && c.IsWaiting() ==> !Before(c.name, name))
  }

  /** The agreement, stated on the backups as a set: no listing order can matter. */
  ghost predicate Admits(bs: set<Backup>, name: string) {
    if exists b :: b in bs && b.IsInProgress() then LeadsInProgress(bs, name)
    else if exists b :: b in bs && b.IsWaiting() then LeadsWaiting(bs, name)
    else true
  }

  ghost predicate DistinctNames(bs: set<Backup>) {
    forall a, b :: a in bs && b in bs && a.name == b.name ==> a == b
  }

  predicate SortedByName(items: seq<Backup>) {
    forall i, j :: 0 <= i < j < |items| ==> !Before(items[j].name, items[i].name)
  }

  function Items(items: seq<Backup>): set<Backup> { set b | b in items }

  function WaitingNames(items: seq<Backup>): seq<string> {
    if items == [] then []
    else
      var last := items[|items| - 1];
      WaitingNames(items[..|items| - 1]) + if last.IsWaiting() then [last.name] else []
  }

  class BackupList {
    var items: seq<Backup>

    constructor (items: seq<Backup>)
      ensures this.items == items
    {
      this.items := items;
    }

    /** Sorts in place. */
    method SortByName()
      modifies this
      ensures SortedByName(items) && multiset(items) == multiset(old(items))
    {
      var sorted: seq<Backup> := [];
      for i := 0 to |items|
        invariant items == old(items)
        invariant SortedByName(sorted) && multiset(sorted) == multiset(items[..i])
      {
        assert items[..i + 1] == items[..i] + [items[i]];
        sorted := Insert(sorted, items[i]);
      }
      assert items[..|items|] == items;
      items := sorted;
    }

    static method Insert(sorted: seq<Backup>, b: Backup) returns (r: seq<Backup>)
      requires SortedByName(sorted)
      ensures SortedByName(r) && multiset(r) == multiset(sorted) + multiset{b}
    {
      var i := 0;
      while i < |sorted| && Before(sorted[i].name, b.name)
        invariant 0 <= i <= |sorted|
        invariant forall j :: 0 <= j < i ==> Before(sorted[j].name, b.name)
      {
        i := i + 1;
      }
      r := sorted[..i] + [b] + sorted[i..];
      assert sorted == sorted[..i] + sorted[i..];
      InsertedIsSorted(sorted, b, i);
    }

    /** The names of the backups that neither finished nor are in progress, in the order of the list. */
    method GetPendingBackupNames() returns (names: seq<string>)
      ensures names == WaitingNames(items)
    {
      names := [];
      for i := 0 to |items|
        invariant names == WaitingNames(items[..i])
      {
        assert items[..i + 1][..i] == items[..i];
        if items[i].IsDone() {
          continue;
        }
        if !items[i].IsInProgress() {
          names := names + [items[i].name];
        }
      }
      assert items[..|items|] == items;
    }

    /** Sorts the list, and decides. */
    method CanExecuteBackup(name: string) returns (ok: bool)
      modifies this
      ensures SortedByName(items) && multiset(items) == multiset(old(items))
      ensures ok <==> Admits(Items(old(items)), name)
    {
      var foundRunningBackup := false;
      SortByName();
      label Sorted:
      assert Items(items) == Items(old(items)) by {
        assert forall b :: b in items <==> b in multiset(items);
        assert forall b :: b in old(items) <==> b in multiset(old(items));
      }
      for i := 0 to |items|
        invariant items == old@Sorted(items) && !foundRunningBackup
        invariant forall j :: 0 <= j < i ==> !items[j].IsInProgress()
      {
        if items[i].IsInProgress() {
          FirstInProgressLeads(items, i, name);
          assert items[i] in Items(items);
          if name == items[i].name && !foundRunningBackup {
            return true;
          }
          foundRunningBackup := true;
          if name != items[i].name {
            return false;
          }
        }
      }
      var pendingBackups := GetPendingBackupNames();
      FirstWaitingLeads(items, name);
      return !(|pendingBackups| > 0 && pendingBackups[0] != name);
    }
  }

  lemma InsertedIsSorted(sorted: seq<Backup>, b: Backup, i: nat)
    requires SortedByName(sorted) && i <= |sorted|
    requires forall j :: 0 <= j < i ==> Before(sorted[j].name, b.name)
    requires i < |sorted| ==> !Before(sorted[i].name, b.name)
    ensures SortedByName(sorted[..i] + [b] + sorted[i..])
  {
    var r := sorted[..i] + [b] + sorted[i..];
    forall j, k | 0 <= j < k < |r| ensures !Before(r[k].name, r[j].name) {
      if j < i && k == i {
        BeforeIsAsymmetric(r[j].name, b.name);
      }
      if j == i < k && Before(r[k].name, b.name) && k - 1 > i {
        BeforeIsTotal(sorted[i].name, sorted[k - 1].name);
        if Before(sorted[i].name, sorted[k - 1].name) {
          BeforeIsTransitive(sorted[i].name, sorted[k - 1].name, b.name);
        }
      }
    }
  }

  /** In a sorted list, the first waiting backup leads the waiting ones. */
  lemma FirstLeads(items: seq<Backup>, first: nat, name: string)
    requires SortedByName(items) && first < |items| && items[first].IsWaiting()
    requires forall j :: 0 <= j < first ==> !items[j].IsWaiting()
    ensures items[first].name == name <==> LeadsWaiting(Items(items), name)
  {
    assert items[first] in Items(items);
    forall c | c in Items(items) && c.IsWaiting() ensures !Before(c.name, items[first].name) {
      BeforeIsAsymmetric(c.name, c.name);
    }
    BeforeIsTotal(items[first].name, name);
  }

  lemma {:induction false} FirstWaiting(items: seq<Backup>) returns (first: nat)
    requires WaitingNames(items) != []
    ensures first < |items| && items[first].IsWaiting() && items[first].name == WaitingNames(items)[0]
    ensures forall j :: 0 <= j < first ==> !items[j].IsWaiting()
  {
    var init := items[..|items| - 1];
    if WaitingNames(init) == [] {
      NobodyWaits(init);
      first := |init|;
    } else {
      first := FirstWaiting(init);
    }
  }

  lemma {:induction false} NobodyWaits(items: seq<Backup>)
    ensures WaitingNames(items) == [] <==> forall b :: b in items ==> !b.IsWaiting()
  {
    if items != [] {
      var init, last := items[..|items| - 1], items[|items| - 1];
      NobodyWaits(init);
      assert forall b :: b in items <==> b in init || b == last;
    }
  }

  /** The first of the waiting names of a sorted list is the one that leads. */
  lemma FirstWaitingLeads(items: seq<Backup>, name: string)
    requires SortedByName(items)
    ensures WaitingNames(items) == [] <==> forall b :: b in items ==> !b.IsWaiting()
    ensures WaitingNames(items) != [] ==> (WaitingNames(items)[0] == name <==> LeadsWaiting(Items(items), name))
  {
    NobodyWaits(items);
    if WaitingNames(items) != [] {
      var first := FirstWaiting(items);
      FirstLeads(items, first, name);
    }
  }

  lemma FirstInProgressLeads(items: seq<Backup>, first: nat, name: string)
    requires SortedByName(items) && first < |items| && items[first].IsInProgress()
    requires forall j :: 0 <= j < first ==> !items[j].IsInProgress()
    ensures items[first].name == name <==> LeadsInProgress(Items(items), name)
  {
    assert items[first] in Items(items);
    forall c | c in Items(items) && c.IsInProgress() ensures !Before(c.name, items[first].name) {
      BeforeIsAsymmetric(c.name, c.name);
    }
    BeforeIsTotal(items[first].name, name);
  }

  /** Any non-empty set of backups has one whose name comes first. */
  lemma {:induction false} SomeNameIsFirst(bs: set<Backup>) returns (m: Backup)
    requires bs != {}
    ensures m in bs && forall c :: c in bs ==> !Before(c.name, m.name)
    decreases |bs|
  {
    var b :| b in bs;
    m := b;
    BeforeIsAsymmetric(b.name, b.name);
    if bs != {b} {
      var rest := bs - {b};
      assert rest != {} by { assert bs == rest + {b}; }
      var r := SomeNameIsFirst(rest);
      if !Before(b.name, r.name) {
        m := r;
      } else {
        forall c | c in bs ensures !Before(c.name, b.name) {
          if Before(c.name, b.name) {
            BeforeIsTransitive(c.name, b.name, r.name);
          }
        }
      }
    }
  }

  /** The pending names are those of the backups that did not begin, or that are at a phase after the copy. */
  lemma {:induction false} PendingNamesExactly(items: seq<Backup>, name: string)
    ensures name in WaitingNames(items) <==>
      exists b :: b in items && b.name == name && b.phase in {Unset, Finalizing, WalArchivingFailing}
  {
    if items != [] {
      var init, last := items[..|items| - 1], items[|items| - 1];
      PendingNamesExactly(init, name);
      assert forall b :: b in items <==> b in init || b == last;
    }
  }

  /** When all backups ended, whoever asks is admitted, listed or not. */
  lemma AllDoneAdmitsAnybody(bs: set<Backup>, name: string)
    requires forall b :: b in bs ==> b.phase in {BackupCompleted, BackupFailed}
    ensures Admits(bs, name)
  {
  }

  /** A backup that is pending, started or running is admitted exactly when it has the first name among those. */
  lemma InProgressIsAdmittedExactly(bs: set<Backup>, b: Backup)
    requires b in bs && b.phase in {Pending, Started, Running}
    ensures Admits(bs, b.name) <==>
      forall c :: c in bs && c.phase in {Pending, Started, Running} ==> !Before(c.name, b.name)
  {
  }

  /** As long as a backup is unfinished, exactly one unfinished backup is admitted: none blocks all, no two go. */
  lemma ExactlyOneIsAdmitted(bs: set<Backup>) returns (chosen: Backup)
    requires DistinctNames(bs) && exists b :: b in bs && !b.IsDone()
    ensures chosen in bs && !chosen.IsDone()
    ensures forall b :: b in bs && !b.IsDone() ==> (Admits(bs, b.name) <==> b == chosen)
  {
    if exists b :: b in bs && b.IsInProgress() {
      chosen := FirstInProgressIsAdmitted(bs);
    } else {
      chosen := FirstWaitingIsAdmitted(bs);
    }
  }

  lemma FirstInProgressIsAdmitted(bs: set<Backup>) returns (chosen: Backup)
    requires DistinctNames(bs) && exists b :: b in bs && b.IsInProgress()
    ensures chosen in bs && chosen.IsInProgress()
    ensures forall b :: b in bs ==> (Admits(bs, b.name) <==> b == chosen)
  {
    var inProgress := set b | b in bs && b.IsInProgress();
    var b :| b in bs && b.IsInProgress();
    assert b in inProgress;
    chosen := FirstIn(bs, inProgress);
  }

  lemma FirstWaitingIsAdmitted(bs: set<Backup>) returns (chosen: Backup)
    requires DistinctNames(bs) && (exists b :: b in bs && !b.IsDone()) && forall b :: b in bs ==> !b.IsInProgress()
    ensures chosen in bs && chosen.IsWaiting()
    ensures forall b :: b in bs ==> (Admits(bs, b.name) <==> b == chosen)
  {
    var waiting := set b | b in bs && b.IsWaiting();
    var b :| b in bs && !b.IsDone();
    assert b in waiting;
    chosen := FirstIn(bs, waiting);
  }

  /** Of backups with distinct names, one comes strictly before all others. */
  lemma FirstIn(bs: set<Backup>, some: set<Backup>) returns (m: Backup)
    requires DistinctNames(bs) && some <= bs && some != {}
    ensures m in some && forall c :: c in some && c != m ==> Before(m.name, c.name) && !Before(c.name, m.name)
    ensures !Before(m.name, m.name)
  {
    m := SomeNameIsFirst(some);
    BeforeIsAsymmetric(m.name, m.name);
    forall c | c in some && c != m ensures Before(m.name, c.name) {
      BeforeIsTotal(m.name, c.name);
    }
  }
}
