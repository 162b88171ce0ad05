/**
 What undisturbed launchers, publishers and pruners achieve (internal/managedrelease/leases.go,
 release.go): the steps that safety allows are also there to be taken, and lead to the promised state.
 */
module ReleaseScripts {
  import opened Options
  import opened CoordinatorLocks
  import U = Uninstalls
  import opened Releases

  /** The state after a process takes these actions in turn. */
  function Script(s: State, p: Pid, actions: seq<Action>): Option<State>
    decreases |actions|
  {
    if |actions| == 0 then Some(s)
    else
      match Step(s, p, actions[0])
      case None => None
      case Some(s') => Script(s', p, actions[1..])
  }

  lemma {:induction false} ScriptAppend(s: State, p: Pid, a: seq<Action>, b: seq<Action>)
    ensures Script(s, p, a + b) == match Script(s, p, a) case None => None case Some(s') => Script(s', p, b)
    decreases |a|
  {
    hide Step;
    if |a| == 0 {
      assert a + b == b;
    } else {
      assert (a + b)[0] == a[0] && (a + b)[1..] == a[1..] + b;
      match Step(s, p, a[0]) {
        case None =>
        case Some(s') => ScriptAppend(s', p, a[1..], b);
      }
    }
  }

  lemma ScriptOne(s: State, p: Pid, a: Action)
    ensures Script(s, p, [a]) == Step(s, p, a)
  {
    hide Step;
    assert [a][1..] == [];
  }

  lemma ScriptTwo(s: State, p: Pid, a: Action, b: Action)
    ensures Script(s, p, [a, b]) == match Step(s, p, a) case None => None case Some(s') => Step(s', p, b)
  {
    hide Step;
    assert [a, b] == [a] + [b];
    ScriptAppend(s, p, [a], [b]);
    ScriptOne(s, p, a);
    if Step(s, p, a).Some? { ScriptOne(Step(s, p, a).value, p, b); }
  }

  /** Everything but this process's lease is as before. */
  ghost predicate OnlyPin(s: State, s': State, p: Pid) {
    && s'.base == s.base && s'.dirs == s.dirs && s'.exclusive == s.exclusive && s'.record == s.record && s'.nextLease == s.nextLease
    && (forall q :: s'.Work(q) == s.Work(q)) && (forall q :: q != p ==> s'.Pin(q) == s.Pin(q))
  }

  /* ---------- Launching ---------- */

  function Launch(name: Name): seq<Action> {
    [OpenLease(name), CheckLease] + [LockShared, ValidateLease]
  }

  /** A release that nobody is pruning can be pinned, any number of times over. */
  lemma Launches(s: State, p: Pid, name: Name, f: Inode)
    requires p !in s.base.dead && s.Pin(p).Unpinned? && s.Names(name, Named(f)) && f !in s.exclusive
    ensures var r := Script(s, p, Launch(name));
            && r.Some? && r.value.Pin(p) == Pinned(name, f) && r.value.shared == s.shared + {(f, p)} && OnlyPin(s, r.value, p)
            && Step(r.value, p, Adopt) == r
  {
    var s1 := s.WithPin(p, PinOpened(name, f));
    var s2 := s1.WithPin(p, PinChecked(name, f));
    var s3 := s2.(shared := s.shared + {(f, p)}).WithPin(p, PinLocked(name, f));
    var s4 := s3.WithPin(p, Pinned(name, f));
    assert Step(s, p, OpenLease(name)) == Some(s1) && Step(s1, p, CheckLease) == Some(s2);
    assert Step(s2, p, LockShared) == Some(s3) && Step(s3, p, ValidateLease) == Some(s4) && Step(s4, p, Adopt) == Some(s4);
    hide Step;
    ScriptTwo(s, p, OpenLease(name), CheckLease);
    ScriptTwo(s2, p, LockShared, ValidateLease);
    ScriptAppend(s, p, [OpenLease(name), CheckLease], [LockShared, ValidateLease]);
  }

  /** A process that prunes no release has no exclusive lease, and others have none while one publishes. */
  lemma NothingLocked(s: State, p: Pid)
    requires StateOk(s) && s.base.Task(p).Publishing? && !WorkHasLock(s.Work(p))
    ensures s.exclusive == map[]
  {
    hide U.StateOk;
    forall f ensures f !in s.exclusive {
      if f in s.exclusive {
        var q := s.exclusive[f];
        assert Releases.ProcOk(s, q);
        if q != p { OthersRest(s, p, q); }
      }
    }
  }

  /* ---------- Publishing ---------- */

  function Publication(name: Name): seq<Action> {
    [Stage(name)] + Launch(name) + [Select, MarkPublished]
  }

  lemma Stages(s: State, p: Pid, name: Name)
    requires s.base.Task(p).Publishing? && s.Work(p).Resting? && name !in s.dirs
    ensures var r := Script(s, p, [Stage(name)]);
            && r.Some? && r.value.dirs == s.dirs[name := Dir(Named(s.nextLease), false)]
            && r.value.base == s.base && r.value.record == s.record && r.value.exclusive == s.exclusive && r.value.shared == s.shared
            && (forall q :: r.value.Work(q) == s.Work(q) && r.value.Pin(q) == s.Pin(q))
  {
    ScriptOne(s, p, Stage(name));
  }

  /** The record after a publication: the new release, and the one it replaced. */
  ghost predicate Replaces(before: Option<Record>, after: Option<Record>, name: Name) {
    after == Some(Record(name,
                         if before.None? then None
                         else if before.value.current == name then before.value.previous
                         else Some(before.value.current)))
  }

  lemma SelectsAndMarks(s: State, p: Pid, name: Name, f: Inode)
    requires s.base.Task(p).Publishing? && s.Work(p).Resting? && s.Pin(p) == Pinned(name, f) && name in s.dirs
    ensures var r := Script(s, p, [Select, MarkPublished]);
            && r.Some? && Replaces(s.record, r.value.record, name) && r.value.Work(p) == Pruning(r.value.record.value)
            && r.value.dirs == s.dirs[name := s.dirs[name].(published := true)] && r.value.Pin(p) == s.Pin(p)
  {
    ScriptTwo(s, p, Select, MarkPublished);
  }

  lemma StagesAndPins(s: State, p: Pid, name: Name)
    requires p !in s.base.dead && s.base.Task(p).Publishing? && s.Work(p).Resting? && s.Pin(p).Unpinned? && name !in s.dirs
    requires s.exclusive == map[]
    ensures var r := Script(s, p, [Stage(name)] + Launch(name));
            && r.Some? && r.value.base == s.base && r.value.Work(p).Resting? && r.value.record == s.record
            && r.value.dirs == s.dirs[name := Dir(Named(s.nextLease), false)] && r.value.Pin(p) == Pinned(name, s.nextLease)
  {
    hide Script, Launch, Step;
    Stages(s, p, name);
    var s1 := Script(s, p, [Stage(name)]).value;
    Launches(s1, p, name, s.nextLease);
    ScriptAppend(s, p, [Stage(name)], Launch(name));
  }

  /** An undisturbed publication ends with the new release recorded, published and pinned, ready to prune. */
  lemma PublicationCompletes(s: State, p: Pid, name: Name)
    requires StateOk(s) && p !in s.base.dead && s.base.Task(p).Publishing? && s.Work(p).Resting? && s.Pin(p).Unpinned? && name !in s.dirs
    ensures var r := Script(s, p, Publication(name));
            && r.Some? && Replaces(s.record, r.value.record, name) && r.value.Work(p) == Pruning(r.value.record.value)
            && r.value.dirs == s.dirs[name := Dir(Named(s.nextLease), true)] && r.value.Pin(p) == Pinned(name, s.nextLease)
  {
    hide Script, StateOk, Replaces, Launch;
    NothingLocked(s, p);
    StagesAndPins(s, p, name);
    var s2 := Script(s, p, [Stage(name)] + Launch(name)).value;
    SelectsAndMarks(s2, p, name, s.nextLease);
    ScriptAppend(s, p, [Stage(name)] + Launch(name), [Select, MarkPublished]);
  }

  /** A selection that cannot be completed is undone, record and directories alike. */
  lemma RollbackUndoes(s: State, p: Pid)
    requires s.base.Task(p).Publishing? && s.Work(p).Resting? && s.Pin(p).Pinned?
    ensures var r := Script(s, p, [Select, Rollback]);
            r.Some? && r.value.record == s.record && r.value.dirs == s.dirs && r.value.Work(p).Resting?
  {
    ScriptTwo(s, p, Select, Rollback);
  }

  /* ---------- Pruning ---------- */

  /** A release that this publisher may prune, and that nobody has pinned. */
  ghost predicate Prunable(s: State, p: Pid, name: Name) {
    && s.Work(p).Pruning? && name in s.dirs && s.dirs[name].published && !s.dirs[name].lease.Missing? && !Kept(s.Work(p).keep, name)
  }

  ghost predicate InUse(s: State, f: Inode) {
    exists q :: (s.Pin(q).PinLocked? || s.Pin(q).Pinned?) && s.Pin(q).file == f
  }

  function Prune(name: Name): seq<Action> {
    [PruneOpen(name), PruneLock] + [PruneValidate, Withdraw] + [CloseLease, RenameDir]
  }

  lemma LocksLease(s: State, p: Pid, name: Name)
    requires StateOk(s) && s.base.Task(p).Publishing? && Prunable(s, p, name) && !InUse(s, s.dirs[name].lease.file)
    ensures var r := Script(s, p, [PruneOpen(name), PruneLock]); var lease := s.dirs[name].lease;
            r == Some(s.(exclusive := s.exclusive[lease.file := p])
                       .WithWork(p, PruneOpened(s.Work(p).keep, name, lease))
                       .WithWork(p, PruneLocked(s.Work(p).keep, name, lease)))
  {
    LeaseFree(s, p, s.dirs[name].lease.file);
    hide StateOk, InUse, U.StateOk, BaseStep, PinStep, PublishStep;
    var lease, keep := s.dirs[name].lease, s.Work(p).keep;
    var s1 := s.WithWork(p, PruneOpened(keep, name, lease));
    assert Step(s, p, PruneOpen(name)) == Some(s1);
    ScriptTwo(s, p, PruneOpen(name), PruneLock);
  }

  lemma LeaseFree(s: State, p: Pid, f: Inode)
    requires StateOk(s) && s.base.Task(p).Publishing? && !WorkHasLock(s.Work(p)) && !InUse(s, f)
    ensures s.exclusive == map[] && forall x :: x in s.shared ==> x.0 != f
  {
    hide U.StateOk;
    NothingLocked(s, p);
    forall x | x in s.shared ensures x.0 != f {
      assert Releases.ProcOk(s, x.1) && x == (x.0, x.1);
    }
  }

  lemma WithdrawsLease(s: State, p: Pid, keep: Record, name: Name, lease: Lease)
    requires s.base.Task(p).Publishing? && s.Work(p) == PruneLocked(keep, name, lease) && s.Names(name, lease) && !lease.Missing?
    ensures var r := Script(s, p, [PruneValidate, Withdraw]);
            && r.Some? && r.value.Work(p) == PruneWithdrawn(keep, name, Withdrawn(lease.file)) && r.value.base == s.base
            && r.value.dirs == s.dirs[name := s.dirs[name].(lease := Withdrawn(lease.file))]
            && r.value.exclusive == s.exclusive && r.value.record == s.record && r.value.shared == s.shared
  {
    ScriptTwo(s, p, PruneValidate, Withdraw);
  }

  lemma RenamesDir(s: State, p: Pid, keep: Record, name: Name, f: Inode)
    requires s.base.Task(p).Publishing? && s.Work(p) == PruneWithdrawn(keep, name, Withdrawn(f))
    ensures var r := Script(s, p, [CloseLease, RenameDir]);
            && r.Some? && r.value.Work(p) == Pruning(keep) && r.value.dirs == s.dirs - {name}
            && r.value.exclusive == s.exclusive - {f} && r.value.record == s.record && r.value.shared == s.shared
  {
    ScriptTwo(s, p, CloseLease, RenameDir);
  }

  /** An old published release that nobody runs is pruned, and nothing else is touched. */
  lemma PruneCompletes(s: State, p: Pid, name: Name)
    requires StateOk(s) && s.base.Task(p).Publishing? && Prunable(s, p, name) && !InUse(s, s.dirs[name].lease.file)
    ensures var r := Script(s, p, Prune(name));
            && r.Some? && r.value.dirs == s.dirs - {name} && r.value.record == s.record && r.value.shared == s.shared
            && r.value.Work(p) == s.Work(p) && r.value.exclusive == s.exclusive
  {
    NothingLocked(s, p);
    LocksLease(s, p, name);
    hide Script, Step, StateOk;
    var lease, keep := s.dirs[name].lease, s.Work(p).keep;
    var s1 := Script(s, p, [PruneOpen(name), PruneLock]).value;
    WithdrawsLease(s1, p, keep, name, lease);
    var s2 := Script(s1, p, [PruneValidate, Withdraw]).value;
    RenamesDir(s2, p, keep, name, lease.file);
    ScriptAppend(s, p, [PruneOpen(name), PruneLock], [PruneValidate, Withdraw]);
    ScriptAppend(s, p, [PruneOpen(name), PruneLock] + [PruneValidate, Withdraw], [CloseLease, RenameDir]);
  }

  /** A release in use is passed over. */
  lemma PruneSkips(s: State, p: Pid, name: Name)
    requires StateOk(s) && s.base.Task(p).Publishing? && Prunable(s, p, name) && InUse(s, s.dirs[name].lease.file)
    ensures var r := Script(s, p, [PruneOpen(name), PruneLock]);
            && r.Some? && r.value.dirs == s.dirs && r.value.record == s.record && r.value.shared == s.shared
            && r.value.Work(p) == s.Work(p) && r.value.exclusive == s.exclusive
  {
    var q: Pid :| (s.Pin(q).PinLocked? || s.Pin(q).Pinned?) && s.Pin(q).file == s.dirs[name].lease.file;
    assert Releases.ProcOk(s, q);
    assert (s.Pin(q).file, q) in s.shared;
    hide StateOk, U.StateOk;
    ScriptTwo(s, p, PruneOpen(name), PruneLock);
  }
}
