/**
 The coordinator lock (internal/filelock/filelock.go) as interleaved steps of any number of
 processes over one path, its inodes and their flock owners. The lock compares an inode only while
 the process keeps it open, so here an inode number is never reused. The path is renamed only by
 the steps below.
 */
module CoordinatorLocks {
  import opened Options

  type Inode = nat
  type Pid = nat

  /** Where a process stands with its current file. */
  datatype Phase =
    | Idle
    | Opened(file: Inode)
    | Checked(file: Inode)   // the path named the file after opening
    | Locked(file: Inode)    // flock taken, not yet validated
    | Held(file: Inode)      // validated after locking
    | Retiring(file: Inode)  // validated again, about to rename the path

  /** `spent` is a retired inode whose lock is still held. */
  datatype Proc = Proc(spent: Option<Inode>, phase: Phase)

  datatype Locks = Locks(path: Option<Inode>, next: Inode, owner: map<Inode, Pid>, procs: map<Pid, Proc>) {
    function Of(p: Pid): Proc {
      if p in procs then procs[p] else Proc(None, Idle)
    }

    function Set(p: Pid, proc: Proc): (r: Locks)
      ensures forall q :: r.Of(q) == if q == p then proc else Of(q)
    {
      this.(procs := procs[p := proc])
    }

    function SetPhase(p: Pid, phase: Phase): (r: Locks)
      ensures forall q :: r.Of(q) == if q == p then Proc(Of(p).spent, phase) else Of(q)
    {
      Set(p, Proc(Of(p).spent, phase))
    }

    function Unlocked(file: Inode): Locks {
      this.(owner := owner - {file})
    }
  }

  datatype LockAction = Open | OpenExisting | Check | TryLock | Validate | BeginRetire | Rename | CloseSpent | Close | Crash

  function FileOf(phase: Phase): Option<Inode> {
    if phase.Idle? then None else Some(phase.file)
  }

  predicate HasLock(phase: Phase) {
    phase.Locked? || phase.Held? || phase.Retiring?
  }

  predicate Validated(phase: Phase) {
    phase.Held? || phase.Retiring?
  }

  /* ---------- One step of one process ---------- */

  /** Open or create the path, as open(O_CREAT) does. */
  function AfterOpen(s: Locks, p: Pid): Locks {
    match s.path
    case Some(f) => s.SetPhase(p, Opened(f))
    case None => s.(path := Some(s.next), next := s.next + 1).SetPhase(p, Opened(s.next))
  }

  /** Dropping the current file releases its lock if this process has it. */
  function AfterClose(s: Locks, p: Pid): Locks {
    var phase := s.Of(p).phase;
    if HasLock(phase) then s.Unlocked(phase.file).SetPhase(p, Idle) else s.SetPhase(p, Idle)
  }

  function AfterCloseSpent(s: Locks, p: Pid): Locks {
    match s.Of(p).spent
    case Some(o) => s.Unlocked(o).Set(p, Proc(None, s.Of(p).phase))
    case None => s
  }

  /** What an action leads to; `None` where the process cannot take it. */
  function LockStep(s: Locks, p: Pid, a: LockAction): Option<Locks> {
    var phase := s.Of(p).phase;
    match a
    case Open => if phase.Idle? then Some(AfterOpen(s, p)) else None
    case OpenExisting =>
      if phase.Idle? && s.path.Some? then Some(s.SetPhase(p, Opened(s.path.value))) else None
    case Check =>
      if !phase.Opened? then None
      else if s.path == Some(phase.file) then Some(s.SetPhase(p, Checked(phase.file)))
      else Some(AfterClose(s, p))
    case TryLock =>
      if !(phase.Opened? || phase.Checked?) then None
      else if phase.file in s.owner then Some(s)
      else Some(s.(owner := s.owner[phase.file := p]).SetPhase(p, Locked(phase.file)))
    case Validate =>
      if !phase.Locked? then None
      else if s.path == Some(phase.file) then Some(s.SetPhase(p, Held(phase.file)))
      else Some(AfterClose(s, p))
    case BeginRetire =>
      if !phase.Held? || s.Of(p).spent.Some? then None
      else if s.path == Some(phase.file) then Some(s.SetPhase(p, Retiring(phase.file)))
      else Some(s)
    case Rename =>
      // Moves away whatever the path names at this moment.
      if !phase.Retiring? then None
      else if s.path.None? then Some(s.SetPhase(p, Held(phase.file)))
      else Some(s.(path := None).Set(p, Proc(Some(phase.file), Idle)))
    case CloseSpent => Some(AfterCloseSpent(s, p))
    case Close => Some(AfterClose(s, p))
    case Crash => Some(AfterCloseSpent(AfterClose(s, p), p))
  }

  /* ---------- The invariant ---------- */

  ghost predicate ProcOk(s: Locks, p: Pid) {
    var proc := s.Of(p);
    && (FileOf(proc.phase).Some? ==> proc.phase.file < s.next)
    && (HasLock(proc.phase) ==> proc.phase.file in s.owner && s.owner[proc.phase.file] == p)
    && (Validated(proc.phase) ==> s.path == Some(proc.phase.file))
    && (proc.spent.Some? ==> proc.spent.value < s.next && proc.spent.value in s.owner && s.owner[proc.spent.value] == p)
    && (proc.spent.Some? ==> s.path != proc.spent && FileOf(proc.phase) != proc.spent && !proc.phase.Retiring?)
  }

  /** The process has the lock of this file, current or retired. */
  predicate Has(proc: Proc, f: Inode) {
    (HasLock(proc.phase) && proc.phase.file == f) || proc.spent == Some(f)
  }

  /** Nobody is recorded as the owner of a file without having its lock. */
  ghost predicate OwnersOk(s: Locks) {
    forall f :: f in s.owner ==> Has(s.Of(s.owner[f]), f)
  }

  ghost predicate LocksOk(s: Locks) {
    && (s.path.Some? ==> s.path.value < s.next)
    && (forall p :: ProcOk(s, p))
    && OwnersOk(s)
  }

  ghost predicate InitLocks(s: Locks) {
    s.path.None? && s.owner == map[] && s.procs == map[]
  }

  lemma InitLocksOk(s: Locks)
    requires InitLocks(s)
    ensures LocksOk(s)
  {
  }

  lemma OpenKeeps(s: Locks, p: Pid)
    requires LocksOk(s) && s.Of(p).phase.Idle?
    ensures LocksOk(AfterOpen(s, p))
  {
    forall q ensures ProcOk(AfterOpen(s, p), q) {
      assert ProcOk(s, q) && ProcOk(s, p);
    }
  }

  lemma CloseKeeps(s: Locks, p: Pid)
    requires LocksOk(s)
    ensures LocksOk(AfterClose(s, p))
  {
    forall q ensures ProcOk(AfterClose(s, p), q) {
      assert ProcOk(s, q) && ProcOk(s, p);
    }
  }

  lemma CloseSpentKeeps(s: Locks, p: Pid)
    requires LocksOk(s)
    ensures LocksOk(AfterCloseSpent(s, p))
  {
    forall q ensures ProcOk(AfterCloseSpent(s, p), q) {
      assert ProcOk(s, q) && ProcOk(s, p);
    }
  }

  lemma ProcsKept(s: Locks, p: Pid, a: LockAction)
    requires LocksOk(s) && LockStep(s, p, a).Some?
    requires a.OpenExisting? || a.Check? || a.TryLock? || a.Validate? || a.BeginRetire? || a.Rename?
    ensures LockStep(s, p, a).value != AfterClose(s, p) ==> forall q :: ProcOk(LockStep(s, p, a).value, q)
  {
    hide AfterClose, OwnersOk;
    var s' := LockStep(s, p, a).value;
    if s' != AfterClose(s, p) {
      forall q ensures ProcOk(s', q) {
        assert ProcOk(s, q) && ProcOk(s, p);
      }
    }
  }

  lemma OwnersKept(s: Locks, p: Pid, a: LockAction)
    requires LocksOk(s) && LockStep(s, p, a).Some?
    requires a.OpenExisting? || a.Check? || a.TryLock? || a.Validate? || a.BeginRetire? || a.Rename?
    ensures LockStep(s, p, a).value != AfterClose(s, p) ==> OwnersOk(LockStep(s, p, a).value)
  {
    assert ProcOk(s, p);
    hide AfterClose, ProcOk;
    var s' := LockStep(s, p, a).value;
    if s' != AfterClose(s, p) {
      forall f | f in s'.owner ensures Has(s'.Of(s'.owner[f]), f) {
        if f in s.owner { assert Has(s.Of(s.owner[f]), f); }
      }
    }
  }

  /** Every step of every process keeps the invariant. */
  lemma LockStepKeeps(s: Locks, p: Pid, a: LockAction)
    requires LocksOk(s) && LockStep(s, p, a).Some?
    ensures LocksOk(LockStep(s, p, a).value)
  {
    hide AfterOpen, AfterClose, AfterCloseSpent, ProcOk, OwnersOk;
    match a {
      case Open => OpenKeeps(s, p);
      case Close => CloseKeeps(s, p);
      case CloseSpent => CloseSpentKeeps(s, p);
      case Crash =>
        CloseKeeps(s, p);
        CloseSpentKeeps(AfterClose(s, p), p);
      case _ =>
        CloseKeeps(s, p);
        ProcsKept(s, p, a);
        OwnersKept(s, p, a);
    }
  }

  /* ---------- What one process achieves alone ---------- */

  /** The state after a process takes these actions in turn. */
  function Alone(s: Locks, p: Pid, actions: seq<LockAction>): Option<Locks>
    decreases |actions|
  {
    if |actions| == 0 then Some(s)
    else
      match LockStep(s, p, actions[0])
      case None => None
      case Some(s') => Alone(s', p, actions[1..])
  }

  const ACQUIRE := [Open, Check, TryLock, Validate]
  const JOIN := [OpenExisting, TryLock, Validate]
  const ROTATE := [BeginRetire, Rename] + ACQUIRE + [CloseSpent]

  /** No process has the lock of the file that the path names. */
  ghost predicate Uncontended(s: Locks) {
    s.path.Some? ==> forall q :: !Has(s.Of(q), s.path.value)
  }

  lemma NewFileIsFree(s: Locks, p: Pid)
    requires LocksOk(s) && Uncontended(s) && s.Of(p).phase.Idle?
    ensures var s' := AfterOpen(s, p); s'.path.Some? && s'.Of(p).phase == Opened(s'.path.value) && s'.path.value !in s'.owner
  {
    var f := AfterOpen(s, p).path.value;
    forall q ensures !Has(s.Of(q), f) { assert ProcOk(s, q); }
  }

  /**
   A process that wants the uncontended lock gets it: on the file that the path names, or on a new one
   where it names none, and nobody else's standing changes.
   */
  lemma Acquires(s: Locks, p: Pid)
    requires LocksOk(s) && Uncontended(s) && s.Of(p).phase.Idle?
    ensures var r := Alone(s, p, ACQUIRE);
            && r.Some? && r.value.path.Some? && r.value.Of(p) == Proc(s.Of(p).spent, Held(r.value.path.value))
            && (if s.path.Some? then r.value.path == s.path && r.value.next == s.next else r.value.path.value >= s.next)
            && r.value.owner == s.owner[r.value.path.value := p]
            && forall q :: q != p ==> r.value.Of(q) == s.Of(q)
  {
    hide LocksOk, Uncontended, LockStep, AfterOpen, Alone;
    NewFileIsFree(s, p);
    OpenFrame(s, p);
    TakesOpened(AfterOpen(s, p), p);
    AloneAppend(s, p, [Open], [Check, TryLock, Validate]);
    AloneOne(s, p, Open);
    assert ACQUIRE == [Open] + [Check, TryLock, Validate];
  }

  /** A process that does not create the file gets the lock of the one that the path names. */
  lemma Joins(s: Locks, p: Pid)
    requires LocksOk(s) && Uncontended(s) && s.Of(p).phase.Idle? && s.path.Some?
    ensures var r := Alone(s, p, JOIN);
            && r.Some? && r.value.path == s.path && r.value.Of(p) == Proc(s.Of(p).spent, Held(s.path.value))
            && r.value.owner == s.owner[s.path.value := p]
            && forall q :: q != p ==> r.value.Of(q) == s.Of(q)
  {
    hide Alone, LocksOk, Uncontended;
    NewFileIsFree(s, p);
    JoinsFree(s, p);
  }

  lemma JoinsFree(s: Locks, p: Pid)
    requires s.path.Some? && s.path.value !in s.owner && s.Of(p).phase.Idle?
    ensures var r := Alone(s, p, JOIN);
            && r.Some? && r.value.path == s.path && r.value.Of(p) == Proc(s.Of(p).spent, Held(s.path.value))
            && r.value.owner == s.owner[s.path.value := p]
            && forall q :: q != p ==> r.value.Of(q) == s.Of(q)
  {
    var f := s.path.value;
    var s1 := s.SetPhase(p, Opened(f));
    var s2 := s1.(owner := s.owner[f := p]).SetPhase(p, Locked(f));
    var s3 := s2.SetPhase(p, Held(f));
    assert LockStep(s, p, OpenExisting) == Some(s1) && LockStep(s1, p, TryLock) == Some(s2) && LockStep(s2, p, Validate) == Some(s3);
    hide LockStep;
    assert JOIN[1..] == [TryLock, Validate] && [TryLock, Validate][1..] == [Validate];
    AloneOne(s2, p, Validate);
    assert Alone(s1, p, [TryLock, Validate]) == Some(s3);
  }

  lemma AloneOne(s: Locks, p: Pid, a: LockAction)
    ensures Alone(s, p, [a]) == LockStep(s, p, a)
  {
    assert [a][1..] == [];
  }

  lemma OpenFrame(s: Locks, p: Pid)
    requires s.Of(p).phase.Idle?
    ensures LockStep(s, p, Open) == Some(AfterOpen(s, p))
    ensures var r := AfterOpen(s, p);
            && r.owner == s.owner && r.Of(p).spent == s.Of(p).spent && (forall q :: q != p ==> r.Of(q) == s.Of(q))
            && if s.path.Some? then r.path == s.path && r.next == s.next else r.path == Some(s.next)
  {
  }

  /** From opening the free file that the path names to holding it. */
  lemma TakesOpened(s: Locks, p: Pid)
    requires s.path.Some? && s.Of(p).phase == Opened(s.path.value) && s.path.value !in s.owner
    ensures var r := Alone(s, p, [Check, TryLock, Validate]);
            && r.Some? && r.value.path == s.path && r.value.next == s.next && r.value.owner == s.owner[s.path.value := p]
            && r.value.Of(p) == Proc(s.Of(p).spent, Held(s.path.value))
            && forall q :: q != p ==> r.value.Of(q) == s.Of(q)
  {
    var f := s.path.value;
    var s1 := s.SetPhase(p, Checked(f));
    var s2 := s1.(owner := s.owner[f := p]).SetPhase(p, Locked(f));
    var s3 := s2.SetPhase(p, Held(f));
    assert LockStep(s, p, Check) == Some(s1) && LockStep(s1, p, TryLock) == Some(s2) && LockStep(s2, p, Validate) == Some(s3);
    hide LockStep;
    assert [Check, TryLock, Validate][1..] == [TryLock, Validate] && [TryLock, Validate][1..] == [Validate];
    AloneOne(s2, p, Validate);
    assert Alone(s1, p, [TryLock, Validate]) == Some(s3);
  }

  lemma {:induction false} AloneAppend(s: Locks, p: Pid, a: seq<LockAction>, b: seq<LockAction>)
    ensures Alone(s, p, a + b) == match Alone(s, p, a) case None => None case Some(s') => Alone(s', p, b)
    decreases |a|
  {
    if |a| == 0 {
      assert a + b == b;
    } else {
      assert (a + b)[0] == a[0] && (a + b)[1..] == a[1..] + b;
      match LockStep(s, p, a[0]) {
        case None =>
        case Some(s') => AloneAppend(s', p, a[1..], b);
      }
    }
  }

  lemma Retires(s: Locks, p: Pid)
    requires LocksOk(s) && s.Of(p).phase.Held? && s.Of(p).spent.None?
    ensures var r := Alone(s, p, [BeginRetire, Rename]);
            && r.Some? && LocksOk(r.value) && r.value.path.None? && r.value.next == s.next
            && r.value.Of(p) == Proc(Some(s.Of(p).phase.file), Idle)
            && forall q :: q != p ==> r.value.Of(q) == s.Of(q)
    ensures s.Of(p).phase.file < s.next
  {
    assert ProcOk(s, p);
    var f := s.Of(p).phase.file;
    var s1 := s.SetPhase(p, Retiring(f));
    var s2 := s1.(path := None).Set(p, Proc(Some(f), Idle));
    assert LockStep(s, p, BeginRetire) == Some(s1) && LockStep(s1, p, Rename) == Some(s2);
    LockStepKeeps(s, p, BeginRetire);
    LockStepKeeps(s1, p, Rename);
    hide LockStep, LocksOk, ProcOk;
    assert [BeginRetire, Rename][1..] == [Rename] && [Rename][1..] == [];
    assert Alone(s1, p, [Rename]) == Some(s2);
  }

  lemma Releases(s: Locks, p: Pid, f: Inode)
    requires s.Of(p).spent == Some(f)
    ensures var r := Alone(s, p, [CloseSpent]);
            && r.Some? && r.value.path == s.path && r.value.Of(p) == Proc(None, s.Of(p).phase) && f !in r.value.owner
            && forall q :: q != p ==> r.value.Of(q) == s.Of(q)
  {
    assert [CloseSpent][1..] == [];
    assert LockStep(s, p, CloseSpent) == Some(AfterCloseSpent(s, p));
    assert Alone(AfterCloseSpent(s, p), p, []) == Some(AfterCloseSpent(s, p));
  }

  /** A holder rotates: it ends as the holder of a new file, and its former one is free and nowhere named. */
  lemma Rotates(s: Locks, p: Pid)
    requires LocksOk(s) && s.Of(p).phase.Held? && s.Of(p).spent.None?
    ensures var r := Alone(s, p, ROTATE);
            && r.Some? && r.value.path.Some? && r.value.Of(p) == Proc(None, Held(r.value.path.value))
            && r.value.path.value >= s.next && s.Of(p).phase.file < s.next && s.Of(p).phase.file !in r.value.owner
            && forall q :: q != p ==> r.value.Of(q) == s.Of(q)
  {
    hide LockStep, LocksOk, Alone;
    var f := s.Of(p).phase.file;
    Retires(s, p);
    var s2 := Alone(s, p, [BeginRetire, Rename]).value;
    Acquires(s2, p);
    Releases(Alone(s2, p, ACQUIRE).value, p, f);
    AloneAppend(s, p, [BeginRetire, Rename], ACQUIRE);
    AloneAppend(s, p, [BeginRetire, Rename] + ACQUIRE, [CloseSpent]);
  }

  /** Whoever stops using a lock, by closing or by exiting, leaves it free. */
  lemma ClosingFrees(s: Locks, p: Pid, a: LockAction)
    requires LocksOk(s) && (a.Close? || a.CloseSpent? || a.Crash?)
    ensures LockStep(s, p, a).Some?
    ensures var s' := LockStep(s, p, a).value;
            && (a.Close? || a.Crash? ==> s'.Of(p).phase.Idle?) && (a.CloseSpent? || a.Crash? ==> s'.Of(p).spent.None?)
            && (forall f :: f in s'.owner && s'.owner[f] == p ==> Has(s'.Of(p), f))
            && s'.path == s.path
  {
    LockStepKeeps(s, p, a);
  }

  /* ---------- What the invariant gives ---------- */

  /** At most one process is a validated holder, and it owns the inode that the path names. */
  lemma MutualExclusion(s: Locks, p: Pid, q: Pid)
    requires LocksOk(s) && Validated(s.Of(p).phase) && Validated(s.Of(q).phase)
    ensures p == q && s.path == Some(s.Of(p).phase.file)
    ensures s.path.value in s.owner && s.owner[s.path.value] == p
  {
    assert ProcOk(s, p) && ProcOk(s, q);
  }

  /** Renaming moves exactly the holder's own inode, and revalidation never fails for a holder. */
  lemma RetiresOwnFile(s: Locks, p: Pid)
    requires LocksOk(s) && Validated(s.Of(p).phase)
    ensures s.path == Some(s.Of(p).phase.file)
  {
    assert ProcOk(s, p);
  }

  /** While a process is a validated holder, no other process moves the path or its standing. */
  lemma HolderStable(s: Locks, p: Pid, a: LockAction, q: Pid)
    requires LocksOk(s) && LockStep(s, p, a).Some? && p != q
    ensures LockStep(s, p, a).value.Of(q) == s.Of(q)
    ensures Validated(s.Of(q).phase) ==> LockStep(s, p, a).value.path == s.path
  {
    assert ProcOk(s, p) && ProcOk(s, q);
  }

  /** An inode that the path stopped naming never comes back: its waiters are rejected for good. */
  lemma RetiredForever(s: Locks, p: Pid, a: LockAction, f: Inode)
    requires LockStep(s, p, a).Some? && f < s.next && s.path != Some(f)
    ensures LockStep(s, p, a).value.path != Some(f) && f < LockStep(s, p, a).value.next
  {
  }

  /* ---------- Whole runs ---------- */

  ghost predicate LocksNext(s: Locks, s': Locks) {
    exists p, a :: LockStep(s, p, a) == Some(s')
  }

  ghost predicate LockRun(run: seq<Locks>) {
    && |run| > 0 && InitLocks(run[0])
    && (forall i :: 0 < i < |run| ==> LocksNext(run[i - 1], run[i]))
  }

  /** In every state of every run, validated holders exclude each other. */
  lemma {:induction false} RunsExclude(run: seq<Locks>, i: nat)
    requires LockRun(run) && i < |run|
    ensures LocksOk(run[i])
    ensures forall p, q :: Validated(run[i].Of(p).phase) && Validated(run[i].Of(q).phase) ==> p == q
  {
    hide LockStep;
    if i == 0 {
      InitLocksOk(run[0]);
    } else {
      RunsExclude(run, i - 1);
      assert LocksNext(run[i - 1], run[i]);
      var p, a :| LockStep(run[i - 1], p, a) == Some(run[i]);
      LockStepKeeps(run[i - 1], p, a);
    }
    forall p, q | Validated(run[i].Of(p).phase) && Validated(run[i].Of(q).phase) ensures p == q {
      MutualExclusion(run[i], p, q);
    }
  }

  /** A waiter that gets the lock of a file which the path no longer names is turned away. */
  lemma WaiterRejected(s: Locks, p: Pid, f: Inode)
    requires LocksOk(s) && s.path != Some(f)
    ensures s.Of(p).phase == Opened(f) ==> LockStep(s, p, Check).Some? && LockStep(s, p, Check).value.Of(p).phase.Idle?
    ensures s.Of(p).phase == Locked(f) ==>
      LockStep(s, p, Validate).Some? && LockStep(s, p, Validate).value.Of(p).phase.Idle? && f !in LockStep(s, p, Validate).value.owner
    ensures !(Validated(s.Of(p).phase) && s.Of(p).phase.file == f)
  {
    assert ProcOk(s, p);
  }

  lemma ValidateRetired(s: Locks, p: Pid, f: Inode)
    requires s.path != Some(f) && s.Of(p).phase == Locked(f)
    ensures LockStep(s, p, Validate) == Some(AfterClose(s, p))
  {
  }

  /** A file retired at one point of a run is never named again later in it, and never held again. */
  lemma {:induction false} RunsRetire(run: seq<Locks>, i: nat, j: nat, f: Inode)
    requires LockRun(run) && i <= j < |run| && f < run[i].next && run[i].path != Some(f)
    ensures run[j].path != Some(f) && f < run[j].next
    ensures forall p :: Validated(run[j].Of(p).phase) ==> run[j].Of(p).phase.file != f
    ensures forall p :: run[j].Of(p).phase == Locked(f) ==> LockStep(run[j], p, Validate) == Some(AfterClose(run[j], p))
    decreases j
  {
    hide LockStep;
    if i < j {
      RunsRetire(run, i, j - 1, f);
      assert LocksNext(run[j - 1], run[j]);
      var p, a :| LockStep(run[j - 1], p, a) == Some(run[j]);
      RetiredForever(run[j - 1], p, a, f);
    }
    RunsExclude(run, j);
    forall p ensures Validated(run[j].Of(p).phase) ==> run[j].Of(p).phase.file != f {
      WaiterRejected(run[j], p, f);
    }
    forall p | run[j].Of(p).phase == Locked(f)
      ensures LockStep(run[j], p, Validate) == Some(AfterClose(run[j], p))
    {
      ValidateRetired(run[j], p, f);
    }
  }
}
