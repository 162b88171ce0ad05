/**
 Publishing, leasing and pruning of releases (internal/managedrelease/leases.go, release.go) as
 interleaved steps over the coordinator protocol. A launcher pins a release by a shared lock on
 its lease file; a publisher prunes under the coordinator by an exclusive lock on it.
 */
module Releases {
  import opened Options
  import opened CoordinatorLocks
  import U = Uninstalls

  type Name = nat

  /** The lease file under its own name, under the retiring name, or missing (releases predating leases). */
  datatype Lease = Named(file: Inode) | Withdrawn(file: Inode) | Missing

  datatype Dir = Dir(lease: Lease, published: bool)

  datatype Record = Record(current: Name, previous: Option<Name>)

  /** A process's shared lease. */
  datatype Pin =
    | Unpinned
    | PinOpened(name: Name, file: Inode)
    | PinChecked(name: Name, file: Inode)
    | PinLocked(name: Name, file: Inode)
    | Pinned(name: Name, file: Inode)

  /** A publisher's progress. `keep` is the record it wrote. */
  datatype Work =
    | Resting
    | Selected(before: Option<Record>, keep: Record)
    | Pruning(keep: Record)
    | PruneOpened(keep: Record, name: Name, lease: Lease)
    | PruneLocked(keep: Record, name: Name, lease: Lease)
    | PruneHeld(keep: Record, name: Name, lease: Lease)
    | PruneWithdrawn(keep: Record, name: Name, lease: Lease)
    | PruneClosed(keep: Record, name: Name)

  datatype State = State(base: U.State, dirs: map<Name, Dir>, nextLease: Inode, exclusive: map<Inode, Pid>,
                         shared: set<(Inode, Pid)>, record: Option<Record>, pins: map<Pid, Pin>, works: map<Pid, Work>)
  {
    function Pin(p: Pid): Pin {
      if p in pins then pins[p] else Unpinned
    }

    function Work(p: Pid): Work {
      if p in works then works[p] else Resting
    }

    function WithPin(p: Pid, x: Pin): (r: State)
      ensures forall q :: r.Pin(q) == (if q == p then x else Pin(q)) && r.Work(q) == Work(q)
    {
      this.(pins := pins[p := x])
    }

    function WithWork(p: Pid, w: Work): (r: State)
      ensures forall q :: r.Work(q) == (if q == p then w else Work(q)) && r.Pin(q) == Pin(q)
    {
      this.(works := works[p := w])
    }

    predicate Names(name: Name, lease: Lease) {
      name in dirs && dirs[name].lease == lease
    }
  }

  predicate Kept(r: Record, name: Name) {
    name == r.current || Some(name) == r.previous
  }

  datatype Action =
    | Base(a: U.Action)
    | OpenLease(name: Name) | CheckLease | LockShared | ValidateLease | Adopt | Unpin
    | Stage(name: Name) | Select | Rollback | RollbackFails | MarkPublished
    | PruneOpen(name: Name) | PruneLock | PruneValidate | Withdraw | CloseLease | RenameDir | EndWork

  predicate IsPin(a: Action) {
    a.OpenLease? || a.CheckLease? || a.LockShared? || a.ValidateLease? || a.Adopt? || a.Unpin?
  }

  predicate IsPublish(a: Action) {
    a.Stage? || a.Select? || a.Rollback? || a.RollbackFails? || a.MarkPublished?
  }

  predicate IsPrune(a: Action) {
    a.PruneOpen? || a.PruneLock? || a.PruneValidate? || a.Withdraw? || a.CloseLease? || a.RenameDir? || a.EndWork?
  }

  /* ---------- Steps ---------- */

  function DropPin(s: State, p: Pid): State {
    match s.Pin(p)
    case PinLocked(_, f) => s.(shared := s.shared - {(f, p)}).WithPin(p, Unpinned)
    case Pinned(_, f) => s.(shared := s.shared - {(f, p)}).WithPin(p, Unpinned)
    case _ => s.WithPin(p, Unpinned)
  }

  predicate WorkHasLock(w: Work) {
    w.PruneLocked? || w.PruneHeld? || w.PruneWithdrawn?
  }

  function DropWork(s: State, p: Pid, w: Work): State {
    var was := s.Work(p);
    if WorkHasLock(was) && !was.lease.Missing? then s.(exclusive := s.exclusive - {was.lease.file}).WithWork(p, w)
    else s.WithWork(p, w)
  }

  /** A publisher leaves the coordinator only between publications, or by dying. */
  function BaseStep(s: State, p: Pid, a: U.Action): Option<State> {
    var next := U.Step(s.base, p, a);
    if next.None? then None
    else if a == U.Lock(Crash) then Some(DropWork(DropPin(s, p), p, Resting).(base := next.value))
    else if s.Work(p).Resting? then Some(s.(base := next.value))
    else None
  }

  /** Taking, validating and giving up a shared lease. */
  function PinStep(s: State, p: Pid, a: Action): Option<State>
    requires IsPin(a)
  {
    var pin := s.Pin(p);
    match a
    case OpenLease(name) =>
      if pin.Unpinned? && name in s.dirs && s.dirs[name].lease.Named?
      then Some(s.WithPin(p, PinOpened(name, s.dirs[name].lease.file))) else None
    case CheckLease =>
      if !pin.PinOpened? then None
      else if s.Names(pin.name, Named(pin.file)) then Some(s.WithPin(p, PinChecked(pin.name, pin.file)))
      else Some(s.WithPin(p, Unpinned))
    case LockShared =>
      if !pin.PinChecked? then None
      else if pin.file in s.exclusive then Some(s.WithPin(p, Unpinned))
      else Some(s.(shared := s.shared + {(pin.file, p)}).WithPin(p, PinLocked(pin.name, pin.file)))
    case ValidateLease =>
      if !pin.PinLocked? then None
      else if s.Names(pin.name, Named(pin.file)) then Some(s.WithPin(p, Pinned(pin.name, pin.file)))
      else Some(DropPin(s, p))
    case Adopt =>
      // After exec the payload validates the inherited descriptor again.
      if !pin.Pinned? then None
      else if s.Names(pin.name, Named(pin.file)) then Some(s) else Some(DropPin(s, p))
    case Unpin =>
      if s.Work(p).Resting? then Some(DropPin(s, p)) else None
  }

  function RecordFor(before: Option<Record>, name: Name): Record {
    match before
    case None => Record(name, None)
    case Some(r) => if r.current == name then Record(name, r.previous) else Record(name, Some(r.current))
  }

  /** Selecting a pinned release, with rollback until it is marked published. */
  function PublishStep(s: State, p: Pid, a: Action): Option<State>
    requires IsPublish(a)
  {
    var w := s.Work(p);
    match a
    case Stage(name) =>
      if w.Resting? && name !in s.dirs
      then Some(s.(dirs := s.dirs[name := Dir(Named(s.nextLease), false)], nextLease := s.nextLease + 1)) else None
    case Select =>
      if w.Resting? && s.Pin(p).Pinned? then
        var r := RecordFor(s.record, s.Pin(p).name);
        Some(s.(record := Some(r)).WithWork(p, Selected(s.record, r)))
      else None
    case Rollback => if w.Selected? then Some(s.(record := w.before).WithWork(p, Resting)) else None
    case RollbackFails => if w.Selected? then Some(s.WithWork(p, Resting)) else None
    case MarkPublished =>
      if w.Selected? && w.keep.current in s.dirs
      then Some(s.(dirs := s.dirs[w.keep.current := s.dirs[w.keep.current].(published := true)]).WithWork(p, Pruning(w.keep))) else None
  }

  /** Pruning one release: lock its lease, withdraw the name, unlock, rename the directory away. */
  function PruneStep(s: State, p: Pid, a: Action): Option<State>
    requires IsPrune(a)
  {
    var w := s.Work(p);
    match a
    case PruneOpen(name) =>
      if w.Pruning? && name in s.dirs && !Kept(w.keep, name) && s.dirs[name].published && !s.dirs[name].lease.Missing?
      then Some(s.WithWork(p, PruneOpened(w.keep, name, s.dirs[name].lease))) else None
    case PruneLock =>
      if !w.PruneOpened? || w.lease.Missing? then None
      else if w.lease.file in s.exclusive || (exists x :: x in s.shared && x.0 == w.lease.file)
      then Some(s.WithWork(p, Pruning(w.keep)))
      else Some(s.(exclusive := s.exclusive[w.lease.file := p]).WithWork(p, PruneLocked(w.keep, w.name, w.lease)))
    case PruneValidate =>
      if !w.PruneLocked? then None
      else if s.Names(w.name, w.lease) then Some(s.WithWork(p, PruneHeld(w.keep, w.name, w.lease)))
      else Some(DropWork(s, p, Resting))
    case Withdraw =>
      if !w.PruneHeld? || w.name !in s.dirs || w.lease.Missing? then None
      else Some(s.(dirs := s.dirs[w.name := s.dirs[w.name].(lease := Withdrawn(w.lease.file))])
                 .WithWork(p, PruneWithdrawn(w.keep, w.name, Withdrawn(w.lease.file))))
    case CloseLease => if w.PruneWithdrawn? then Some(DropWork(s, p, PruneClosed(w.keep, w.name))) else None
    case RenameDir => if w.PruneClosed? then Some(s.(dirs := s.dirs - {w.name}).WithWork(p, Pruning(w.keep))) else None
    case EndWork => if w.Selected? then None else Some(DropWork(s, p, Resting))
  }

  function Step(s: State, p: Pid, a: Action): Option<State> {
    if a.Base? then BaseStep(s, p, a.a)
    else if IsPin(a) then (if p in s.base.dead then None else PinStep(s, p, a))
    else if !s.base.Task(p).Publishing? then None
    else if IsPublish(a) then PublishStep(s, p, a)
    else PruneStep(s, p, a)
  }

  /* ---------- The invariant ---------- */

  type Dirs = map<Name, Dir>
  type Owners = map<Inode, Pid>
  type Sharers = set<(Inode, Pid)>

  predicate Holding(dirs: Dirs, name: Name, lease: Lease) {
    name in dirs && dirs[name].lease == lease
  }

  /** A validated shared lease is a shared lock on the file that the release's lease name names. */
  ghost predicate PinOk(pin: Pin, p: Pid, dirs: Dirs, shared: Sharers) {
    match pin
    case PinLocked(_, f) => Shares(shared, p, Some(f))
    case Pinned(name, f) => Shares(shared, p, Some(f)) && Holding(dirs, name, Named(f))
    case _ => Shares(shared, p, None)
  }

  /** The shared locks of `p`: one file's, or none. */
  ghost predicate Shares(shared: Sharers, p: Pid, file: Option<Inode>) {
    forall f :: (f, p) in shared <==> file == Some(f)
  }

  /** A release that launchers may still select: present, with its lease not withdrawn. */
  predicate Selectable(dirs: Dirs, name: Name) {
    name in dirs && !dirs[name].lease.Withdrawn?
  }

  predicate Recorded(dirs: Dirs, r: Option<Record>) {
    r.Some? ==> Selectable(dirs, r.value.current) && (r.value.previous.Some? ==> Selectable(dirs, r.value.previous.value))
  }

  predicate LockedBy(exclusive: Owners, p: Pid, lease: Lease) {
    !lease.Missing? && lease.file in exclusive && exclusive[lease.file] == p
  }

  /** A release eligible for pruning has been published. */
  predicate WasPublished(dirs: Dirs, name: Name) {
    name in dirs ==> dirs[name].published
  }

  /** The exclusive locks of `p`: its lease's, or none. */
  ghost predicate Owns(exclusive: Owners, p: Pid, w: Work) {
    forall f :: f in exclusive && exclusive[f] == p <==> WorkHasLock(w) && !w.lease.Missing? && w.lease.file == f
  }

  ghost predicate WorkOk(w: Work, p: Pid, pin: Pin, dirs: Dirs, record: Option<Record>, exclusive: Owners) {
    match w
    case Resting => true
    case Selected(before, keep) => record == Some(keep) && Recorded(dirs, before) && pin.Pinned? && pin.name == keep.current
    case Pruning(keep) => record == Some(keep)
    case PruneOpened(keep, name, lease) => record == Some(keep) && !Kept(keep, name) && WasPublished(dirs, name)
    case PruneLocked(keep, name, lease) => record == Some(keep) && !Kept(keep, name) && WasPublished(dirs, name) && LockedBy(exclusive, p, lease)
    case PruneHeld(keep, name, lease) =>
      record == Some(keep) && !Kept(keep, name) && WasPublished(dirs, name) && LockedBy(exclusive, p, lease) && Holding(dirs, name, lease)
    case PruneWithdrawn(keep, name, lease) =>
      record == Some(keep) && !Kept(keep, name) && WasPublished(dirs, name) && LockedBy(exclusive, p, lease) && Holding(dirs, name, lease) && lease.Withdrawn?
    case PruneClosed(keep, name) =>
      record == Some(keep) && !Kept(keep, name) && WasPublished(dirs, name) && name in dirs && dirs[name].lease.Withdrawn?
  }

  /** Shared and exclusive locks on one file exclude each other. */
  ghost predicate FlockOk(exclusive: Owners, shared: Sharers) {
    forall x :: x in shared ==> x.0 !in exclusive
  }

  ghost predicate ProcOk(s: State, p: Pid) {
    && PinOk(s.Pin(p), p, s.dirs, s.shared)
    && WorkOk(s.Work(p), p, s.Pin(p), s.dirs, s.record, s.exclusive) && Owns(s.exclusive, p, s.Work(p))
    && (!s.Work(p).Resting? ==> s.base.Task(p).Publishing?)
  }

  ghost predicate StateOk(s: State) {
    && U.StateOk(s.base)
    && FlockOk(s.exclusive, s.shared)
    && Recorded(s.dirs, s.record)
    && (forall p :: ProcOk(s, p))
  }

  /** Every release has a lease file of its own, and new ones are new. */
  ghost predicate LeasesOk(dirs: Dirs, next: Inode) {
    && (forall n :: n in dirs && !dirs[n].lease.Missing? ==> dirs[n].lease.file < next)
    && (forall m, n :: m in dirs && n in dirs && m != n && !dirs[m].lease.Missing? && !dirs[n].lease.Missing? ==>
          dirs[m].lease.file != dirs[n].lease.file)
  }

  /** An installation with any releases and a record of present ones, and nothing running yet. */
  ghost predicate Init(s: State) {
    && U.Init(s.base) && s.pins == map[] && s.works == map[] && s.shared == {} && s.exclusive == map[]
    && Recorded(s.dirs, s.record) && LeasesOk(s.dirs, s.nextLease)
  }

  lemma InitOk(s: State)
    requires Init(s)
    ensures StateOk(s)
  {
    U.InitOk(s.base);
  }

  /** Publication is the business of one process at a time. */
  lemma OthersRest(s: State, p: Pid, q: Pid)
    requires StateOk(s) && s.base.Task(p).Publishing? && q != p
    ensures s.Work(q).Resting?
  {
    assert ProcOk(s, q);
    U.PublisherExclusive(s.base, p, q);
  }

  /* ---------- Leases ---------- */

  lemma DropPinKeeps(s: State, p: Pid)
    requires FlockOk(s.exclusive, s.shared) && PinOk(s.Pin(p), p, s.dirs, s.shared)
    ensures Shares(DropPin(s, p).shared, p, None)
    ensures var t := DropPin(s, p);
            && FlockOk(t.exclusive, t.shared) && t.dirs == s.dirs && t.record == s.record && t.exclusive == s.exclusive && t.base == s.base
            && t.Pin(p).Unpinned? && t.works == s.works
            && forall q :: q != p ==> t.Pin(q) == s.Pin(q) && forall f :: (f, q) in t.shared <==> (f, q) in s.shared
  {
  }

  lemma PinStepKeeps(s: State, p: Pid, a: Action)
    requires IsPin(a) && StateOk(s) && PinStep(s, p, a).Some?
    ensures StateOk(PinStep(s, p, a).value)
  {
    hide U.StateOk, DropPin, WorkOk, Recorded, Owns, Shares, PinStep;
    var s' := PinStep(s, p, a).value;
    assert ProcOk(s, p);
    PinStepOwn(s, p, a);
    PinStepShares(s, p, a);
    forall q ensures ProcOk(s', q) {
      assert ProcOk(s, q);
      if q != p { SharesKept(s.shared, s'.shared, q); }
      if s'.Work(q).Resting? { RestingOk(s', q); }
    }
  }

  lemma PinStepShares(s: State, p: Pid, a: Action)
    requires IsPin(a) && PinStep(s, p, a).Some? && PinOk(s.Pin(p), p, s.dirs, s.shared) && FlockOk(s.exclusive, s.shared)
    ensures var s' := PinStep(s, p, a).value;
            && PinOk(s'.Pin(p), p, s'.dirs, s'.shared) && FlockOk(s'.exclusive, s'.shared)
            && s'.dirs == s.dirs && s'.exclusive == s.exclusive && s'.record == s.record && s'.works == s.works && s'.base == s.base
            && (forall q :: q != p ==> s'.Pin(q) == s.Pin(q))
            && (forall q, f :: q != p ==> ((f, q) in s'.shared <==> (f, q) in s.shared))
  {
    hide DropPin;
    DropPinKeeps(s, p);
    var s' := PinStep(s, p, a).value;
    forall q, f | q != p ensures (f, q) in s'.shared <==> (f, q) in s.shared {
      assert DropPin(s, p).Pin(q) == s.Pin(q);
    }
  }

  lemma SharesKept(shared: Sharers, shared': Sharers, q: Pid)
    requires forall f :: (f, q) in shared' <==> (f, q) in shared
    ensures forall file :: Shares(shared, q, file) ==> Shares(shared', q, file)
  {
  }

  lemma PinStepOwn(s: State, p: Pid, a: Action)
    requires IsPin(a) && PinStep(s, p, a).Some? && ProcOk(s, p)
    ensures !s.Work(p).Resting? && s.Work(p).Selected? ==> PinStep(s, p, a).value.Pin(p) == s.Pin(p)
    ensures var s' := PinStep(s, p, a).value; WorkOk(s.Work(p), p, s'.Pin(p), s'.dirs, s'.record, s'.exclusive)
  {
  }

  lemma RestingOk(s: State, q: Pid)
    requires s.Work(q).Resting?
    ensures WorkOk(s.Work(q), q, s.Pin(q), s.dirs, s.record, s.exclusive)
  {
  }

  /* ---------- Publication ---------- */

  /** New or re-marked directories leave leases in place. */
  predicate Extends(dirs: Dirs, dirs': Dirs) {
    forall n :: n in dirs ==> n in dirs' && dirs'[n].lease == dirs[n].lease
  }

  lemma PublishStepOwn(s: State, p: Pid, a: Action)
    requires IsPublish(a) && PublishStep(s, p, a).Some? && ProcOk(s, p) && Recorded(s.dirs, s.record)
    ensures var s' := PublishStep(s, p, a).value;
            && Extends(s.dirs, s'.dirs) && Recorded(s'.dirs, s'.record)
            && WorkOk(s'.Work(p), p, s'.Pin(p), s'.dirs, s'.record, s'.exclusive)
            && s'.pins == s.pins && s'.shared == s.shared && s'.exclusive == s.exclusive && s'.base == s.base
            && !WorkHasLock(s.Work(p)) && !WorkHasLock(s'.Work(p))
            && forall q :: q != p ==> s'.Work(q) == s.Work(q)
  {
  }

  lemma PublishStepKeeps(s: State, p: Pid, a: Action)
    requires IsPublish(a) && StateOk(s) && s.base.Task(p).Publishing? && PublishStep(s, p, a).Some?
    ensures StateOk(PublishStep(s, p, a).value)
  {
    hide U.StateOk, Recorded, WorkOk, PublishStep;
    var s' := PublishStep(s, p, a).value;
    assert ProcOk(s, p);
    PublishStepOwn(s, p, a);
    forall q ensures ProcOk(s', q) {
      assert ProcOk(s, q) && s'.Pin(q) == s.Pin(q);
      if q != p {
        OthersRest(s, p, q);
        RestingOk(s', q);
      }
    }
  }

  /* ---------- Pruning ---------- */

  /** Nobody is pinned to a release whose lease is locked exclusively or withdrawn. */
  lemma NotPinned(s: State, q: Pid, name: Name)
    requires StateOk(s) && name in s.dirs
    requires s.dirs[name].lease.Withdrawn? || (s.dirs[name].lease.Named? && s.dirs[name].lease.file in s.exclusive)
    ensures !(s.Pin(q).Pinned? && s.Pin(q).name == name)
  {
    hide U.StateOk;
    assert ProcOk(s, q);
  }

  lemma PruneStepFrame(s: State, p: Pid, a: Action)
    requires IsPrune(a) && PruneStep(s, p, a).Some?
    ensures var s' := PruneStep(s, p, a).value;
            && s'.record == s.record && s'.pins == s.pins && s'.shared == s.shared && s'.base == s.base
            && (forall q :: q != p ==> s'.Work(q) == s.Work(q))
            && (a.Withdraw? || a.RenameDir? || s'.dirs == s.dirs)
  {
  }

  /** Pruning changes at most the directory being pruned, and that one only under its lock or after. */
  lemma PruneStepDirs(s: State, p: Pid, a: Action, n: Name)
    requires IsPrune(a) && PruneStep(s, p, a).Some? && ProcOk(s, p) && n in s.dirs
    ensures var s' := PruneStep(s, p, a).value;
            n !in s'.dirs || s'.dirs[n] != s.dirs[n] ==>
              && s.record.Some? && !Kept(s.record.value, n)
              && (s.dirs[n].lease.Withdrawn? || (s.dirs[n].lease.Named? && s.dirs[n].lease.file in s.exclusive))
  {
    hide PinOk, Recorded;
    if !a.Withdraw? && !a.RenameDir? { PruneStepFrame(s, p, a); }
  }

  lemma PruneStepOwn(s: State, p: Pid, a: Action)
    requires IsPrune(a) && PruneStep(s, p, a).Some? && ProcOk(s, p)
    ensures var s' := PruneStep(s, p, a).value; WorkOk(s'.Work(p), p, s'.Pin(p), s'.dirs, s'.record, s'.exclusive)
  {
  }

  /** Pruning takes or releases the pruner's own lock at most. */
  lemma PruneStepOwns(s: State, p: Pid, a: Action, q: Pid)
    requires IsPrune(a) && PruneStep(s, p, a).Some? && Owns(s.exclusive, p, s.Work(p)) && Owns(s.exclusive, q, s.Work(q))
    ensures Owns(PruneStep(s, p, a).value.exclusive, q, PruneStep(s, p, a).value.Work(q))
  {
    hide Kept;
    if a.PruneLock? {
      PruneLockOwns(s, p, q);
    } else if a.CloseLease? || a.EndWork? || (a.PruneValidate? && PruneStep(s, p, a).value.Work(p).Resting?) {
      DropWorkOwns(s, p, PruneStep(s, p, a).value.Work(p), q);
    }
  }

  lemma PruneLockOwns(s: State, p: Pid, q: Pid)
    requires PruneStep(s, p, PruneLock).Some? && Owns(s.exclusive, p, s.Work(p)) && Owns(s.exclusive, q, s.Work(q))
    ensures Owns(PruneStep(s, p, PruneLock).value.exclusive, q, PruneStep(s, p, PruneLock).value.Work(q))
  {
  }

  lemma DropWorkOwns(s: State, p: Pid, w: Work, q: Pid)
    requires !WorkHasLock(w) && Owns(s.exclusive, p, s.Work(p)) && Owns(s.exclusive, q, s.Work(q))
    ensures Owns(DropWork(s, p, w).exclusive, q, DropWork(s, p, w).Work(q))
  {
    hide Owns;
    var was := s.Work(p);
    if WorkHasLock(was) && !was.lease.Missing? {
      if q == p { ReleasedOwns(s.exclusive, p, was, w); } else { ReleasedOthers(s.exclusive, p, was, q, s.Work(q)); }
    } else if q == p {
      OwnsNothing(s.exclusive, p, was, w);
    }
  }

  lemma OwnsNothing(exclusive: Owners, p: Pid, was: Work, w: Work)
    requires Owns(exclusive, p, was) && !(WorkHasLock(was) && !was.lease.Missing?) && !WorkHasLock(w)
    ensures Owns(exclusive, p, w)
  {
  }

  lemma ReleasedOwns(exclusive: Owners, p: Pid, was: Work, w: Work)
    requires Owns(exclusive, p, was) && WorkHasLock(was) && !was.lease.Missing? && !WorkHasLock(w)
    ensures Owns(exclusive - {was.lease.file}, p, w)
  {
  }

  lemma ReleasedOthers(exclusive: Owners, p: Pid, was: Work, q: Pid, w: Work)
    requires Owns(exclusive, p, was) && WorkHasLock(was) && !was.lease.Missing? && Owns(exclusive, q, w) && p != q
    ensures Owns(exclusive - {was.lease.file}, q, w)
  {
    assert was.lease.file in exclusive && exclusive[was.lease.file] == p;
  }

  lemma PruneStepFlock(s: State, p: Pid, a: Action)
    requires IsPrune(a) && PruneStep(s, p, a).Some? && FlockOk(s.exclusive, s.shared)
    ensures FlockOk(PruneStep(s, p, a).value.exclusive, PruneStep(s, p, a).value.shared)
  {
  }

  lemma PruneStepKeeps(s: State, p: Pid, a: Action)
    requires IsPrune(a) && StateOk(s) && s.base.Task(p).Publishing? && PruneStep(s, p, a).Some?
    ensures StateOk(PruneStep(s, p, a).value)
  {
    hide U.StateOk, WorkOk, PruneStep, FlockOk, Owns, Shares;
    var s' := PruneStep(s, p, a).value;
    assert ProcOk(s, p);
    PruneStepFrame(s, p, a);
    PruneStepOwn(s, p, a);
    PruneStepFlock(s, p, a);
    forall n | n in s.dirs
      ensures n !in s'.dirs || s'.dirs[n] != s.dirs[n] ==>
        && s.record.Some? && !Kept(s.record.value, n)
        && (s.dirs[n].lease.Withdrawn? || (s.dirs[n].lease.Named? && s.dirs[n].lease.file in s.exclusive))
    {
      PruneStepDirs(s, p, a, n);
    }
    forall q ensures ProcOk(s', q) {
      assert ProcOk(s, q) && s'.Pin(q) == s.Pin(q);
      if s.Pin(q).Pinned? {
        var n := s.Pin(q).name;
        if n !in s'.dirs || s'.dirs[n] != s.dirs[n] { NotPinned(s, q, n); }
      }
      PruneStepOwns(s, p, a, q);
      if q != p {
        OthersRest(s, p, q);
        RestingOk(s', q);
      }
    }
  }

  /* ---------- Steps of the layer below ---------- */

  /** Other publishers' tasks stay as they are. */
  lemma BaseTasks(s: U.State, p: Pid, a: U.Action, q: Pid)
    requires U.Step(s, p, a).Some? && q != p && s.Task(q).Publishing?
    ensures U.Step(s, p, a).value.Task(q) == s.Task(q)
  {
  }

  lemma DropWorkKeeps(s: State, p: Pid)
    requires FlockOk(s.exclusive, s.shared) && Owns(s.exclusive, p, s.Work(p))
    ensures Owns(DropWork(s, p, Resting).exclusive, p, Resting)
    ensures forall f :: f in DropWork(s, p, Resting).exclusive ==> f in s.exclusive && DropWork(s, p, Resting).exclusive[f] == s.exclusive[f]
    ensures var t := DropWork(s, p, Resting);
            && FlockOk(t.exclusive, t.shared) && t.dirs == s.dirs && t.record == s.record && t.shared == s.shared && t.pins == s.pins && t.base == s.base
            && t.Work(p).Resting? && (forall q :: q != p ==> t.Work(q) == s.Work(q))
            && (forall f :: f in s.exclusive && s.exclusive[f] != p ==> f in t.exclusive && t.exclusive[f] == s.exclusive[f])
  {
  }

  /** A crash drops the process's lease and its exclusive lock, and nothing of anyone else's. */
  lemma CrashKeeps(s: State, p: Pid)
    requires StateOk(s)
    ensures StateOk(DropWork(DropPin(s, p), p, Resting))
    ensures DropWork(DropPin(s, p), p, Resting).Work(p).Resting?
    ensures DropWork(DropPin(s, p), p, Resting).base == s.base
  {
    hide U.StateOk, DropPin, DropWork, Recorded, Owns, Shares;
    assert ProcOk(s, p);
    DropPinKeeps(s, p);
    var t := DropPin(s, p);
    assert t.Work(p) == s.Work(p);
    DropWorkKeeps(t, p);
    var c := DropWork(t, p, Resting);
    forall q ensures ProcOk(c, q) {
      assert ProcOk(s, q);
      if q != p {
        SharesKept(s.shared, c.shared, q);
        OwnsKept(s.exclusive, c.exclusive, q, s.Work(q));
      }
    }
  }

  lemma OwnsKept(exclusive: Owners, exclusive': Owners, q: Pid, w: Work)
    requires Owns(exclusive, q, w) && forall f :: f in exclusive' ==> f in exclusive && exclusive'[f] == exclusive[f]
    requires forall f :: f in exclusive && exclusive[f] == q ==> f in exclusive'
    ensures Owns(exclusive', q, w)
  {
  }

  lemma BaseStepKeeps(s: State, p: Pid, a: U.Action)
    requires StateOk(s) && BaseStep(s, p, a).Some?
    ensures StateOk(BaseStep(s, p, a).value)
  {
    hide U.StateOk, U.Step, PinOk, WorkOk, Recorded, DropWork, DropPin;
    U.StepKeeps(s.base, p, a);
    CrashKeeps(s, p);
    var s' := BaseStep(s, p, a).value;
    var mid := if a == U.Lock(Crash) then DropWork(DropPin(s, p), p, Resting) else s;
    forall q ensures ProcOk(s', q) {
      assert ProcOk(mid, q) && s'.Work(q) == mid.Work(q) && s'.Pin(q) == mid.Pin(q);
      if q != p && !mid.Work(q).Resting? { BaseTasks(s.base, p, a, q); }
    }
  }

  /** Every step of every launcher, publisher and pruner keeps the invariant. */
  lemma StepKeeps(s: State, p: Pid, a: Action)
    requires StateOk(s) && Step(s, p, a).Some?
    ensures StateOk(Step(s, p, a).value)
  {
    hide StateOk, BaseStep, PinStep, PublishStep, PruneStep;
    if a.Base? {
      BaseStepKeeps(s, p, a.a);
    } else if IsPin(a) {
      PinStepKeeps(s, p, a);
    } else if IsPublish(a) {
      PublishStepKeeps(s, p, a);
    } else {
      PruneStepKeeps(s, p, a);
    }
  }

  /* ---------- What the protocol guarantees ---------- */

  /** A directory is renamed away only when nobody is pinned to it and the record does not name it. */
  lemma RenameIsSafe(s: State, p: Pid, q: Pid)
    requires StateOk(s) && s.Work(p).PruneClosed?
    ensures !(s.Pin(q).Pinned? && s.Pin(q).name == s.Work(p).name)
    ensures s.record.Some? && !Kept(s.record.value, s.Work(p).name)
  {
    assert ProcOk(s, p);
    NotPinned(s, q, s.Work(p).name);
  }

  /** The same already holds when the lease name is withdrawn. */
  lemma WithdrawIsSafe(s: State, p: Pid, q: Pid)
    requires StateOk(s) && s.Work(p).PruneHeld?
    ensures !(s.Pin(q).Pinned? && s.Pin(q).name == s.Work(p).name)
    ensures s.record.Some? && !Kept(s.record.value, s.Work(p).name)
  {
    assert ProcOk(s, p);
    NotPinned(s, q, s.Work(p).name);
  }

  /** A payload that inherits a validated lease always finds it valid. */
  lemma AdoptionSucceeds(s: State, p: Pid)
    requires StateOk(s) && s.Pin(p).Pinned? && p !in s.base.dead
    ensures Step(s, p, Adopt) == Some(s)
  {
    assert ProcOk(s, p);
  }

  /** Only the selected release is marked as published, while its publisher still has it pinned. */
  lemma PublishedIsSelected(s: State, p: Pid, a: Action, n: Name)
    requires StateOk(s) && Step(s, p, a).Some? && n in s.dirs && n in Step(s, p, a).value.dirs
    requires !s.dirs[n].published && Step(s, p, a).value.dirs[n].published
    ensures s.record.Some? && s.record.value.current == n && s.Pin(p).Pinned? && s.Pin(p).name == n
  {
    hide U.StateOk, BaseStep, PinStep, PruneStep;
    assert ProcOk(s, p);
    if a.Base? {
      BaseFrame(s, p, a.a);
    } else if IsPin(a) {
      PinFrame(s, p, a);
    } else if IsPrune(a) {
      PruneMarks(s, p, a, n);
    }
  }

  lemma PruneMarks(s: State, p: Pid, a: Action, n: Name)
    requires IsPrune(a) && PruneStep(s, p, a).Some? && n in s.dirs && n in PruneStep(s, p, a).value.dirs
    ensures PruneStep(s, p, a).value.dirs[n].published == s.dirs[n].published
  {
  }

  lemma UnlockedOwns(exclusive: Owners, q: Pid, w: Work)
    requires Owns(exclusive, q, w) && !WorkHasLock(w)
    ensures Owns(exclusive, q, Resting)
  {
  }

  /** A lease that no process holds, shared or exclusively, can be locked for pruning. */
  lemma FreeLeaseLocks(s: State, p: Pid)
    requires StateOk(s) && s.base.Task(p).Publishing? && s.Work(p).PruneOpened? && !s.Work(p).lease.Missing?
    requires forall q :: !((s.Pin(q).PinLocked? || s.Pin(q).Pinned?) && s.Pin(q).file == s.Work(p).lease.file)
    ensures Step(s, p, PruneLock).Some? && Step(s, p, PruneLock).value.Work(p).PruneLocked?
  {
    hide U.StateOk;
    var f := s.Work(p).lease.file;
    forall x | x in s.shared ensures x.0 != f { assert ProcOk(s, x.1) && x == (x.0, x.1); }
    forall q ensures Owns(s.exclusive, q, Resting) {
      assert ProcOk(s, q);
      if q != p { OthersRest(s, p, q); }
      UnlockedOwns(s.exclusive, q, s.Work(q));
    }
    assert f in s.exclusive ==> !Owns(s.exclusive, s.exclusive[f], Resting);
  }

  ghost predicate Next(s: State, s': State) {
    exists p, a :: Step(s, p, a) == Some(s')
  }

  ghost predicate Run(run: seq<State>) {
    && |run| > 0 && Init(run[0])
    && (forall i :: 0 < i < |run| ==> Next(run[i - 1], run[i]))
  }

  lemma {:induction false} RunsOk(run: seq<State>, i: nat)
    requires Run(run) && i < |run|
    ensures StateOk(run[i])
  {
    hide Step, StateOk;
    if i == 0 {
      InitOk(run[0]);
    } else {
      RunsOk(run, i - 1);
      assert Next(run[i - 1], run[i]);
      var p, a :| Step(run[i - 1], p, a) == Some(run[i]);
      StepKeeps(run[i - 1], p, a);
    }
  }

  /**
   In every state of every run, whatever a process is pinned to is present under its name, and the
   recorded current and previous releases are present with their leases in place.
   */
  lemma RunsKeepReleases(run: seq<State>, i: nat, q: Pid)
    requires Run(run) && i < |run|
    ensures run[i].Pin(q).Pinned? ==> Holding(run[i].dirs, run[i].Pin(q).name, Named(run[i].Pin(q).file))
    ensures run[i].record.Some? ==>
      && Selectable(run[i].dirs, run[i].record.value.current)
      && (run[i].record.value.previous.Some? ==> Selectable(run[i].dirs, run[i].record.value.previous.value))
  {
    RunsOk(run, i);
    assert ProcOk(run[i], q);
  }

  /** In every run, a directory is renamed away only when published, and only while unpinned and unrecorded. */
  lemma RunsRenameSafely(run: seq<State>, i: nat, p: Pid, q: Pid)
    requires Run(run) && i + 1 < |run| && Step(run[i], p, RenameDir) == Some(run[i + 1])
    ensures run[i].Work(p).PruneClosed? && run[i].Work(p).name !in run[i + 1].dirs
    ensures run[i].Work(p).name in run[i].dirs && run[i].dirs[run[i].Work(p).name].published
    ensures !(run[i].Pin(q).Pinned? && run[i].Pin(q).name == run[i].Work(p).name)
    ensures run[i].record.Some? && !Kept(run[i].record.value, run[i].Work(p).name)
  {
    RunsOk(run, i);
    assert ProcOk(run[i], p);
    RenameIsSafe(run[i], p, q);
  }

  lemma LeasesKept(s: State, p: Pid, a: Action)
    requires StateOk(s) && Step(s, p, a).Some? && LeasesOk(s.dirs, s.nextLease)
    ensures LeasesOk(Step(s, p, a).value.dirs, Step(s, p, a).value.nextLease)
  {
    assert ProcOk(s, p);
    hide StateOk, U.StateOk, BaseStep, PinStep, PublishStep, PruneStep, LeasesOk;
    if a.Base? {
      BaseFrame(s, p, a.a);
    } else if IsPin(a) {
      PinFrame(s, p, a);
    } else if IsPublish(a) {
      PublishLeases(s, p, a);
    } else {
      PruneLeases(s, p, a);
    }
  }

  lemma PublishLeases(s: State, p: Pid, a: Action)
    requires IsPublish(a) && PublishStep(s, p, a).Some? && LeasesOk(s.dirs, s.nextLease)
    ensures LeasesOk(PublishStep(s, p, a).value.dirs, PublishStep(s, p, a).value.nextLease)
  {
  }

  lemma PruneLeases(s: State, p: Pid, a: Action)
    requires IsPrune(a) && PruneStep(s, p, a).Some? && ProcOk(s, p) && LeasesOk(s.dirs, s.nextLease)
    ensures LeasesOk(PruneStep(s, p, a).value.dirs, PruneStep(s, p, a).value.nextLease)
  {
    hide PinOk, Owns, Recorded;
    var s' := PruneStep(s, p, a).value;
    assert s'.nextLease == s.nextLease;
    if !a.Withdraw? && !a.RenameDir? { PruneStepFrame(s, p, a); }
  }

  /** In every state of every run, no two releases share a lease file, so that pinning one pins no other. */
  lemma {:induction false} RunsKeepLeases(run: seq<State>, i: nat)
    requires Run(run) && i < |run|
    ensures LeasesOk(run[i].dirs, run[i].nextLease)
  {
    hide Step, StateOk, LeasesOk;
    if i > 0 {
      RunsKeepLeases(run, i - 1);
      RunsOk(run, i - 1);
      assert Next(run[i - 1], run[i]);
      var p, a :| Step(run[i - 1], p, a) == Some(run[i]);
      LeasesKept(run[i - 1], p, a);
    }
  }

  /* ---------- What selecting and rolling back record ---------- */

  /** The release that the publisher pins becomes current; what was current becomes previous. */
  lemma SelectRecords(s: State, p: Pid, s': State)
    requires Step(s, p, Select) == Some(s')
    ensures s.Pin(p).Pinned? && s'.record.Some? && s'.record.value.current == s.Pin(p).name
    ensures s.record.None? ==> s'.record.value.previous == None
    ensures s.record.Some? && s.record.value.current != s.Pin(p).name ==>
      s'.record.value.previous == Some(s.record.value.current)
    ensures s.record.Some? && s.record.value.current == s.Pin(p).name ==>
      s'.record.value.previous == s.record.value.previous
    ensures s'.Work(p) == Selected(s.record, s'.record.value) && s'.dirs == s.dirs
  {
  }

  lemma BaseFrame(s: State, p: Pid, a: U.Action)
    requires BaseStep(s, p, a).Some?
    ensures var s' := BaseStep(s, p, a).value;
            && s'.record == s.record && s'.dirs == s.dirs && s'.nextLease == s.nextLease
            && forall q :: s'.Work(q) == s.Work(q) || s'.Work(q).Resting?
  {
    hide U.Step, DropPin, DropWork;
    DropFrame(s, p);
  }

  lemma DropFrame(s: State, p: Pid)
    ensures var s' := DropWork(DropPin(s, p), p, Resting);
            && s'.record == s.record && s'.dirs == s.dirs && s'.nextLease == s.nextLease
            && forall q :: s'.Work(q) == if q == p then Resting else s.Work(q)
  {
  }

  lemma PinFrame(s: State, p: Pid, a: Action)
    requires IsPin(a) && PinStep(s, p, a).Some?
    ensures var s' := PinStep(s, p, a).value; s'.record == s.record && s'.dirs == s.dirs && s'.nextLease == s.nextLease && s'.works == s.works
  {
  }

  lemma PruneEnds(s: State, p: Pid, a: Action)
    requires IsPrune(a) && PruneStep(s, p, a).Some?
    ensures !PruneStep(s, p, a).value.Work(p).Selected?
  {
  }

  /** The record is written, and a publisher given something to roll back to, by selections and rollbacks alone. */
  lemma OnlySelectionWrites(s: State, p: Pid, a: Action)
    requires Step(s, p, a).Some?
    ensures !a.Select? && !a.Rollback? ==> Step(s, p, a).value.record == s.record
    ensures forall q :: Step(s, p, a).value.Work(q).Selected? ==> Step(s, p, a).value.Work(q) == s.Work(q) || (a.Select? && q == p)
  {
    hide BaseStep, PinStep, PruneStep;
    if a.Base? {
      BaseFrame(s, p, a.a);
    } else if IsPin(a) {
      PinFrame(s, p, a);
    } else if IsPrune(a) {
      PruneStepFrame(s, p, a);
      PruneEnds(s, p, a);
    }
  }

  ghost predicate SelectStep(s: State, s': State) {
    exists p :: Step(s, p, Select) == Some(s')
  }

  /** No selection between two points of a run. */
  ghost predicate NoSelect(run: seq<State>, i: nat, j: nat) {
    forall k :: i <= k < j && k + 1 < |run| ==> !SelectStep(run[k], run[k + 1])
  }

  /** What a publication leaves until the next one: its record, or the one from before, to which alone it may be undone. */
  ghost predicate Replacing(s: State, before: Option<Record>, after: Option<Record>) {
    && (s.record == after || s.record == before)
    && forall q :: s.Work(q).Selected? ==> s.Work(q).before == before
  }

  lemma SelectReplaces(s: State, p: Pid, s': State)
    requires StateOk(s) && Step(s, p, Select) == Some(s')
    ensures Replacing(s', s.record, s'.record)
  {
    hide U.StateOk;
    SelectRecords(s, p, s');
    forall q | s'.Work(q).Selected? ensures s'.Work(q).before == s.record {
      if q != p { OthersRest(s, p, q); }
    }
  }

  lemma ReplacingStays(s: State, p: Pid, a: Action, before: Option<Record>, after: Option<Record>)
    requires Replacing(s, before, after) && Step(s, p, a).Some? && !SelectStep(s, Step(s, p, a).value)
    ensures Replacing(Step(s, p, a).value, before, after)
  {
    hide BaseStep, PinStep, PruneStep;
    assert !a.Select?;
    OnlySelectionWrites(s, p, a);
  }

  lemma {:induction false} RunsReplace(run: seq<State>, i: nat, j: nat)
    requires Run(run) && i < j < |run| && SelectStep(run[i], run[i + 1]) && NoSelect(run, i + 1, j)
    ensures Replacing(run[j], run[i].record, run[i + 1].record)
    decreases j
  {
    hide Step, StateOk, Replacing;
    if j == i + 1 {
      RunsOk(run, i);
      var p :| Step(run[i], p, Select) == Some(run[i + 1]);
      SelectReplaces(run[i], p, run[i + 1]);
    } else {
      RunsReplace(run, i, j - 1);
      assert Next(run[j - 1], run[j]);
      var p, a :| Step(run[j - 1], p, a) == Some(run[j]);
      assert !SelectStep(run[j - 1], run[j]);
      ReplacingStays(run[j - 1], p, a, run[i].record, run[i + 1].record);
    }
  }

  /** In every run, a rollback puts back the record from before the selection that it undoes. */
  lemma RunsRollBack(run: seq<State>, i: nat, j: nat, p: Pid)
    requires Run(run) && i < j && j + 1 < |run| && SelectStep(run[i], run[i + 1]) && NoSelect(run, i + 1, j)
    requires Step(run[j], p, Rollback) == Some(run[j + 1])
    ensures run[j + 1].record == run[i].record
  {
    RunsReplace(run, i, j);
  }

  /** And there is such a selection, made by the same publisher. */
  lemma {:induction false} RunsSelectFirst(run: seq<State>, j: nat, p: Pid) returns (i: nat)
    requires Run(run) && j < |run| && run[j].Work(p).Selected?
    ensures i < j && Step(run[i], p, Select) == Some(run[i + 1]) && NoSelect(run, i + 1, j)
    ensures run[j].Work(p) == run[i + 1].Work(p)
    decreases j
  {
    hide Step, StateOk;
    if j == 0 {
      assert false;
    } else {
      assert Next(run[j - 1], run[j]);
      var q, a :| Step(run[j - 1], q, a) == Some(run[j]);
      OnlySelectionWrites(run[j - 1], q, a);
      if a.Select? && q == p {
        i := j - 1;
      } else {
        i := RunsSelectFirst(run, j - 1, p);
        RunsOk(run, j - 1);
        NoOtherSelects(run[j - 1], p, run[j]);
      }
    }
  }

  /** While one publisher has a selection to finish, nobody selects. */
  lemma NoOtherSelects(s: State, p: Pid, s': State)
    requires StateOk(s) && s.Work(p).Selected?
    ensures !SelectStep(s, s')
  {
    hide U.StateOk;
    assert ProcOk(s, p);
    forall q ensures Step(s, q, Select).None? {
      if q != p && s.base.Task(q).Publishing? { OthersRest(s, q, p); }
    }
  }

  /**
   In every run, a release that a publication replaced is still recorded, present and not withdrawn until
   another publication selects, even if the publication is rolled back.
   */
  lemma RunsKeepReplaced(run: seq<State>, i: nat, j: nat, p: Pid)
    requires Run(run) && i < j < |run| && Step(run[i], p, Select) == Some(run[i + 1]) && NoSelect(run, i + 1, j)
    requires run[i].record.Some? && run[i].record.value.current != run[i].Pin(p).name
    ensures run[j].record.Some? && Kept(run[j].record.value, run[i].record.value.current)
    ensures Selectable(run[j].dirs, run[i].record.value.current)
  {
    SelectRecords(run[i], p, run[i + 1]);
    RunsReplace(run, i, j);
    RunsOk(run, j);
  }
}
