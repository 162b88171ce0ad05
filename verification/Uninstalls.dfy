/**
 Deferred uninstalls and their recovery (internal/managedrelease/uninstall.go) on top of the
 coordinator lock: a marker file names the operation and its owner, and a publisher that finds
 a dead owner's marker rotates the coordinator before removing it. A process identity stands
 for a process ID together with its creation time, and an operation for its random token: neither
 is reused. The cleanup worker compares recorded file numbers with the coordinator's long after
 that file was closed, so its check may also succeed on recycled numbers.
 */
module Uninstalls {
  import opened Options
  import opened CoordinatorLocks

  /** Contents of the marker: empty, as old managers and interrupted writes leave it, or a record. */
  datatype Marker = Empty | Pending(operation: nat, scheduled: bool, owner: Pid)

  /** A marker as it was read, and the coordinator under which it was read. */
  datatype Seen = Seen(marker: Marker, under: Inode)

  datatype Task =
    | Free
    | Inspecting(retired: Option<Seen>)             // lockForPublication, before reading the marker
    | Rotating(seen: Seen)                          // read a marker without a live owner
    | Removing(seen: Seen)                          // read that marker again under the new coordinator
    | Publishing                                    // returned with the lock
    | Marking(operation: nat, coordinator: Inode)   // created the marker, not yet written
    | Arranging(operation: nat, coordinator: Inode) // wrote the marker
    | Working(operation: nat, coordinator: Inode)   // cleanup worker, before its checks
    | Destroying(operation: nat)                    // cleanup worker, removing the installation

  datatype State = State(locks: Locks, marker: Option<Marker>, tasks: map<Pid, Task>, dead: set<Pid>, nextOperation: nat) {
    function Task(p: Pid): Task {
      if p in tasks then tasks[p] else Free
    }

    function With(p: Pid, t: Task): (r: State)
      ensures forall q :: r.Task(q) == if q == p then t else Task(q)
    {
      this.(tasks := tasks[p := t])
    }

    predicate Holds(p: Pid) {
      Validated(locks.Of(p).phase)
    }
  }

  datatype Action =
    | Lock(a: LockAction)
    | StartRecovery
    | ReadMarker
    | FinishRotation
    | RemoveMarker
    | CreateMarker(legacy: bool)
    | WriteMarker
    | AbortWrite
    | StartWorker(worker: Pid)
    | BindWorker(worker: Pid, synced: bool)
    | Undo
    | WorkerCheck(recycled: bool)
    | WorkerDone
    | Wipe

  /** Tasks that rely on holding the coordinator give it up only by ending. */
  function AfterLock(s: State, p: Pid, a: LockAction): Option<State> {
    var next := LockStep(s.locks, p, a);
    if next.None? then None
    else if a.Crash? then Some(s.(locks := next.value, dead := s.dead + {p}).With(p, Free))
    else match s.Task(p)
      case Free => Some(s.(locks := next.value))
      case Rotating(_) => if a.Close? then Some(s.(locks := next.value).With(p, Free)) else Some(s.(locks := next.value))
      case Working(_, _) => Some(s.(locks := next.value))
      case _ => if a.Close? then Some(s.(locks := next.value).With(p, Free)) else None
  }

  /** The marker is a record of this operation. */
  predicate MarkerOf(s: State, operation: nat) {
    s.marker.Some? && s.marker.value.Pending? && s.marker.value.operation == operation
  }

  /** One round of the recovery loop, under the lock. */
  function AfterRead(s: State, p: Pid, retired: Option<Seen>, file: Inode): State {
    if s.marker.None? then s.With(p, Publishing)
    else if retired.Some? && retired.value.marker == s.marker.value then s.With(p, Removing(retired.value))
    else if s.marker.value.Pending? && s.marker.value.owner !in s.dead then s.With(p, Free)
    else s.With(p, Rotating(Seen(s.marker.value, file)))
  }

  function Step(s: State, p: Pid, a: Action): Option<State> {
    if p in s.dead then None
    else match a
      case Lock(l) => AfterLock(s, p, l)
      case StartRecovery =>
        if s.Task(p).Free? && s.locks.Of(p).phase.Held? then Some(s.With(p, Inspecting(None))) else None
      case ReadMarker =>
        if s.Task(p).Inspecting? && s.locks.Of(p).phase.Held?
        then Some(AfterRead(s, p, s.Task(p).retired, s.locks.Of(p).phase.file)) else None
      case FinishRotation =>
        if s.Task(p).Rotating? && s.locks.Of(p).phase.Held? && s.locks.Of(p).spent.None?
           && s.locks.Of(p).phase.file != s.Task(p).seen.under
        then Some(s.With(p, Inspecting(Some(s.Task(p).seen)))) else None
      case RemoveMarker =>
        if s.Task(p).Removing? && s.marker.Some? then Some(s.(marker := None).With(p, Publishing)) else None
      case CreateMarker(legacy) =>
        if s.Task(p).Free? && s.locks.Of(p).phase.Held? && s.marker.None? then
          var t := if legacy then Free else Marking(s.nextOperation, s.locks.Of(p).phase.file);
          Some(s.(marker := Some(Empty), nextOperation := s.nextOperation + 1).With(p, t))
        else None
      case WriteMarker =>
        if s.Task(p).Marking? then
          var t := s.Task(p);
          Some(s.(marker := Some(Pending(t.operation, false, p))).With(p, Arranging(t.operation, t.coordinator)))
        else None
      case AbortWrite =>
        // The write or its sync failed: the marker just created goes again.
        if s.Task(p).Marking? then Some(s.(marker := None).With(p, Free)) else None
      case StartWorker(w) =>
        if s.Task(p).Arranging? && w != p && s.Task(w).Free? && s.locks.Of(w) == Proc(None, Idle) && w !in s.dead then
          Some(s.With(w, Working(s.Task(p).operation, s.Task(p).coordinator)))
        else None
      case BindWorker(w, synced) =>
        // The record is replaced only if it is still this operation's, and the worker is alive.
        // Without the directory sync the replacement is there, but reported as failed.
        if s.Task(p).Arranging? then
          var t := s.Task(p);
          if MarkerOf(s, t.operation) && !s.marker.value.scheduled && w !in s.dead then
            Some(s.(marker := Some(Pending(t.operation, true, w))).With(p, if synced then Free else t))
          else Some(s)
        else None
      case Undo =>
        // Removes the marker only if it is still this operation's.
        if s.Task(p).Arranging? then
          if MarkerOf(s, s.Task(p).operation) then Some(s.(marker := None).With(p, Free)) else Some(s.With(p, Free))
        else None
      case WorkerCheck(recycled) =>
        if s.Task(p).Working? && s.locks.Of(p).phase.Held? then
          var t := s.Task(p);
          if (s.locks.Of(p).phase.file == t.coordinator || recycled) && s.marker == Some(Pending(t.operation, true, p))
          then Some(s.With(p, Destroying(t.operation))) else Some(s.With(p, Free))
        else None
      case WorkerDone =>
        if s.Task(p).Destroying? then Some(s.(marker := None).With(p, Free)) else None
      case Wipe =>
        // An immediate uninstall removes all manager state, the marker included.
        if s.Task(p).Free? && s.locks.Of(p).phase.Held? then Some(s.(marker := None)) else None
  }

  /* ---------- The invariant ---------- */

  predicate NeedsLock(t: Task) {
    !t.Free? && !t.Rotating? && !t.Working?
  }

  /** The marker has no live owner. */
  predicate Abandoned(m: Marker, dead: set<Pid>) {
    m.Pending? ==> m.owner in dead
  }

  /** The coordinator of an earlier reading has been retired. */
  predicate Superseded(seen: Seen, locks: Locks) {
    seen.under < locks.next && locks.path != Some(seen.under)
  }

  ghost predicate TaskOk(s: State, p: Pid) {
    match s.Task(p)
    case Free => true
    case Inspecting(retired) => retired.Some? ==> Abandoned(retired.value.marker, s.dead) && Superseded(retired.value, s.locks)
    case Rotating(seen) => Abandoned(seen.marker, s.dead) && seen.under < s.locks.next
    case Removing(seen) => s.marker == Some(seen.marker) && Abandoned(seen.marker, s.dead) && Superseded(seen, s.locks)
    case Publishing => s.marker.None?
    case Marking(operation, coordinator) => s.marker == Some(Empty) && operation < s.nextOperation && s.locks.path == Some(coordinator)
    case Arranging(operation, coordinator) =>
      && MarkerOf(s, operation) && (!s.marker.value.scheduled ==> s.marker.value.owner == p)
      && operation < s.nextOperation && s.locks.path == Some(coordinator)
    case Working(operation, coordinator) => operation < s.nextOperation && coordinator < s.locks.next
    case Destroying(operation) => s.marker == Some(Pending(operation, true, p))
  }

  ghost predicate StateOk(s: State) {
    && LocksOk(s.locks)
    && (forall p :: NeedsLock(s.Task(p)) ==> s.locks.Of(p).phase.Held?)
    && (forall p :: p in s.dead ==> s.Task(p).Free?)
    && (forall p :: TaskOk(s, p))
    && (s.marker.Some? && s.marker.value.Pending? ==> s.marker.value.operation < s.nextOperation)
  }

  ghost predicate Init(s: State) {
    InitLocks(s.locks) && s.tasks == map[] && s.dead == {} && s.marker.None?
  }

  lemma InitOk(s: State)
    requires Init(s)
    ensures StateOk(s)
  {
    InitLocksOk(s.locks);
  }

  lemma OnlyHolder(s: State, p: Pid, q: Pid)
    requires StateOk(s) && s.Holds(p) && NeedsLock(s.Task(q))
    ensures q == p
  {
    MutualExclusion(s.locks, p, q);
  }

  /** Lock steps leave every other process's task valid. */
  lemma LockStepOthers(s: State, p: Pid, a: LockAction, q: Pid)
    requires StateOk(s) && AfterLock(s, p, a).Some? && q != p
    ensures var s' := AfterLock(s, p, a).value;
            TaskOk(s', q) && (NeedsLock(s'.Task(q)) ==> s'.locks.Of(q).phase.Held?)
  {
    hide LockStep, LocksOk;
    assert TaskOk(s, q);
    HolderStable(s.locks, p, a, q);
    LockStepFresh(s.locks, p, a);
  }

  lemma LockStepFresh(s: Locks, p: Pid, a: LockAction)
    requires LockStep(s, p, a).Some?
    ensures s.next <= LockStep(s, p, a).value.next
  {
  }

  lemma LockStepOwn(s: State, p: Pid, a: LockAction)
    requires StateOk(s) && AfterLock(s, p, a).Some?
    ensures var s' := AfterLock(s, p, a).value;
            TaskOk(s', p) && !NeedsLock(s'.Task(p))
  {
    hide LockStep, LocksOk;
    assert TaskOk(s, p);
    LockStepFresh(s.locks, p, a);
  }

  lemma LockStepKeepsTasks(s: State, p: Pid, a: LockAction)
    requires StateOk(s) && p !in s.dead && AfterLock(s, p, a).Some?
    ensures StateOk(AfterLock(s, p, a).value)
  {
    hide LockStep, LocksOk, TaskOk;
    var s' := AfterLock(s, p, a).value;
    LockStepKeeps(s.locks, p, a);
    forall q ensures TaskOk(s', q) && (NeedsLock(s'.Task(q)) ==> s'.locks.Of(q).phase.Held?) {
      if q == p { LockStepOwn(s, p, a); } else { LockStepOthers(s, p, a, q); }
    }
  }

  /** A marker written by a holder concerns no other process's task. */
  lemma TasksOfOthers(s: State, p: Pid, s': State, q: Pid)
    requires StateOk(s) && s.Holds(p) && q != p
    requires s'.locks == s.locks && s'.dead == s.dead && s'.Task(q) == s.Task(q) && s'.nextOperation >= s.nextOperation
    ensures TaskOk(s', q) && !NeedsLock(s'.Task(q))
  {
    if NeedsLock(s.Task(q)) { OnlyHolder(s, p, q); }
    assert TaskOk(s, q);
  }

  /** What a step of `p` must leave behind of its own. */
  ghost predicate OwnOk(s: State, p: Pid, s': State) {
    && s'.locks == s.locks && s'.dead == s.dead && s'.nextOperation >= s.nextOperation
    && TaskOk(s', p) && (NeedsLock(s'.Task(p)) ==> s'.locks.Of(p).phase.Held?)
    && (s'.marker.Some? && s'.marker.value.Pending? ==> s'.marker.value.operation < s'.nextOperation)
  }

  predicate RecoveryAction(a: Action) {
    a.StartRecovery? || a.ReadMarker? || a.FinishRotation? || a.RemoveMarker?
  }

  predicate ScheduleAction(a: Action) {
    a.CreateMarker? || a.WriteMarker? || a.AbortWrite? || a.BindWorker? || a.Undo?
  }

  lemma RecoveryOwn(s: State, p: Pid, a: Action)
    requires StateOk(s) && RecoveryAction(a) && Step(s, p, a).Some?
    ensures s.Holds(p) && OwnOk(s, p, Step(s, p, a).value)
  {
    assert TaskOk(s, p);
    if s.Holds(p) { HolderPath(s, p); }
    hide LocksOk, AfterLock;
  }

  lemma ScheduleOwn(s: State, p: Pid, a: Action)
    requires StateOk(s) && ScheduleAction(a) && Step(s, p, a).Some?
    ensures s.Holds(p) && OwnOk(s, p, Step(s, p, a).value)
  {
    assert TaskOk(s, p);
    if s.Holds(p) { HolderPath(s, p); }
    hide LocksOk, AfterLock;
  }

  lemma WorkerOwn(s: State, p: Pid, a: Action)
    requires StateOk(s) && (a.WorkerCheck? || a.WorkerDone? || a.Wipe?) && Step(s, p, a).Some?
    ensures s.Holds(p) && OwnOk(s, p, Step(s, p, a).value)
  {
    assert TaskOk(s, p);
    hide LocksOk, AfterLock;
  }

  lemma StartWorkerKeeps(s: State, p: Pid, w: Pid)
    requires StateOk(s) && Step(s, p, StartWorker(w)).Some?
    ensures StateOk(Step(s, p, StartWorker(w)).value)
  {
    var s' := Step(s, p, StartWorker(w)).value;
    assert TaskOk(s, p);
    forall q ensures TaskOk(s', q) { assert TaskOk(s, q); }
  }

  lemma StepTasks(s: State, p: Pid, a: Action, q: Pid)
    requires !a.Lock? && !a.StartWorker? && Step(s, p, a).Some? && q != p
    ensures Step(s, p, a).value.Task(q) == s.Task(q)
  {
  }

  lemma TaskStepKeeps(s: State, p: Pid, a: Action)
    requires StateOk(s) && !a.Lock? && Step(s, p, a).Some?
    ensures StateOk(Step(s, p, a).value)
  {
    hide LocksOk, TaskOk, Step;
    var s' := Step(s, p, a).value;
    if a.StartWorker? {
      StartWorkerKeeps(s, p, a.worker);
    } else {
      if RecoveryAction(a) { RecoveryOwn(s, p, a); } else if ScheduleAction(a) { ScheduleOwn(s, p, a); } else { WorkerOwn(s, p, a); }
      forall q ensures TaskOk(s', q) && (NeedsLock(s'.Task(q)) ==> s'.locks.Of(q).phase.Held?) {
        if q != p {
          StepTasks(s, p, a, q);
          TasksOfOthers(s, p, s', q);
        }
      }
      assert p !in s.dead by { Alive(s, p, a); }
      forall q | q in s'.dead ensures s'.Task(q).Free? { StepTasks(s, p, a, q); }
    }
  }

  lemma Alive(s: State, p: Pid, a: Action)
    requires Step(s, p, a).Some?
    ensures p !in s.dead
  {
  }

  lemma HolderPath(s: State, p: Pid)
    requires StateOk(s) && s.Holds(p)
    ensures s.locks.path == Some(s.locks.Of(p).phase.file)
  {
    RetiresOwnFile(s.locks, p);
  }

  /** Every step of every process keeps the invariant. */
  lemma StepKeeps(s: State, p: Pid, a: Action)
    requires StateOk(s) && Step(s, p, a).Some?
    ensures StateOk(Step(s, p, a).value)
  {
    hide StateOk, AfterLock;
    if a.Lock? { LockStepKeepsTasks(s, p, a.a); } else { TaskStepKeeps(s, p, a); }
  }

  /* ---------- What recovery and cleanup may do ---------- */

  /**
   Recovery removes exactly the marker it read before rotating, whose recorded owner is dead,
   and only under a later coordinator than the one it read it under.
   */
  lemma RemovalSafe(s: State, p: Pid)
    requires StateOk(s) && s.Task(p).Removing?
    ensures s.Holds(p) && s.marker == Some(s.Task(p).seen.marker)
    ensures s.marker.value.Pending? ==> s.marker.value.owner in s.dead
    ensures s.locks.path != Some(s.Task(p).seen.under)
  {
    assert TaskOk(s, p) && NeedsLock(s.Task(p));
  }

  /** A publisher holds the coordinator alone, with no uninstall pending and no worker at work. */
  lemma PublisherExclusive(s: State, p: Pid, q: Pid)
    requires StateOk(s) && s.Task(p).Publishing?
    ensures s.Holds(p) && s.marker.None?
    ensures NeedsLock(s.Task(q)) ==> q == p
  {
    assert TaskOk(s, p) && NeedsLock(s.Task(p));
    if NeedsLock(s.Task(q)) { OnlyHolder(s, p, q); }
  }

  /** A cleanup worker destroys only under its own scheduled record, which nobody else can have. */
  lemma DestroyerExclusive(s: State, w: Pid, q: Pid)
    requires StateOk(s) && s.Task(w).Destroying?
    ensures s.Holds(w) && s.marker == Some(Pending(s.Task(w).operation, true, w))
    ensures NeedsLock(s.Task(q)) ==> q == w
  {
    assert TaskOk(s, w) && NeedsLock(s.Task(w));
    if NeedsLock(s.Task(q)) { OnlyHolder(s, w, q); }
  }

  /** The operation is over: no record of it is left, and no task that could act on one. */
  ghost predicate Gone(s: State, operation: nat) {
    && operation < s.nextOperation && !MarkerOf(s, operation)
    && forall p :: !ActsOn(s.Task(p), operation)
  }

  predicate ActsOn(t: Task, operation: nat) {
    (t.Marking? || t.Arranging? || t.Destroying?) && t.operation == operation
  }

  /** However an operation's record goes away, nothing that could act on it is left. */
  lemma RemovalEnds(s: State, p: Pid, a: Action, operation: nat)
    requires StateOk(s) && Step(s, p, a).Some? && MarkerOf(s, operation) && !MarkerOf(Step(s, p, a).value, operation)
    ensures Gone(Step(s, p, a).value, operation)
  {
    hide LocksOk, LockStep;
    assert TaskOk(s, p);
    var s' := Step(s, p, a).value;
    forall q ensures !ActsOn(s'.Task(q), operation) {
      if q != p && NeedsLock(s.Task(q)) { OnlyHolder(s, p, q); }
    }
  }

  /** No step brings back an operation that is over, recycled file numbers or not. */
  lemma GoneStays(s: State, p: Pid, a: Action, operation: nat)
    requires StateOk(s) && Step(s, p, a).Some? && Gone(s, operation)
    ensures Gone(Step(s, p, a).value, operation)
  {
    hide LocksOk, LockStep;
    var s' := Step(s, p, a).value;
    assert TaskOk(s, p) && !ActsOn(s.Task(p), operation);
    forall q ensures !ActsOn(s'.Task(q), operation) {
      assert !ActsOn(s.Task(q), operation);
    }
  }

  /* ---------- What undisturbed processes achieve ---------- */

  datatype Move = Move(pid: Pid, action: Action)

  /** The state after these moves, one after the other. */
  function Script(s: State, moves: seq<Move>): Option<State>
    decreases |moves|
  {
    if |moves| == 0 then Some(s)
    else
      match Step(s, moves[0].pid, moves[0].action)
      case None => None
      case Some(s') => Script(s', moves[1..])
  }

  function LockMoves(p: Pid, actions: seq<LockAction>): seq<Move> {
    seq(|actions|, i requires 0 <= i < |actions| => Move(p, Lock(actions[i])))
  }

  lemma {:induction false} ScriptAppend(s: State, a: seq<Move>, b: seq<Move>)
    ensures Script(s, a + b) == match Script(s, a) case None => None case Some(s') => Script(s', b)
    decreases |a|
  {
    if |a| == 0 {
      assert a + b == b;
    } else {
      assert (a + b)[0] == a[0] && (a + b)[1..] == a[1..] + b;
      match Step(s, a[0].pid, a[0].action) {
        case None =>
        case Some(s') => ScriptAppend(s', a[1..], b);
      }
    }
  }

  lemma ScriptOne(s: State, m: Move)
    ensures Script(s, [m]) == Step(s, m.pid, m.action)
  {
    assert [m][1..] == [];
  }

  lemma ScriptTwo(s: State, m: Move, n: Move)
    ensures Script(s, [m, n]) == match Step(s, m.pid, m.action) case None => None case Some(s') => Step(s', n.pid, n.action)
  {
    assert [m, n] == [m] + [n];
    ScriptAppend(s, [m], [n]);
    ScriptOne(s, m);
    if Step(s, m.pid, m.action).Some? { ScriptOne(Step(s, m.pid, m.action).value, n); }
  }

  /** A process may move its locks alone while its task does not rely on them. */
  lemma {:induction false} LocksAlone(s: State, p: Pid, actions: seq<LockAction>)
    requires p !in s.dead && (s.Task(p).Free? || s.Task(p).Rotating? || s.Task(p).Working?)
    requires forall a :: a in actions ==> !a.Close? && !a.Crash?
    requires Alone(s.locks, p, actions).Some?
    ensures Script(s, LockMoves(p, actions)) == Some(s.(locks := Alone(s.locks, p, actions).value))
    decreases |actions|
  {
    if |actions| > 0 {
      var s' := s.(locks := LockStep(s.locks, p, actions[0]).value);
      assert actions[0] in actions;
      assert Step(s, p, Lock(actions[0])) == Some(s');
      assert LockMoves(p, actions)[1..] == LockMoves(p, actions[1..]);
      LocksAlone(s', p, actions[1..]);
    }
  }

  /** A process that holds the coordinator and nothing else. */
  ghost predicate Ready(s: State, p: Pid) {
    p !in s.dead && s.Task(p).Free? && s.locks.Of(p).phase.Held? && s.locks.Of(p).spent.None?
  }

  ghost predicate Unused(s: State, w: Pid) {
    w !in s.dead && s.Task(w).Free? && s.locks.Of(w) == Proc(None, Idle)
  }

  function Schedule(p: Pid, w: Pid): seq<Move> {
    [Move(p, CreateMarker(false)), Move(p, WriteMarker)] + [Move(p, StartWorker(w)), Move(p, BindWorker(w, true))]
  }

  /** Scheduling leaves a record that the worker owns, and a worker with the same operation. */
  lemma Schedules(s: State, p: Pid, w: Pid)
    requires Ready(s, p) && Unused(s, w) && w != p && s.marker.None?
    ensures var r := Script(s, Schedule(p, w));
            && r.Some? && r.value.marker == Some(Pending(s.nextOperation, true, w)) && r.value.locks == s.locks && r.value.dead == s.dead
            && r.value.Task(w) == Working(s.nextOperation, s.locks.Of(p).phase.file) && r.value.Task(p).Free?
  {
    var op, f := s.nextOperation, s.locks.Of(p).phase.file;
    var s1 := Step(s, p, CreateMarker(false)).value;
    var s2 := Step(s1, p, WriteMarker).value;
    var s3 := Step(s2, p, StartWorker(w)).value;
    assert s2.marker == Some(Pending(op, false, p)) && s2.Task(p) == Arranging(op, f) && s2.Task(w).Free? && s2.locks == s.locks;
    assert s3.marker == s2.marker && s3.Task(p) == Arranging(op, f) && s3.Task(w) == Working(op, f) && s3.locks == s.locks;
    ScriptTwo(s, Move(p, CreateMarker(false)), Move(p, WriteMarker));
    ScriptTwo(s2, Move(p, StartWorker(w)), Move(p, BindWorker(w, true)));
    ScriptAppend(s, [Move(p, CreateMarker(false)), Move(p, WriteMarker)], [Move(p, StartWorker(w)), Move(p, BindWorker(w, true))]);
  }

  /** Closing the coordinator lets the next process take it. */
  lemma ClosingHands(s: Locks, p: Pid)
    requires LocksOk(s) && s.Of(p).phase.Held?
    ensures var r := LockStep(s, p, LockAction.Close);
            && r.Some? && LocksOk(r.value) && Uncontended(r.value) && r.value.path == Some(s.Of(p).phase.file)
            && r.value.Of(p).phase.Idle? && forall q :: q != p ==> r.value.Of(q) == s.Of(q)
  {
    LockStepKeeps(s, p, LockAction.Close);
    assert ProcOk(s, p);
    forall q ensures !Has(AfterClose(s, p).Of(q), s.Of(p).phase.file) { assert ProcOk(s, q); }
  }

  function Handover(p: Pid, w: Pid): seq<Move> {
    [Move(p, Lock(LockAction.Close))] + LockMoves(w, JOIN)
  }

  lemma HandsOver(s: State, p: Pid, w: Pid)
    requires LocksOk(s.locks) && Ready(s, p) && w != p && w !in s.dead && s.Task(w).Working? && s.locks.Of(w) == Proc(None, Idle)
    ensures var r := Script(s, Handover(p, w));
            && r.Some? && r.value.marker == s.marker && r.value.Task(w) == s.Task(w) && r.value.dead == s.dead
            && r.value.locks.Of(w) == Proc(None, Held(s.locks.Of(p).phase.file))
  {
    ClosingHands(s.locks, p);
    var s1 := s.(locks := LockStep(s.locks, p, LockAction.Close).value);
    assert Step(s, p, Lock(LockAction.Close)) == Some(s1);
    hide LockStep, LocksOk, Uncontended;
    Joins(s1.locks, w);
    LocksAlone(s1, w, JOIN);
    ScriptOne(s, Move(p, Lock(LockAction.Close)));
    ScriptAppend(s, [Move(p, Lock(LockAction.Close))], LockMoves(w, JOIN));
  }

  function Cleanup(w: Pid): seq<Move> {
    [Move(w, WorkerCheck(false)), Move(w, WorkerDone)]
  }

  lemma CleansUp(s: State, w: Pid)
    requires w !in s.dead && s.Task(w).Working? && s.locks.Of(w) == Proc(None, Held(s.Task(w).coordinator))
    requires s.marker == Some(Pending(s.Task(w).operation, true, w))
    ensures Step(s, w, WorkerCheck(false)).Some? && Step(s, w, WorkerCheck(false)).value.Task(w) == Destroying(s.Task(w).operation)
    ensures Script(s, Cleanup(w)).Some? && Script(s, Cleanup(w)).value.marker.None? && Script(s, Cleanup(w)).value.Task(w).Free?
  {
    ScriptTwo(s, Move(w, WorkerCheck(false)), Move(w, WorkerDone));
  }

  /** An undisturbed uninstall is carried out: its worker passes all its checks and takes the record with it. */
  lemma UninstallCompletes(s: State, p: Pid, w: Pid)
    requires StateOk(s) && Ready(s, p) && Unused(s, w) && w != p && s.marker.None?
    ensures var r := Script(s, Schedule(p, w) + Handover(p, w));
            r.Some? && r.value.Task(w).Working? && Step(r.value, w, WorkerCheck(false)).Some?
            && Step(r.value, w, WorkerCheck(false)).value.Task(w) == Destroying(s.nextOperation)
    ensures var r := Script(s, Schedule(p, w) + Handover(p, w) + Cleanup(w));
            r.Some? && r.value.marker.None? && r.value.Task(w).Free?
  {
    hide Step, Script, LocksOk, Schedule, Handover, Cleanup;
    Schedules(s, p, w);
    var s1 := Script(s, Schedule(p, w)).value;
    HandsOver(s1, p, w);
    var s2 := Script(s1, Handover(p, w)).value;
    CleansUp(s2, w);
    ScriptAppend(s, Schedule(p, w), Handover(p, w));
    ScriptAppend(s, Schedule(p, w) + Handover(p, w), Cleanup(w));
  }

  /** What the first reading of the marker leads to: publication, refusal or rotation. */
  lemma FirstReading(s: State, p: Pid)
    requires Ready(s, p)
    ensures var r := Script(s, [Move(p, StartRecovery), Move(p, ReadMarker)]);
            && r.Some? && r.value.marker == s.marker && r.value.locks == s.locks && r.value.dead == s.dead
            && (s.marker.None? ==> r.value.Task(p).Publishing?)
            && (s.marker.Some? && s.marker.value.Pending? && s.marker.value.owner !in s.dead ==> r.value.Task(p).Free?)
            && (s.marker.Some? && (s.marker.value.Pending? ==> s.marker.value.owner in s.dead) ==>
                  r.value.Task(p) == Rotating(Seen(s.marker.value, s.locks.Of(p).phase.file)))
  {
    ScriptTwo(s, Move(p, StartRecovery), Move(p, ReadMarker));
  }

  lemma SecondReading(s: State, p: Pid)
    requires p !in s.dead && s.Task(p).Rotating? && s.locks.Of(p).phase.Held? && s.locks.Of(p).spent.None?
    requires s.locks.Of(p).phase.file != s.Task(p).seen.under && s.marker == Some(s.Task(p).seen.marker)
    ensures var r := Script(s, [Move(p, FinishRotation), Move(p, ReadMarker)] + [Move(p, RemoveMarker)]);
            r.Some? && r.value.Task(p).Publishing? && r.value.marker.None? && r.value.locks == s.locks
  {
    ScriptTwo(s, Move(p, FinishRotation), Move(p, ReadMarker));
    var s1 := Script(s, [Move(p, FinishRotation), Move(p, ReadMarker)]).value;
    ScriptOne(s1, Move(p, RemoveMarker));
    ScriptAppend(s, [Move(p, FinishRotation), Move(p, ReadMarker)], [Move(p, RemoveMarker)]);
  }

  function Recovery(p: Pid): seq<Move> {
    [Move(p, StartRecovery), Move(p, ReadMarker)] + LockMoves(p, ROTATE)
    + ([Move(p, FinishRotation), Move(p, ReadMarker)] + [Move(p, RemoveMarker)])
  }

  /** An undisturbed recovery from an abandoned marker ends in publication, under a new coordinator. */
  lemma RecoveryCompletes(s: State, p: Pid)
    requires StateOk(s) && Ready(s, p) && s.marker.Some? && Abandoned(s.marker.value, s.dead)
    ensures var r := Script(s, Recovery(p));
            && r.Some? && r.value.Task(p).Publishing? && r.value.marker.None? && r.value.locks.Of(p).phase.Held?
            && r.value.locks.path == Some(r.value.locks.Of(p).phase.file) && r.value.locks.path != s.locks.path
  {
    HolderPath(s, p);
    hide Step, Script, LocksOk, LockMoves, Alone;
    var f := s.locks.Of(p).phase.file;
    FirstReading(s, p);
    var read := [Move(p, StartRecovery), Move(p, ReadMarker)];
    var s1 := Script(s, read).value;
    Rotates(s1.locks, p);
    LocksAlone(s1, p, ROTATE);
    var s2 := s1.(locks := Alone(s1.locks, p, ROTATE).value);
    SecondReading(s2, p);
    ScriptAppend(s, read, LockMoves(p, ROTATE));
    ScriptAppend(s, read + LockMoves(p, ROTATE), [Move(p, FinishRotation), Move(p, ReadMarker)] + [Move(p, RemoveMarker)]);
  }

  /**
   A record goes only at the hands of a holder of the coordinator: its own scheduler undoing it, its own
   worker finishing, a recovery after its owner's death, or an immediate uninstall.
   */
  lemma RemovedBy(s: State, p: Pid, a: Action, operation: nat)
    requires StateOk(s) && Step(s, p, a).Some? && MarkerOf(s, operation) && !MarkerOf(Step(s, p, a).value, operation)
    ensures s.Holds(p)
    ensures || (a.Undo? && s.Task(p).Arranging? && s.Task(p).operation == operation)
            || (a.WorkerDone? && s.Task(p) == Destroying(operation) && s.marker.value == Pending(operation, true, p))
            || (a.RemoveMarker? && s.marker.value.owner in s.dead)
            || a.Wipe?
  {
    hide LocksOk, LockStep;
    assert TaskOk(s, p);
  }

  /* ---------- Whole runs ---------- */

  ghost predicate Next(s: State, s': State) {
    exists p, a :: Step(s, p, a) == Some(s')
  }

  ghost predicate Run(run: seq<State>) {
    && |run| > 0 && Init(run[0])
    && (forall i :: 0 < i < |run| ==> Next(run[i - 1], run[i]))
  }

  lemma {:induction false} RunsOk(run: seq<State>, i: nat)
    requires Run(run) && i < |run|
    ensures StateOk(run[i])
  {
    hide Step, StateOk;
    if i == 0 {
      InitOk(run[0]);
    } else {
      RunsOk(run, i - 1);
      assert Next(run[i - 1], run[i]);
      var p, a :| Step(run[i - 1], p, a) == Some(run[i]);
      StepKeeps(run[i - 1], p, a);
    }
  }

  /** Process exits are permanent, so an owner found dead stays dead. */
  lemma {:induction false} DeathIsPermanent(run: seq<State>, i: nat, j: nat, p: Pid)
    requires Run(run) && i <= j < |run| && p in run[i].dead
    ensures p in run[j].dead
    decreases j
  {
    if i < j {
      DeathIsPermanent(run, i, j - 1, p);
      assert Next(run[j - 1], run[j]);
    }
  }

  /** What a recovering process remembers of an earlier reading. */
  function Memory(t: Task): Option<Seen> {
    match t
    case Inspecting(retired) => retired
    case Rotating(seen) => Some(seen)
    case Removing(seen) => Some(seen)
    case _ => None
  }

  /** p reads an abandoned marker as the holder of the coordinator. */
  ghost predicate Reads(s: State, p: Pid, seen: Seen) {
    s.Holds(p) && s.locks.path == Some(seen.under) && s.marker == Some(seen.marker) && Abandoned(seen.marker, s.dead)
  }

  lemma MemoryIsOfReading(s: State, q: Pid, a: Action, p: Pid, seen: Seen)
    requires StateOk(s) && Step(s, q, a).Some? && Memory(Step(s, q, a).value.Task(p)) == Some(seen)
    ensures Memory(s.Task(p)) == Some(seen) || Reads(s, p, seen)
  {
    if s.Holds(p) { HolderPath(s, p); }
    hide LocksOk, LockStep;
  }

  /** In every run, a process removes only a marker that it read itself, earlier, when its owner was dead. */
  lemma {:induction false} RunsReadFirst(run: seq<State>, i: nat, p: Pid, seen: Seen) returns (j: nat)
    requires Run(run) && i < |run| && Memory(run[i].Task(p)) == Some(seen)
    ensures j < i && Reads(run[j], p, seen)
    decreases i
  {
    hide Step, StateOk, Reads;
    if i == 0 {
      assert false;
    } else {
      assert Next(run[i - 1], run[i]);
      var q, a :| Step(run[i - 1], q, a) == Some(run[i]);
      RunsOk(run, i - 1);
      MemoryIsOfReading(run[i - 1], q, a, p, seen);
      if Memory(run[i - 1].Task(p)) == Some(seen) {
        j := RunsReadFirst(run, i - 1, p, seen);
      } else {
        j := i - 1;
      }
    }
  }

  /**
   In every run, recovery removes a marker only after reading it with a dead owner and rotating the
   coordinator, and what it removes is still that same record.
   */
  lemma RunsRemoveSafely(run: seq<State>, i: nat, p: Pid) returns (j: nat)
    requires Run(run) && i + 1 < |run| && Step(run[i], p, RemoveMarker) == Some(run[i + 1])
    ensures j < i && run[j].marker == run[i].marker && run[j].Holds(p) && run[i].Holds(p)
    ensures run[j].locks.path != run[i].locks.path
    ensures run[i].marker.value.Pending? ==> run[i].marker.value.owner in run[j].dead
  {
    RunsOk(run, i);
    RemovalSafe(run[i], p);
    j := RunsReadFirst(run, i, p, run[i].Task(p).seen);
  }

  lemma {:induction false} RunsGone(run: seq<State>, i: nat, j: nat, operation: nat)
    requires Run(run) && i <= j < |run| && Gone(run[i], operation)
    ensures Gone(run[j], operation)
    decreases j
  {
    hide Step, StateOk, Gone;
    if i < j {
      RunsGone(run, i, j - 1, operation);
      RunsOk(run, j - 1);
      assert Next(run[j - 1], run[j]);
      var p, a :| Step(run[j - 1], p, a) == Some(run[j]);
      GoneStays(run[j - 1], p, a, operation);
    }
  }

  /**
   Once the record of an operation has been removed, by whichever step, no worker is ever again
   removing the installation for it: a delayed worker that reaches its checks gives up, even if the
   file numbers it compares have been recycled.
   */
  lemma DelayedWorkerStops(run: seq<State>, i: nat, j: nat, operation: nat, w: Pid, recycled: bool)
    requires Run(run) && i < j < |run| && MarkerOf(run[i], operation) && !MarkerOf(run[i + 1], operation)
    ensures run[j].Task(w) != Destroying(operation) && !MarkerOf(run[j], operation)
    ensures run[j].Task(w).Working? && run[j].Task(w).operation == operation && Step(run[j], w, WorkerCheck(recycled)).Some? ==>
      Step(run[j], w, WorkerCheck(recycled)).value.Task(w).Free?
  {
    RunsOk(run, i);
    assert Next(run[i], run[i + 1]);
    var p, a :| Step(run[i], p, a) == Some(run[i + 1]);
    RemovalEnds(run[i], p, a, operation);
    RunsGone(run, i + 1, j, operation);
    assert !ActsOn(run[j].Task(w), operation);
  }

  lemma RetiredStays(s: State, p: Pid, a: Action, f: Inode)
    requires Step(s, p, a).Some? && f < s.locks.next && s.locks.path != Some(f)
    ensures Step(s, p, a).value.locks.path != Some(f) && f < Step(s, p, a).value.locks.next
  {
    hide LockStep;
    if a.Lock? && LockStep(s.locks, p, a.a).Some? { RetiredForever(s.locks, p, a.a, f); }
  }

  /**
   Where file numbers are not recycled, a worker also stops, from then on, once the coordinator it was
   scheduled under has been rotated away, whatever the marker says.
   */
  lemma {:induction false} RotationStopsWorker(run: seq<State>, i: nat, j: nat, w: Pid, coordinator: Inode)
    requires Run(run) && i <= j < |run| && coordinator < run[i].locks.next && run[i].locks.path != Some(coordinator)
    ensures run[j].locks.path != Some(coordinator) && coordinator < run[j].locks.next
    ensures run[j].Task(w).Working? && run[j].Task(w).coordinator == coordinator && Step(run[j], w, WorkerCheck(false)).Some? ==>
      Step(run[j], w, WorkerCheck(false)).value.Task(w).Free?
    decreases j
  {
    if i < j {
      RotationStopsWorker(run, i, j - 1, w, coordinator);
      assert Next(run[j - 1], run[j]);
      var p, a :| Step(run[j - 1], p, a) == Some(run[j]);
      RetiredStays(run[j - 1], p, a, coordinator);
    }
    RunsOk(run, j);
    if run[j].Holds(w) { HolderPath(run[j], w); }
  }
}
